/** `upgrade_operations`: at most one operation owns the upgrade slot. */
module UpgradeOperations {
  import opened Wrappers
  import opened Sql
  import Tables

  datatype Phase =
    | Accepted | Preflight | Fencing | Draining | Staged | SmokeBefore | Migrating | Activating | Verifying
    | Qualifying | Committing | Restoring | VerifyingSource | RecoveryRequired
    | Succeeded | FailedUnchanged | CancelledUnchanged | RolledBack
    | Undeclared(name: string)

  predicate Terminal(phase: Phase) {
    phase in {Succeeded, FailedUnchanged, CancelledUnchanged, RolledBack}
  }

  /** The constrained columns; the rest of the row is free. */
  datatype Operation = Operation(
    id: nat, user: nat, idempotencyKey: nat, generation: int, slot: Option<int>, phase: Phase, rest: Json)

  function Checks(o: Operation): seq<Tri> {
    [And(Truth(o.generation >= 1), Or(Null(o.slot), Equals(o.slot, 1))),
     Truth(!o.phase.Undeclared?),
     Same(Null(o.slot), Truth(Terminal(o.phase)))]
  }

  predicate Checked(o: Operation) {
    forall i | 0 <= i < |Checks(o)| :: Passes(Checks(o)[i])
  }

  predicate Conflict(a: Operation, b: Operation) {
    a.generation == b.generation || Tables.SameSlot(a.slot, b.slot)
    || (a.user == b.user && a.idempotencyKey == b.idempotencyKey)
  }

  const RULES: Tables.Rules<Operation> := Tables.Rules.Rules(
    (o: Operation) => o.id, Checked, Conflict, (a: Operation, b: Operation) => true, (o: Operation) => true)

  /** No CHECK is ever unknown, so a row that passes them satisfies them. */
  lemma ChecksAreDecided(o: Operation)
    ensures forall i | 0 <= i < |Checks(o)| :: Checks(o)[i] != Unknown
    ensures Checked(o) <==>
            && o.generation >= 1 && !o.phase.Undeclared?
            && o.slot ==
               if o.phase in {Succeeded, FailedUnchanged, CancelledUnchanged, RolledBack} then None else Some(1)
  {
    if Checked(o) {
      assert Passes(Checks(o)[0]) && Passes(Checks(o)[1]) && Passes(Checks(o)[2]);
    }
  }

  /** No trigger stands on the table; two rows conflict on the generation, the slot or the request. */
  lemma ConflictsAre(a: Operation, b: Operation)
    ensures RULES.mayUpdate(a, b) && RULES.mayDelete(a)
    ensures RULES.conflict(a, b) <==>
            || a.generation == b.generation || (a.slot.Some? && a.slot == b.slot)
            || (a.user, a.idempotencyKey) == (b.user, b.idempotencyKey)
  {
  }

  /** In every state of every history no two operations share a generation or a request. */
  lemma RequestsAreDistinct(run: seq<Tables.Table<Operation>>, i: nat, k: nat, l: nat)
    requires Tables.IsRun(RULES, run) && i < |run| && k in run[i] && l in run[i] && k != l
    ensures run[i][k].generation != run[i][l].generation
    ensures (run[i][k].user, run[i][k].idempotencyKey) != (run[i][l].user, run[i][l].idempotencyKey)
  {
    Tables.RunConsistent(RULES, run, i);
    assert !RULES.conflict(run[i][k], run[i][l]);
  }

  /** In every state of every history at most one operation is unfinished. */
  lemma OneActive(run: seq<Tables.Table<Operation>>, i: nat, k: nat, l: nat)
    requires Tables.IsRun(RULES, run) && i < |run| && k in run[i] && l in run[i]
    requires forall m | m in {k, l} ::
               run[i][m].phase !in {Succeeded, FailedUnchanged, CancelledUnchanged, RolledBack}
    ensures k == l
  {
    Tables.RunConsistent(RULES, run, i);
    ChecksAreDecided(run[i][k]);
    ChecksAreDecided(run[i][l]);
    assert RULES.checked(run[i][k]) && RULES.checked(run[i][l]);
    assert RULES.conflict(run[i][k], run[i][l]);
  }
}
