/** `upgrade_handovers`: executor handover authority over all histories. */
module UpgradeHandovers {
  import opened Wrappers
  import opened Sql
  import Tables

  datatype Phase =
    | Accepted | Passive | Verified | TransferConsumed | Claimed | Stable | Committing | Committed
    | Restoring | Restored | FailedUnchanged
    | Undeclared(name: string)

  /** The columns the trigger freezes. */
  datatype Identity = Identity(
    id: nat, project: string, user: nat, key: Option<nat>, credentialVersion: Option<int>,
    idempotencyKey: nat, preparationSha256: string, generation: int, preparation: Json, createdAt: int)

  datatype Handover = Handover(
    identity: Identity, slot: Option<int>, phase: Phase, transfer: Option<Json>, commit: Option<Json>)

  predicate Terminal(phase: Phase) {
    phase in {Committed, Restored, FailedUnchanged}
  }

  predicate NeedsTransfer(phase: Phase) {
    phase in {TransferConsumed, Claimed, Stable, Committing, Committed}
  }

  predicate AfterTransfer(phase: Phase) {
    NeedsTransfer(phase) || phase in {Restoring, Restored}
  }

  predicate NeedsCommit(phase: Phase) {
    phase in {Committing, Committed}
  }

  predicate AfterCommit(phase: Phase) {
    NeedsCommit(phase) || phase in {Restoring, Restored}
  }

  function Checks(h: Handover): seq<Tri> {
    [Truth(h.identity.generation >= 1),
     Or(Null(h.slot), Equals(h.slot, 1)),
     Truth(!h.phase.Undeclared?),
     Same(Null(h.slot), Truth(Terminal(h.phase))),
     Or(Not(Truth(NeedsTransfer(h.phase))), NotNull(h.transfer)),
     Or(Null(h.transfer), Truth(AfterTransfer(h.phase))),
     Or(Not(Truth(NeedsCommit(h.phase))), NotNull(h.commit)),
     Or(Null(h.commit), Truth(AfterCommit(h.phase)))]
  }

  predicate Checked(h: Handover) {
    forall i | 0 <= i < |Checks(h)| :: Passes(Checks(h)[i])
  }

  predicate MayUpdate(a: Handover, b: Handover) {
    && a.identity == b.identity
    && Tables.WriteOnce(a.transfer, b.transfer)
    && Tables.WriteOnce(a.commit, b.commit)
  }

  predicate Conflict(a: Handover, b: Handover) {
    || Tables.SameSlot(a.slot, b.slot)
    || (a.identity.user == b.identity.user && a.identity.idempotencyKey == b.identity.idempotencyKey)
  }

  const RULES: Tables.Rules<Handover> := Tables.Rules.Rules(
    (h: Handover) => h.identity.id, Checked, Conflict, MayUpdate, (h: Handover) => false)

  /** No CHECK is ever unknown; passing them all says exactly this about the row. */
  lemma ChecksAreDecided(h: Handover)
    ensures forall i | 0 <= i < |Checks(h)| :: Checks(h)[i] != Unknown
    ensures Checked(h) <==>
            && h.identity.generation >= 1 && !h.phase.Undeclared?
            && h.slot == (if h.phase in {Committed, Restored, FailedUnchanged} then None else Some(1))
            && (h.phase in {TransferConsumed, Claimed, Stable, Committing, Committed} ==> h.transfer.Some?)
            && (h.transfer.Some? ==>
                  h.phase in {TransferConsumed, Claimed, Stable, Committing, Committed, Restoring, Restored})
            && (h.phase in {Committing, Committed} ==> h.commit.Some?)
            && (h.commit.Some? ==> h.phase in {Committing, Committed, Restoring, Restored})
  {
    if Checked(h) {
      var c := Checks(h);
      assert Passes(c[0]) && Passes(c[1]) && Passes(c[2]) && Passes(c[3]);
      assert Passes(c[4]) && Passes(c[5]) && Passes(c[6]) && Passes(c[7]);
    }
  }

  /** The trigger refuses deletion, any change of a frozen column and any change of a payload that is set, and nothing
      else; two rows conflict on the slot or on the request. */
  lemma RulesProtect()
    ensures Tables.Symmetric(RULES) && Tables.Protects(RULES, MayUpdate)
    ensures forall a, b :: RULES.mayUpdate(a, b) <==>
              && a.identity == b.identity
              && (a.transfer.Some? ==> b.transfer == a.transfer) && (a.commit.Some? ==> b.commit == a.commit)
    ensures forall a, b :: RULES.conflict(a, b) <==>
              || (a.slot.Some? && a.slot == b.slot)
              || (a.identity.user, a.identity.idempotencyKey) == (b.identity.user, b.identity.idempotencyKey)
  {
  }

  /** Handover authority: a row is never lost, its frozen columns never change, and a consumed
      transfer or a commit decision stays as it was and confines every later phase. */
  lemma AuthorityIsKept(run: seq<Tables.Table<Handover>>, i: nat, j: nat, k: nat)
    requires Tables.IsRun(RULES, run) && i <= j < |run| && k in run[i]
    ensures k in run[j] && run[j][k].identity == run[i][k].identity
    ensures run[i][k].transfer.Some? ==>
              && run[j][k].transfer == run[i][k].transfer
              && run[j][k].phase in {TransferConsumed, Claimed, Stable, Committing, Committed, Restoring, Restored}
    ensures run[i][k].commit.Some? ==>
              && run[j][k].commit == run[i][k].commit
              && run[j][k].phase in {Committing, Committed, Restoring, Restored}
  {
    RulesProtect();
    Tables.RunKeeps(RULES, MayUpdate, run, i, j, k);
    Tables.RunConsistent(RULES, run, j);
    assert RULES.checked(run[j][k]);
    ChecksAreDecided(run[j][k]);
  }

  /** A handover that failed unchanged never had a transfer or a commit, at any time before. */
  lemma FailedUnchangedWasNeverTransferred(run: seq<Tables.Table<Handover>>, i: nat, j: nat, k: nat)
    requires Tables.IsRun(RULES, run) && i <= j < |run| && k in run[i]
    requires k in run[j] && run[j][k].phase == FailedUnchanged
    ensures run[i][k].transfer.None? && run[i][k].commit.None?
    ensures run[i][k].phase !in {TransferConsumed, Claimed, Stable, Committing, Committed}
  {
    AuthorityIsKept(run, i, j, k);
    RulesProtect();
    Tables.RunConsistent(RULES, run, i);
    assert RULES.checked(run[i][k]);
    ChecksAreDecided(run[i][k]);
  }

  /** In every state of every history at most one handover is unfinished. */
  lemma OneActive(run: seq<Tables.Table<Handover>>, i: nat, k: nat, l: nat)
    requires Tables.IsRun(RULES, run) && i < |run| && k in run[i] && l in run[i]
    requires forall m | m in {k, l} :: run[i][m].phase !in {Committed, Restored, FailedUnchanged}
    ensures k == l
  {
    RulesProtect();
    Tables.RunConsistent(RULES, run, i);
    assert RULES.checked(run[i][k]) && RULES.checked(run[i][l]);
    ChecksAreDecided(run[i][k]);
    ChecksAreDecided(run[i][l]);
    assert RULES.conflict(run[i][k], run[i][l]);
  }

  /** A declared phase that the consumed authority of `a` allows. */
  predicate Allowed(a: Handover, phase: Phase) {
    && !phase.Undeclared?
    && (a.transfer.Some? ==>
          phase in {TransferConsumed, Claimed, Stable, Committing, Committed, Restoring, Restored})
    && (a.commit.Some? ==> phase in {Committing, Committed, Restoring, Restored})
  }

  /** The row `a` in another phase, with the payloads that phase needs. */
  function Moved(a: Handover, phase: Phase): Handover {
    Handover(a.identity, if Terminal(phase) then None else Some(1), phase,
             if a.transfer.None? && NeedsTransfer(phase) then Some(JNull) else a.transfer,
             if a.commit.None? && NeedsCommit(phase) then Some(JNull) else a.commit)
  }

  /** As far as the row itself decides, it may take a phase exactly when its consumed authority allows the phase. */
  lemma RowMayTakeIff(a: Handover, phase: Phase)
    requires Checked(a)
    ensures (exists b :: MayUpdate(a, b) && Checked(b) && b.phase == phase) <==> Allowed(a, phase)
    ensures Allowed(a, phase) ==> MayUpdate(a, Moved(a, phase)) && Checked(Moved(a, phase))
  {
    ChecksAreDecided(a);
    forall b | MayUpdate(a, b) && Checked(b) && b.phase == phase
      ensures Allowed(a, phase)
    {
      ChecksAreDecided(b);
    }
    ChecksAreDecided(Moved(a, phase));
  }

  /** No other handover of the table is unfinished. */
  predicate OthersEnded(t: Tables.Table<Handover>, k: nat) {
    forall l | l in t && l != k :: t[l].phase in {Committed, Restored, FailedUnchanged}
  }

  /** Two rows of a consistent table, one of them in a new phase, conflict exactly when both want the slot. */
  lemma MovedConflictsIff(t: Tables.Table<Handover>, k: nat, l: nat, b: Handover)
    requires Tables.Consistent(RULES, t) && k in t && l in t && k != l
    requires b.identity == t[k].identity && Checked(b)
    ensures Conflict(t[l], b) <==> !Terminal(t[l].phase) && !Terminal(b.phase)
  {
    assert RULES.checked(t[l]) && !RULES.conflict(t[l], t[k]);
    ChecksAreDecided(t[l]);
    ChecksAreDecided(b);
  }

  lemma UpdateIsAcceptedIff(t: Tables.Table<Handover>, k: nat, b: Handover)
    requires Tables.Consistent(RULES, t) && k in t
    ensures Tables.Accepts(RULES, t, Tables.Update(k, b)) <==>
            MayUpdate(t[k], b) && Checked(b) && (Terminal(b.phase) || OthersEnded(t, k))
  {
    if MayUpdate(t[k], b) && Checked(b) {
      var others := t - {k};
      assert RULES.key(b) == RULES.key(t[k]) == k;
      forall l | l in others
        ensures others[l] == t[l] && (RULES.conflict(others[l], b) <==> !Terminal(t[l].phase) && !Terminal(b.phase))
      {
        MovedConflictsIff(t, k, l, b);
      }
      assert forall l | l in t && l != k :: l in others;
    }
  }

  /** The phases a row of a reachable table may take next are exactly the declared ones its consumed authority
      allows, and of these only the terminal ones while another handover is unfinished. No terminal phase is final
      by itself. */
  lemma NextPhases(t: Tables.Table<Handover>, k: nat, phase: Phase)
    requires Tables.Consistent(RULES, t) && k in t
    ensures (exists b :: Tables.Accepts(RULES, t, Tables.Update(k, b)) && b.phase == phase) <==>
            Allowed(t[k], phase) && (phase in {Committed, Restored, FailedUnchanged} || OthersEnded(t, k))
  {
    assert RULES.checked(t[k]);
    RowMayTakeIff(t[k], phase);
    forall b: Handover | b.phase == phase
      ensures Tables.Accepts(RULES, t, Tables.Update(k, b)) <==>
              MayUpdate(t[k], b) && Checked(b) && (Terminal(phase) || OthersEnded(t, k))
    {
      UpdateIsAcceptedIff(t, k, b);
    }
    if Allowed(t[k], phase) && (Terminal(phase) || OthersEnded(t, k)) {
      assert Tables.Accepts(RULES, t, Tables.Update(k, Moved(t[k], phase)));
    }
  }

  /** The slot matters: a committed handover may be restored, but not while another handover is unfinished. */
  lemma CommittedMustWait(t: Tables.Table<Handover>, a: Handover, b: Handover)
    requires a.phase == Committed && a.transfer.Some? && a.commit.Some? && b.phase == Accepted
    requires t == map[1 := a, 2 := b] && Tables.Consistent(RULES, t)
    ensures Allowed(a, Restoring)
    ensures forall r: Handover | r.phase == Restoring :: !Tables.Accepts(RULES, t, Tables.Update(1, r))
  {
    assert 2 in t && !Terminal(t[2].phase);
    forall r: Handover | r.phase == Restoring
      ensures !Tables.Accepts(RULES, t, Tables.Update(1, r))
    {
      UpdateIsAcceptedIff(t, 1, r);
    }
  }

  /** Such a table exists. */
  lemma CommittedAndAccepted(a: Identity, b: Identity) returns (t: Tables.Table<Handover>)
    requires a.id == 1 && b.id == 2 && a.generation >= 1 && b.generation >= 1 && a.idempotencyKey != b.idempotencyKey
    ensures t == map[1 := Handover(a, None, Committed, Some(JNull), Some(JNull)),
                     2 := Handover(b, Some(1), Accepted, None, None)]
    ensures Tables.Consistent(RULES, t)
  {
    t := map[1 := Handover(a, None, Committed, Some(JNull), Some(JNull)),
             2 := Handover(b, Some(1), Accepted, None, None)];
    ChecksAreDecided(t[1]);
    ChecksAreDecided(t[2]);
  }
}
