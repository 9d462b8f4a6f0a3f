/** `upgrade_expired_recoveries`: the warm and the cold recovery lane never mix, in any history. */
module UpgradeRecoveries {
  import opened Wrappers
  import opened Sql
  import Tables

  datatype Phase =
    | Accepted | Transferring | TransferConsumed | Recovering | Verifying
    | ColdRecovering | HandbackPrepared | HandingBack | Resolving
    | RecoveryRequired | Recovered | CancelledUnchanged | Superseded
    | Undeclared(name: string)

  /** The columns the trigger freezes. */
  datatype Identity = Identity(
    id: nat, originalJob: nat, user: nat, key: Option<nat>, credentialVersion: Option<int>,
    idempotencyKey: nat, requestSha256: string, intentSha256: string, intent: Json, createdAt: int)

  datatype Recovery = Recovery(
    identity: Identity, slot: Option<int>, phase: Phase,
    transfer: Option<Json>, consumption: Option<Json>, ownerClaim: Option<Json>,
    coldClaim: Option<Json>, coldSmoke: Option<Json>, dataBaseline: Option<Json>, nativeBaseline: Option<Json>,
    coldVerification: Option<Json>, handbackIntent: Option<Json>, handbackReceipt: Option<Json>,
    cancellation: Option<Json>, resolution: Option<Json>)

  predicate Ended(phase: Phase) {
    phase in {Recovered, CancelledUnchanged, Superseded}
  }

  predicate AtOrAfterTransferring(phase: Phase) {
    phase in {Transferring, TransferConsumed, Recovering, Verifying, Recovered}
  }

  predicate AtOrAfterConsumption(phase: Phase) {
    phase in {TransferConsumed, Recovering, Verifying, Recovered}
  }

  predicate AtOrAfterOwner(phase: Phase) {
    phase in {Recovering, Verifying, Recovered}
  }

  predicate HandsBack(phase: Phase) {
    phase in {HandbackPrepared, HandingBack, Resolving}
  }

  predicate KeepsCancellation(phase: Phase) {
    phase in {RecoveryRequired, Recovered, Superseded, CancelledUnchanged}
  }

  // ----- The CHECKs, in SQL's logic -----

  function ColdMode(r: Recovery): Tri {
    CoalesceFalse(FieldTextIs(Field(Some(r.identity.intent), "request"), "recovery_mode", "cold"))
  }

  function NoWarmAuthority(r: Recovery): Tri {
    And(And(Null(r.transfer), Null(r.consumption)), Null(r.ownerClaim))
  }

  function NoColdAuthority(r: Recovery): Tri {
    And(And(And(Null(r.coldClaim), Null(r.coldSmoke)), And(Null(r.coldVerification), Null(r.handbackIntent))),
        Null(r.handbackReceipt))
  }

  function UnstartedSupersession(r: Recovery): Tri {
    CoalesceFalse(
      And(And(FieldTextIs(r.resolution, "protocol", "cold-unstarted-supersession-v1"),
              JsonEquals(Field(Field(r.resolution, "unstarted_startup"), "intent"), r.identity.intent)),
          And(NoWarmAuthority(r), NoColdAuthority(r))))
  }

  function RecoveredCold(r: Recovery): Tri {
    And(Truth(r.phase == Recovered), NotNull(r.coldClaim))
  }

  predicate Decided(checks: seq<Tri>) {
    forall i | 0 <= i < |checks| :: checks[i] != Unknown
  }

  function IdentityChecks(r: Recovery): (checks: seq<Tri>)
    ensures Decided(checks)
  {
    [Truth(r.identity.id != r.identity.originalJob),
     Or(Null(r.slot), Equals(r.slot, 1)),
     Truth(!r.phase.Undeclared?),
     Same(Null(r.slot), Truth(Ended(r.phase)))]
  }

  function WarmChecks(r: Recovery): (checks: seq<Tri>)
    ensures Decided(checks)
  {
    [Or(Or(Not(Truth(AtOrAfterTransferring(r.phase))), NotNull(r.transfer)), RecoveredCold(r)),
     Or(Or(Not(Truth(AtOrAfterConsumption(r.phase))), NotNull(r.consumption)), RecoveredCold(r)),
     Or(Or(Not(Truth(AtOrAfterOwner(r.phase))), NotNull(r.ownerClaim)), RecoveredCold(r)),
     Or(Null(r.ownerClaim), NotNull(r.consumption))]
  }

  function ColdChecks(r: Recovery): (checks: seq<Tri>)
    ensures Decided(checks)
  {
    [Or(Not(Truth(r.phase == ColdRecovering)), NotNull(r.coldClaim)),
     Or(Null(r.coldSmoke), NotNull(r.coldClaim)),
     Or(Null(r.coldVerification), And(And(NotNull(r.coldSmoke), NotNull(r.dataBaseline)), NotNull(r.nativeBaseline))),
     Or(Not(Truth(HandsBack(r.phase))), NotNull(r.coldVerification)),
     Or(Not(Truth(r.phase in {HandingBack, Resolving})), NotNull(r.handbackIntent)),
     Or(Null(r.handbackReceipt), NotNull(r.handbackIntent)),
     Or(Null(r.coldClaim), And(NoWarmAuthority(r), ColdMode(r)))]
  }

  function EndChecks(r: Recovery): (checks: seq<Tri>)
    ensures Decided(checks)
  {
    [Or(Not(Truth(r.phase == Superseded)),
        And(And(NotNull(r.cancellation), NotNull(r.resolution)), Or(NotNull(r.coldClaim), UnstartedSupersession(r)))),
     Or(Null(r.cancellation), Truth(KeepsCancellation(r.phase))),
     Or(Not(Truth(r.phase == CancelledUnchanged)),
        And(And(NoWarmAuthority(r), NoColdAuthority(r)), Null(r.resolution))),
     Or(Not(Truth(r.phase == Recovered)), NotNull(r.resolution))]
  }

  /** No CHECK of the table is ever unknown. */
  function Checks(r: Recovery): (checks: seq<Tri>)
    ensures Decided(checks)
  {
    IdentityChecks(r) + WarmChecks(r) + ColdChecks(r) + EndChecks(r)
  }

  predicate AllPass(checks: seq<Tri>) {
    forall i | 0 <= i < |checks| :: Passes(checks[i])
  }

  predicate Checked(r: Recovery) {
    AllPass(Checks(r))
  }

  lemma CheckedInGroups(r: Recovery)
    ensures Checked(r) <==>
            AllPass(IdentityChecks(r)) && AllPass(WarmChecks(r)) && AllPass(ColdChecks(r)) && AllPass(EndChecks(r))
  {
    var a, b, c, d := IdentityChecks(r), WarmChecks(r), ColdChecks(r), EndChecks(r);
    AllPassAppend(a, b);
    AllPassAppend(a + b, c);
    AllPassAppend(a + b + c, d);
  }

  lemma AllPassAppend(a: seq<Tri>, b: seq<Tri>)
    ensures AllPass(a + b) <==> AllPass(a) && AllPass(b)
  {
    if AllPass(a + b) {
      assert forall i | 0 <= i < |a| :: a[i] == (a + b)[i];
      assert forall i | 0 <= i < |b| :: b[i] == (a + b)[|a| + i];
    }
  }

  // ----- What an accepted row says about its lane -----

  predicate HasWarmAuthority(r: Recovery) {
    r.transfer.Some? || r.consumption.Some? || r.ownerClaim.Some?
  }

  predicate HasColdAuthority(r: Recovery) {
    || r.coldClaim.Some? || r.coldSmoke.Some? || r.coldVerification.Some?
    || r.handbackIntent.Some? || r.handbackReceipt.Some?
  }

  predicate IdentityLaw(r: Recovery) {
    && r.identity.id != r.identity.originalJob && !r.phase.Undeclared?
    && r.slot == if r.phase in {Recovered, CancelledUnchanged, Superseded} then None else Some(1)
  }

  predicate WarmLaw(r: Recovery) {
    && (r.phase in {Transferring, TransferConsumed, Recovering, Verifying} ==> r.transfer.Some?)
    && (r.phase in {TransferConsumed, Recovering, Verifying} ==> r.consumption.Some?)
    && (r.phase in {Recovering, Verifying} ==> r.ownerClaim.Some?)
    && (r.phase == Recovered && r.coldClaim.None? ==>
          r.transfer.Some? && r.consumption.Some? && r.ownerClaim.Some?)
    && (r.ownerClaim.Some? ==> r.consumption.Some?)
  }

  /** The intent asks for cold recovery. */
  predicate AsksForCold(r: Recovery) {
    Field(Field(Some(r.identity.intent), "request"), "recovery_mode") == Some(JString("cold"))
  }

  predicate ColdLaw(r: Recovery) {
    && (r.phase == ColdRecovering || r.coldSmoke.Some? ==> r.coldClaim.Some?)
    && (r.coldVerification.Some? ==> r.coldSmoke.Some? && r.dataBaseline.Some? && r.nativeBaseline.Some?)
    && (r.phase in {HandbackPrepared, HandingBack, Resolving} ==> r.coldVerification.Some?)
    && (r.phase in {HandingBack, Resolving} || r.handbackReceipt.Some? ==> r.handbackIntent.Some?)
    && (r.coldClaim.Some? ==> !HasWarmAuthority(r) && AsksForCold(r))
  }

  /** The resolution says that the recovery of this very intent never started. */
  predicate NeverStarted(r: Recovery) {
    && Field(r.resolution, "protocol") == Some(JString("cold-unstarted-supersession-v1"))
    && Field(Field(r.resolution, "unstarted_startup"), "intent") == Some(r.identity.intent)
    && !HasWarmAuthority(r) && !HasColdAuthority(r)
  }

  predicate EndLaw(r: Recovery) {
    && (r.phase == Superseded ==>
          r.cancellation.Some? && r.resolution.Some? && (r.coldClaim.Some? || NeverStarted(r)))
    && (r.cancellation.Some? ==> r.phase in {RecoveryRequired, Recovered, Superseded, CancelledUnchanged})
    && (r.phase == CancelledUnchanged ==> !HasWarmAuthority(r) && !HasColdAuthority(r) && r.resolution.None?)
    && (r.phase == Recovered ==> r.resolution.Some?)
  }

  lemma IdentityIff(r: Recovery)
    ensures AllPass(IdentityChecks(r)) <==> IdentityLaw(r)
  {
    var c := IdentityChecks(r);
    if AllPass(c) {
      assert Passes(c[0]) && Passes(c[1]) && Passes(c[2]) && Passes(c[3]);
    }
  }

  lemma WarmIff(r: Recovery)
    ensures AllPass(WarmChecks(r)) <==> WarmLaw(r)
  {
    var c := WarmChecks(r);
    if AllPass(c) {
      assert Passes(c[0]) && Passes(c[1]) && Passes(c[2]) && Passes(c[3]);
    }
  }

  lemma ColdIff(r: Recovery)
    ensures AllPass(ColdChecks(r)) <==> ColdLaw(r)
  {
    var c := ColdChecks(r);
    if AllPass(c) {
      assert Passes(c[0]) && Passes(c[1]) && Passes(c[2]) && Passes(c[3]);
      assert Passes(c[4]) && Passes(c[5]) && Passes(c[6]);
    }
  }

  lemma EndIff(r: Recovery)
    ensures AllPass(EndChecks(r)) <==> EndLaw(r)
  {
    var c := EndChecks(r);
    if AllPass(c) {
      assert Passes(c[0]) && Passes(c[1]) && Passes(c[2]) && Passes(c[3]);
    }
  }

  /** In two-valued terms: the row passes every CHECK exactly when these laws hold of it. */
  lemma CheckedMeans(r: Recovery)
    ensures Checked(r) <==> IdentityLaw(r) && WarmLaw(r) && ColdLaw(r) && EndLaw(r)
  {
    CheckedInGroups(r);
    IdentityIff(r);
    WarmIff(r);
    ColdIff(r);
    EndIff(r);
  }

  /** An accepted row is in one lane: a cold claim excludes all warm authority and needs the cold
      mode; a recovered row is wholly in one of the two lanes; every phase that acts for a lane
      carries that lane's authority. */
  lemma LanesAreExclusive(r: Recovery)
    requires Checked(r)
    ensures r.phase == Recovered ==>
              if r.coldClaim.Some? then !HasWarmAuthority(r) && AsksForCold(r)
              else r.transfer.Some? && r.consumption.Some? && r.ownerClaim.Some?
    ensures r.phase in {Recovering, Verifying} ==>
              r.transfer.Some? && r.consumption.Some? && r.ownerClaim.Some? && r.coldClaim.None?
    ensures r.phase in {HandbackPrepared, HandingBack, Resolving} ==>
              r.coldClaim.Some? && r.coldVerification.Some? && AsksForCold(r) && !HasWarmAuthority(r)
    ensures r.phase == CancelledUnchanged ==> !HasWarmAuthority(r) && !HasColdAuthority(r)
  {
    CheckedMeans(r);
  }

  // ----- Histories -----

  predicate MayUpdate(a: Recovery, b: Recovery) {
    && a.identity == b.identity
    && Tables.WriteOnce(a.transfer, b.transfer) && Tables.WriteOnce(a.consumption, b.consumption)
    && Tables.WriteOnce(a.ownerClaim, b.ownerClaim) && Tables.WriteOnce(a.coldClaim, b.coldClaim)
    && Tables.WriteOnce(a.coldSmoke, b.coldSmoke) && Tables.WriteOnce(a.dataBaseline, b.dataBaseline)
    && Tables.WriteOnce(a.nativeBaseline, b.nativeBaseline) && Tables.WriteOnce(a.coldVerification, b.coldVerification)
    && Tables.WriteOnce(a.handbackIntent, b.handbackIntent) && Tables.WriteOnce(a.handbackReceipt, b.handbackReceipt)
    && Tables.WriteOnce(a.resolution, b.resolution) && Tables.WriteOnce(a.cancellation, b.cancellation)
  }

  predicate Conflict(a: Recovery, b: Recovery) {
    || Tables.SameSlot(a.slot, b.slot)
    || (a.identity.user == b.identity.user && a.identity.idempotencyKey == b.identity.idempotencyKey)
  }

  const RULES: Tables.Rules<Recovery> := Tables.Rules.Rules(
    (r: Recovery) => r.identity.id, Checked, Conflict, MayUpdate, (r: Recovery) => false)

  /** A payload that is set stays as it is. */
  predicate Stays(a: Option<Json>, b: Option<Json>) {
    a.Some? ==> b == a
  }

  /** The trigger refuses deletion, any change of a frozen column and any change of one of the twelve payloads that is
      set, and nothing else; two rows conflict on the slot or on the request. */
  lemma RulesProtect()
    ensures Tables.Symmetric(RULES) && Tables.Protects(RULES, MayUpdate)
    ensures forall a, b :: RULES.mayUpdate(a, b) <==>
              && a.identity == b.identity && Stays(a.transfer, b.transfer) && Stays(a.consumption, b.consumption)
              && Stays(a.ownerClaim, b.ownerClaim) && Stays(a.coldClaim, b.coldClaim) && Stays(a.coldSmoke, b.coldSmoke)
              && Stays(a.dataBaseline, b.dataBaseline) && Stays(a.nativeBaseline, b.nativeBaseline)
              && Stays(a.coldVerification, b.coldVerification) && Stays(a.handbackIntent, b.handbackIntent)
              && Stays(a.handbackReceipt, b.handbackReceipt) && Stays(a.cancellation, b.cancellation)
              && Stays(a.resolution, b.resolution)
    ensures forall a, b :: RULES.conflict(a, b) <==>
              || (a.slot.Some? && a.slot == b.slot)
              || (a.identity.user, a.identity.idempotencyKey) == (b.identity.user, b.identity.idempotencyKey)
  {
  }

  lemma KeptInRun(run: seq<Tables.Table<Recovery>>, i: nat, j: nat, k: nat)
    requires Tables.IsRun(RULES, run) && i <= j < |run| && k in run[i]
    ensures k in run[j] && MayUpdate(run[i][k], run[j][k])
    ensures Checked(run[i][k]) && Checked(run[j][k])
  {
    RulesProtect();
    Tables.RunKeeps(RULES, MayUpdate, run, i, j, k);
    Tables.RunConsistent(RULES, run, i);
    Tables.RunConsistent(RULES, run, j);
    assert RULES.checked(run[i][k]) && RULES.checked(run[j][k]);
  }

  /** The lane a recovery takes is permanent, over all histories. */
  lemma LaneIsPermanent(run: seq<Tables.Table<Recovery>>, i: nat, j: nat, k: nat)
    requires Tables.IsRun(RULES, run) && i <= j < |run| && k in run[i]
    ensures k in run[j] && run[j][k].identity == run[i][k].identity
    ensures run[i][k].coldClaim.Some? ==>
              && run[j][k].coldClaim == run[i][k].coldClaim && !HasWarmAuthority(run[j][k])
              && run[j][k].phase !in {Transferring, TransferConsumed, Recovering, Verifying, CancelledUnchanged}
    ensures HasWarmAuthority(run[i][k]) ==>
              && HasWarmAuthority(run[j][k]) && run[j][k].coldClaim.None?
              && run[j][k].coldSmoke.None? && run[j][k].coldVerification.None?
              && run[j][k].phase !in {ColdRecovering, HandbackPrepared, HandingBack, Resolving}
              && run[j][k].phase !in {CancelledUnchanged, Superseded}
  {
    KeptInRun(run, i, j, k);
    CheckedMeans(run[j][k]);
  }

  /** A recovery that ended unchanged never held authority for any effect, at any time before. */
  lemma CancelledUnchangedHadNoEffect(run: seq<Tables.Table<Recovery>>, i: nat, j: nat, k: nat)
    requires Tables.IsRun(RULES, run) && i <= j < |run| && k in run[i]
    requires k in run[j] && run[j][k].phase == CancelledUnchanged
    ensures !HasWarmAuthority(run[i][k]) && !HasColdAuthority(run[i][k]) && run[i][k].resolution.None?
    ensures run[i][k].phase in {Accepted, RecoveryRequired, CancelledUnchanged}
  {
    KeptInRun(run, i, j, k);
    CheckedMeans(run[i][k]);
    CheckedMeans(run[j][k]);
  }

  /** A cancellation, once recorded, stays and confines every later phase. */
  lemma CancellationIsKept(run: seq<Tables.Table<Recovery>>, i: nat, j: nat, k: nat)
    requires Tables.IsRun(RULES, run) && i <= j < |run| && k in run[i] && run[i][k].cancellation.Some?
    ensures k in run[j] && run[j][k].cancellation == run[i][k].cancellation
    ensures run[j][k].phase in {RecoveryRequired, Recovered, Superseded, CancelledUnchanged}
    ensures run[j][k].slot.Some? ==> run[j][k].phase == RecoveryRequired
  {
    KeptInRun(run, i, j, k);
    CheckedMeans(run[j][k]);
  }

  /** In every state of every history at most one recovery is unfinished. */
  lemma OneActive(run: seq<Tables.Table<Recovery>>, i: nat, k: nat, l: nat)
    requires Tables.IsRun(RULES, run) && i < |run| && k in run[i] && l in run[i]
    requires forall m | m in {k, l} :: run[i][m].phase !in {Recovered, CancelledUnchanged, Superseded}
    ensures k == l
  {
    RulesProtect();
    Tables.RunConsistent(RULES, run, i);
    HoldsSlot(run[i][k]);
    HoldsSlot(run[i][l]);
    assert RULES.conflict(run[i][k], run[i][l]);
  }

  lemma HoldsSlot(r: Recovery)
    requires RULES.checked(r) && r.phase !in {Recovered, CancelledUnchanged, Superseded}
    ensures r.slot == Some(1)
  {
    assert Checked(r);
    CheckedMeans(r);
  }
}
