/** Harness verification flags of `evaluations.py`, against the append-only evaluation log. */
module Verification {
  import opened Wrappers

  datatype Verdict = Passed | Failed | InfrastructureError

  datatype Row = Row(id: nat, variant: nat, adapter: Option<nat>, verdict: Verdict, runAt: int)

  datatype Variant = Variant(harnessVerified: bool, harnessVerifiedAt: Option<int>)

  datatype AdapterState = Unfinished | Ready | Retired

  datatype Adapter = Adapter(baseVariant: nat, state: AdapterState, verified: bool, evaluation: Option<nat>)

  /** `exact` stands for the model and digest checks of `validate_target`. */
  datatype Target = Target(variant: nat, adapter: Option<nat>, exact: bool)

  predicate Conclusive(v: Verdict) {
    v == Passed || v == Failed
  }

  /** A conclusive row about the variant itself, or about the adapter. */
  predicate About(r: Row, variant: nat, adapter: Option<nat>) {
    Conclusive(r.verdict) && r.adapter == adapter && (adapter.None? ==> r.variant == variant)
  }

  /** The last row appended about a subject. */
  function Latest(log: seq<Row>, variant: nat, adapter: Option<nat>): (r: Option<Row>)
    ensures r.Some? ==> r.value in log && About(r.value, variant, adapter)
  {
    if log == [] then None
    else if About(log[|log| - 1], variant, adapter) then Some(log[|log| - 1])
    else Latest(log[..|log| - 1], variant, adapter)
  }

  /** The last row about a subject: one with a verdict, behind which there is no other. */
  lemma {:induction false} LatestIff(log: seq<Row>, variant: nat, adapter: Option<nat>, i: nat)
    requires i < |log|
    requires log[i].verdict in {Passed, Failed} && log[i].adapter == adapter
    requires adapter.None? ==> log[i].variant == variant
    requires forall j | i < j < |log| ::
               log[j].verdict == InfrastructureError || log[j].adapter != adapter
               || (adapter.None? && log[j].variant != variant)
    ensures Latest(log, variant, adapter) == Some(log[i])
  {
    if i < |log| - 1 {
      LatestIff(log[..|log| - 1], variant, adapter, i);
    }
  }

  predicate Later(a: Row, b: Row) {
    a.runAt > b.runAt || (a.runAt == b.runAt && a.id > b.id)
  }

  /** The row the query of `variant_is_write_verified` selects: newest run time, then greatest id. */
  function Selected(log: seq<Row>, variant: nat): Option<Row> {
    if log == [] then None else
    var rest := Selected(log[..|log| - 1], variant);
    var last := log[|log| - 1];
    if About(last, variant, None) && (rest.None? || Later(last, rest.value)) then Some(last) else rest
  }

  /** `id` is the table's primary key. */
  predicate DistinctIds(log: seq<Row>) {
    forall i, j | 0 <= i < j < |log| :: log[i].id != log[j].id
  }

  /** The selected row is the newest of all the conclusive rows about the variant; with none there is no selection. */
  lemma {:induction false} SelectedIsNewest(log: seq<Row>, variant: nat, i: nat)
    requires DistinctIds(log) && i < |log|
    requires log[i].verdict in {Passed, Failed} && log[i].adapter.None? && log[i].variant == variant
    ensures Selected(log, variant).Some?
    ensures var r := Selected(log, variant).value;
            r == log[i] || r.runAt > log[i].runAt || (r.runAt == log[i].runAt && r.id > log[i].id)
  {
    if i < |log| - 1 {
      SelectedIsNewest(log[..|log| - 1], variant, i);
    } else if Selected(log[..i], variant).Some? {
      SelectedIsInLog(log[..i], variant);
      var k :| 0 <= k < i && log[..i][k] == Selected(log[..i], variant).value;
      assert log[k].id != log[i].id;
    }
  }

  lemma {:induction false} SelectedIsInLog(log: seq<Row>, variant: nat)
    ensures var r := Selected(log, variant);
            r.Some? ==>
              && r.value in log && r.value.verdict in {Passed, Failed} && r.value.adapter.None?
              && r.value.variant == variant
  {
    if log != [] {
      SelectedIsInLog(log[..|log| - 1], variant);
    }
  }

  /** Each conclusive row about the variant is newer than those recorded before it. */
  predicate ClockAdvances(log: seq<Row>, variant: nat) {
    forall i, j | 0 <= i < j < |log| && About(log[i], variant, None) && About(log[j], variant, None) ::
      Later(log[j], log[i])
  }

  lemma {:induction false} SelectedIsLatest(log: seq<Row>, variant: nat)
    requires ClockAdvances(log, variant)
    ensures Selected(log, variant) == Latest(log, variant, None)
  {
    if log != [] {
      var before := log[..|log| - 1];
      SelectedIsLatest(before, variant);
      var rest := Selected(before, variant);
      if rest.Some? {
        var i :| 0 <= i < |before| && before[i] == rest.value;
        assert log[i] == rest.value;
      }
    }
  }

  ghost predicate AlwaysLatest(log: seq<Row>, variant: nat) {
    forall n | 0 <= n <= |log| :: Selected(log[..n], variant) == Latest(log[..n], variant, None)
  }

  /** At every moment of a log the query selects the row that last wrote the flag, exactly when the clock advances
      from each conclusive row about the variant to the next. */
  lemma {:induction false} SelectedIsLatestIff(log: seq<Row>, variant: nat)
    requires DistinctIds(log)
    ensures AlwaysLatest(log, variant) <==> ClockAdvances(log, variant)
  {
    if ClockAdvances(log, variant) {
      forall n | 0 <= n <= |log|
        ensures Selected(log[..n], variant) == Latest(log[..n], variant, None)
      {
        SelectedIsLatest(log[..n], variant);
      }
    }
    if AlwaysLatest(log, variant) {
      LatestNeedsClock(log, variant);
    }
  }

  lemma {:induction false} LatestNeedsClock(log: seq<Row>, variant: nat)
    requires DistinctIds(log) && AlwaysLatest(log, variant)
    ensures ClockAdvances(log, variant)
  {
    if log != [] {
      var before := log[..|log| - 1];
      forall n | 0 <= n <= |before|
        ensures Selected(before[..n], variant) == Latest(before[..n], variant, None)
      {
        assert before[..n] == log[..n];
      }
      LatestNeedsClock(before, variant);
      forall i | 0 <= i < |before| && About(log[i], variant, None) && About(log[|before|], variant, None)
        ensures Later(log[|before|], log[i])
      {
        NewestNeedsClock(log, variant, i);
      }
    }
  }

  lemma NewestNeedsClock(log: seq<Row>, variant: nat, i: nat)
    requires DistinctIds(log) && AlwaysLatest(log, variant) && i < |log| - 1
    requires About(log[i], variant, None) && About(log[|log| - 1], variant, None)
    ensures Later(log[|log| - 1], log[i])
  {
    assert log[..|log|] == log;
    assert Selected(log, variant) == Some(log[|log| - 1]);
    SelectedIsNewest(log, variant, i);
  }

  /** Without it they may differ: a pass recorded with an earlier time than a failure sets the flag,
      while the query still selects the failure. */
  lemma ClockMustAdvance()
    ensures var log := [Row(1, 7, None, Failed, 20), Row(2, 7, None, Passed, 10)];
            Latest(log, 7, None) == Some(log[1]) && Selected(log, 7) == Some(log[0])
  {
    var log := [Row(1, 7, None, Failed, 20), Row(2, 7, None, Passed, 10)];
    assert log[..1] == [log[0]] && log[..1][..0] == [];
    assert Selected([], 7) == None && Selected(log[..1], 7) == Some(log[0]);
  }

  // ----- The stored flags -----

  predicate PassedRow(r: Option<Row>) {
    r.Some? && r.value.verdict == Passed
  }

  predicate VariantAgrees(log: seq<Row>, k: nat, v: Variant) {
    && v.harnessVerified == PassedRow(Latest(log, k, None))
    && v.harnessVerifiedAt == if v.harnessVerified then Some(Latest(log, k, None).value.runAt) else None
  }

  /** Retiring clears the flag and leaves the evaluation; an unfinished adapter has not been evaluated. */
  predicate AdapterAgrees(log: seq<Row>, k: nat, a: Adapter) {
    var latest := Latest(log, a.baseVariant, Some(k));
    && a.verified == (a.state != Retired && PassedRow(latest))
    && a.evaluation == (if latest.Some? then Some(latest.value.id) else None)
    && (a.state == Unfinished ==> latest.None?)
  }

  /** A verified adapter passed last; an adapter that passed last is verified exactly when it is not retired. */
  lemma VerifiedMeans(log: seq<Row>, k: nat, a: Adapter)
    requires AdapterAgrees(log, k, a)
    ensures var passed := PassedRow(Latest(log, a.baseVariant, Some(k)));
            && (a.verified ==> passed)
            && (passed ==> (a.verified <==> a.state != Retired))
            && (a.verified == passed <==> !(passed && a.state == Retired))
  {
  }

  /** A retired adapter that passed last. */
  lemma RetiredPassed(log: seq<Row>, a: Adapter)
    requires log == [Row(1, 7, Some(3), Passed, 10)] && a == Adapter(7, Retired, false, Some(1))
    ensures AdapterAgrees(log, 3, a) && PassedRow(Latest(log, 7, Some(3))) && !a.verified
  {
  }

  lemma LatestAppend(log: seq<Row>, r: Row, variant: nat, adapter: Option<nat>)
    ensures Latest(log + [r], variant, adapter) ==
            if About(r, variant, adapter) then Some(r) else Latest(log, variant, adapter)
  {
    assert (log + [r])[..|log|] == log;
  }

  /** Every flag is the fold of the log that its readers expect. */
  predicate Agree(log: seq<Row>, variants: map<nat, Variant>, adapters: map<nat, Adapter>) {
    && (forall k | k in variants :: VariantAgrees(log, k, variants[k]))
    && (forall k | k in adapters :: AdapterAgrees(log, k, adapters[k]))
  }

  /** What one row does to the variants: only a conclusive row about the variant itself counts. */
  function VariantsAfter(variants: map<nat, Variant>, r: Row): map<nat, Variant> {
    if Conclusive(r.verdict) && r.adapter.None?
    then variants[r.variant := Variant(r.verdict == Passed, if r.verdict == Passed then Some(r.runAt) else None)]
    else variants
  }

  function AdaptersAfter(adapters: map<nat, Adapter>, r: Row): map<nat, Adapter> {
    if Conclusive(r.verdict) && r.adapter.Some? && r.adapter.value in adapters
    then
      var k := r.adapter.value;
      adapters[k := adapters[k].(verified := r.verdict == Passed, evaluation := Some(r.id))]
    else adapters
  }

  /** What a row does, spelled out: an infrastructure error changes nothing, a verdict about a variant sets or clears
      its flag and time, and one about an adapter sets or clears its flag and names the evaluation. */
  lemma RowMeans(variants: map<nat, Variant>, adapters: map<nat, Adapter>, r: Row)
    ensures r.verdict == InfrastructureError ==>
              VariantsAfter(variants, r) == variants && AdaptersAfter(adapters, r) == adapters
    ensures r.verdict != InfrastructureError && r.adapter.None? ==>
              && AdaptersAfter(adapters, r) == adapters
              && VariantsAfter(variants, r) ==
                 variants[r.variant :=
                   if r.verdict == Passed then Variant(true, Some(r.runAt)) else Variant(false, None)]
    ensures r.verdict != InfrastructureError && r.adapter.Some? && r.adapter.value in adapters ==>
              && VariantsAfter(variants, r) == variants
              && var k, a := r.adapter.value, adapters[r.adapter.value];
              AdaptersAfter(adapters, r) ==
              adapters[k := Adapter(a.baseVariant, a.state, r.verdict == Passed, Some(r.id))]
  {
  }

  lemma RowKeepsVariants(log: seq<Row>, variants: map<nat, Variant>, r: Row, k: nat)
    requires (k in variants ==> VariantAgrees(log, k, variants[k])) && k in VariantsAfter(variants, r)
    ensures VariantAgrees(log + [r], k, VariantsAfter(variants, r)[k])
  {
    LatestAppend(log, r, k, None);
  }

  /** `validate_target` lets a row about an adapter through only while the adapter is ready. */
  predicate OnReady(adapters: map<nat, Adapter>, r: Row) {
    r.adapter.Some? && r.adapter.value in adapters ==> adapters[r.adapter.value].state == Ready
  }

  lemma RowKeepsAdapters(log: seq<Row>, adapters: map<nat, Adapter>, r: Row, k: nat)
    requires k in adapters && AdapterAgrees(log, k, adapters[k]) && OnReady(adapters, r)
    ensures k in AdaptersAfter(adapters, r) && AdapterAgrees(log + [r], k, AdaptersAfter(adapters, r)[k])
  {
    LatestAppend(log, r, adapters[k].baseVariant, Some(k));
  }

  /** Appending a row and updating the flags as the code does keeps all flags and the log in agreement. */
  lemma RowKeepsAgreement(log: seq<Row>, variants: map<nat, Variant>, adapters: map<nat, Adapter>, r: Row)
    requires Agree(log, variants, adapters) && OnReady(adapters, r)
    ensures Agree(log + [r], VariantsAfter(variants, r), AdaptersAfter(adapters, r))
  {
    forall k | k in VariantsAfter(variants, r) {
      RowKeepsVariants(log, variants, r, k);
    }
    forall k | k in AdaptersAfter(adapters, r)
      ensures AdapterAgrees(log + [r], k, AdaptersAfter(adapters, r)[k])
    {
      RowKeepsAdapters(log, adapters, r, k);
    }
  }

  class Registry {
    var log: seq<Row>
    var variants: map<nat, Variant>
    var adapters: map<nat, Adapter>

    ghost predicate Valid()
      reads this
    {
      Agree(log, variants, adapters)
    }

    constructor (variants: set<nat>, bases: map<nat, nat>)
      ensures Valid() && log == []
      ensures this.variants == (map k | k in variants :: Variant(false, None))
      ensures adapters == (map k | k in bases :: Adapter(bases[k], Unfinished, false, None))
    {
      log := [];
      this.variants := map k | k in variants :: Variant(false, None);
      adapters := map k | k in bases :: Adapter(bases[k], Unfinished, false, None);
    }

    /** The checks `_record` makes before it writes anything. */
    predicate Accepts(variant: nat, target: Option<Target>)
      reads this
    {
      variant in variants &&
      (target.None? ||
       (&& target.value.exact && target.value.variant == variant
        && (target.value.adapter.None? ||
            (&& target.value.adapter.value in adapters
             && adapters[target.value.adapter.value].baseVariant == variant
             && adapters[target.value.adapter.value].state == Ready))))
    }

    /** `finalize_serving_adapter`: an adapter becomes ready once, and is not verified yet. `proved` stands for the
        checks of its artifact, its two copies and its reserved generation. */
    method Finish(adapter: nat, proved: bool) returns (ok: bool)
      requires Valid()
      modifies this`adapters
      ensures Valid()
      ensures ok == (adapter in old(adapters) && old(adapters)[adapter].state == Unfinished && proved)
      ensures ok ==> adapters == old(adapters)[adapter := old(adapters)[adapter].(state := Ready, verified := false)]
      ensures !ok ==> adapters == old(adapters)
    {
      ok := adapter in adapters && adapters[adapter].state == Unfinished && proved;
      if ok {
        adapters := adapters[adapter := adapters[adapter].(state := Ready, verified := false)];
      }
    }

    /** Retirement: the flag is cleared, the evaluation stays. `allowed` stands for the expected version and for no
        training job or measurement that pins the adapter. */
    method Retire(adapter: nat, allowed: bool) returns (ok: bool)
      requires Valid()
      modifies this`adapters
      ensures Valid()
      ensures ok == (adapter in old(adapters) && allowed)
      ensures ok ==> adapters == old(adapters)[adapter := old(adapters)[adapter].(state := Retired, verified := false)]
      ensures !ok ==> adapters == old(adapters)
    {
      ok := adapter in adapters && allowed;
      if ok {
        adapters := adapters[adapter := adapters[adapter].(state := Retired, verified := false)];
      }
    }

    /** `_record`: refuses an unknown variant or an inexact target, otherwise appends the row and, when the
        verdict is conclusive, updates the flag of its subject. */
    method Record(variant: nat, target: Option<Target>, verdict: Verdict, id: nat, now: int) returns (ok: bool)
      requires Valid()
      modifies this
      ensures Valid()
      ensures ok == (&& variant in old(variants)
                     && (target.Some? ==>
                           && target.value.exact && target.value.variant == variant
                           && (target.value.adapter.Some? ==>
                                 && target.value.adapter.value in old(adapters)
                                 && old(adapters)[target.value.adapter.value].baseVariant == variant
                                 && old(adapters)[target.value.adapter.value].state == Ready)))
      ensures !ok ==> log == old(log) && variants == old(variants) && adapters == old(adapters)
      ensures ok ==> var row := Row(id, variant, if target.Some? then target.value.adapter else None, verdict, now);
                     && log == old(log) + [row]
                     && variants == VariantsAfter(old(variants), row)
                     && adapters == AdaptersAfter(old(adapters), row)
    {
      if !Accepts(variant, target) {
        return false;
      }
      var adapter := if target.Some? then target.value.adapter else None;
      var row := Row(id, variant, adapter, verdict, now);
      RowKeepsAgreement(log, variants, adapters, row);
      log := log + [row];
      if Conclusive(verdict) {
        var passed := verdict == Passed;
        if adapter.Some? {
          adapters := adapters[adapter.value := adapters[adapter.value].(verified := passed, evaluation := Some(id))];
        } else {
          variants := variants[variant := Variant(passed, if passed then Some(now) else None)];
        }
      }
      return true;
    }

    /** The flag half of `variant_is_write_verified`, and the row it goes on to check. */
    method VariantFlag(variant: nat) returns (flag: bool, evaluation: Option<Row>)
      requires Valid()
      ensures flag <==> variant in variants && PassedRow(Latest(log, variant, None))
      ensures evaluation == Selected(log, variant)
      ensures ClockAdvances(log, variant) ==> evaluation == Latest(log, variant, None)
    {
      flag := variant in variants && variants[variant].harnessVerified;
      evaluation := Selected(log, variant);
      if ClockAdvances(log, variant) {
        SelectedIsLatest(log, variant);
      }
    }

    /** `target_is_write_verified` for a target with an adapter, but for the harness runtime: the evaluation it loads is
        a passed evaluation of that same adapter. */
    method AdapterFlag(target: Target) returns (flag: bool, evaluation: Option<nat>)
      requires Valid() && target.adapter.Some?
      ensures flag <==>
              Accepts(target.variant, Some(target)) && PassedRow(Latest(log, target.variant, target.adapter))
      ensures flag ==>
                && evaluation.Some?
                && exists r | r in log :: r.id == evaluation.value && r.adapter == target.adapter && r.verdict == Passed
    {
      if !Accepts(target.variant, Some(target)) {
        return false, None;
      }
      var adapter := adapters[target.adapter.value];
      evaluation := adapter.evaluation;
      flag := adapter.verified && evaluation.Some?;
    }
  }

  /** The registry comes to such an adapter: one that passes and is then retired. */
  method RetiredAfterPass() returns (r: Registry)
    ensures fresh(r) && r.Valid()
    ensures r.log == [Row(1, 7, Some(3), Passed, 10)] && r.adapters == map[3 := Adapter(7, Retired, false, Some(1))]
  {
    r := new Registry({7}, map[3 := 7]);
    var finished := r.Finish(3, true);
    var recorded := r.Record(7, Some(Target(7, Some(3), true)), Passed, 1, 10);
    var retired := r.Retire(3, true);
  }
}
