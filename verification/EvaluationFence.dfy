/** `evaluation_results`: a result is written once per run, under the run's own fence and outcome. */
module EvaluationFence {
  import opened Wrappers
  import opened Sql

  datatype State =
    | Queued | Preparing | Reserving | Running | Collecting | Cancelling
    | Succeeded | Failed | TimedOut | Cancelled

  predicate Ended(s: State) {
    s in {Succeeded, Failed, TimedOut, Cancelled}
  }

  function Name(s: State): string {
    match s
    case Queued => "queued"
    case Preparing => "preparing"
    case Reserving => "reserving"
    case Running => "running"
    case Collecting => "collecting"
    case Cancelling => "cancelling"
    case Succeeded => "succeeded"
    case Failed => "failed"
    case TimedOut => "timed_out"
    case Cancelled => "cancelled"
  }

  datatype Run = Run(fence: int, state: State)

  datatype EvaluationResult = EvaluationResult(
    id: nat, run: nat, fence: int, result: Json, resultSha256: string, createdAt: int)

  /** Runs change freely here: no result constraint depends on how they change. */
  datatype Database = Database(runs: map<nat, Run>, results: map<nat, EvaluationResult>)

  function Get<V>(m: map<nat, V>, k: nat): Option<V> {
    if k in m then Some(m[k]) else None
  }

  /** The condition on which `fence_evaluation_result` raises; a missing run leaves its variables NULL. */
  function Stale(db: Database, r: EvaluationResult): Tri {
    match Get(db.runs, r.run)
    case None =>
      Or(Or(True, Unknown), Truth(Field(Some(r.result), "outcome").Some?))
    case Some(run) =>
      Or(Or(Truth(run.fence != r.fence), Truth(!Ended(run.state))),
         Truth(FieldTextIs(Some(r.result), "outcome", Name(run.state)) != True))
  }

  ghost predicate Step(a: Database, b: Database) {
    // A change of the runs table.
    || b.results == a.results
    // An insert: primary key, UNIQUE (run_id), and the fence trigger.
    || exists r: EvaluationResult ::
         && b == Database(a.runs, a.results[r.id := r])
         && r.id !in a.results
         && (forall k | k in a.results :: a.results[k].run != r.run)
         && Stale(a, r) != True
    // `protect_evaluation_result` raises on every update and every delete of a result.
  }

  ghost predicate IsRun(h: seq<Database>) {
    && |h| > 0 && h[0].results == map[]
    && forall i: nat | i + 1 < |h| :: StepAt(h, i)
  }

  ghost predicate StepAt(h: seq<Database>, i: nat)
    requires i + 1 < |h|
  {
    Step(h[i], h[i + 1])
  }

  /** The run, as it stood, owned the fence, had ended, and ended the way the result says. */
  predicate Fenced(db: Database, r: EvaluationResult) {
    && r.run in db.runs
    && db.runs[r.run].fence == r.fence
    && var state, outcome := db.runs[r.run].state, Field(Some(r.result), "outcome");
    || (state == Succeeded && outcome == Some(JString("succeeded")))
    || (state == Failed && outcome == Some(JString("failed")))
    || (state == TimedOut && outcome == Some(JString("timed_out")))
    || (state == Cancelled && outcome == Some(JString("cancelled")))
  }

  /** The trigger lets exactly the fenced results through. */
  lemma StaleIffNotFenced(db: Database, r: EvaluationResult)
    ensures Stale(db, r) != True <==> Fenced(db, r)
  {
  }

  /** A new result is stored exactly when its run has none yet and it is fenced. */
  lemma InsertIsAcceptedIff(a: Database, r: EvaluationResult)
    requires r.id !in a.results
    ensures Step(a, Database(a.runs, a.results[r.id := r])) <==>
            (forall k | k in a.results :: a.results[k].run != r.run) && Fenced(a, r)
  {
    var b := Database(a.runs, a.results[r.id := r]);
    StaleIffNotFenced(a, r);
    assert r.id in b.results;
    forall other: EvaluationResult | b == Database(a.runs, a.results[other.id := other]) && other.id !in a.results
      ensures other == r
    {
      assert b.results[other.id] == other;
    }
  }

  /** Runs may change in any way beside the results. */
  lemma RunsMayChange(a: Database, runs: map<nat, Run>)
    ensures Step(a, Database(runs, a.results))
  {
  }

  /** A result that a step adds is fenced. */
  lemma StepFences(a: Database, b: Database, k: nat)
    requires Step(a, b) && k !in a.results && k in b.results
    ensures Fenced(a, b.results[k])
  {
    StaleIffNotFenced(a, b.results[k]);
  }

  lemma StepKeeps(a: Database, b: Database, k: nat)
    requires Step(a, b) && k in a.results
    ensures k in b.results && b.results[k] == a.results[k]
  {
  }

  lemma {:induction false} ResultIsImmutable(h: seq<Database>, i: nat, j: nat, k: nat)
    requires IsRun(h) && i <= j < |h| && k in h[i].results
    ensures k in h[j].results && h[j].results[k] == h[i].results[k]
  {
    if i < j {
      ResultIsImmutable(h, i, j - 1, k);
      assert StepAt(h, j - 1);
      StepKeeps(h[j - 1], h[j], k);
    }
  }

  /** Every stored result was inserted at one step of the history, under its run's fence and outcome. */
  lemma {:induction false} ResultWasFenced(h: seq<Database>, j: nat, k: nat) returns (i: nat)
    requires IsRun(h) && j < |h| && k in h[j].results
    ensures i < j && k !in h[i].results && k in h[i + 1].results
    ensures Fenced(h[i], h[j].results[k])
  {
    assert j > 0;
    assert StepAt(h, j - 1);
    if k in h[j - 1].results {
      i := ResultWasFenced(h, j - 1, k);
      StepKeeps(h[j - 1], h[j], k);
    } else {
      i := j - 1;
      StepFences(h[i], h[j], k);
    }
  }

  /** A run has at most one result, in every state of every history. */
  lemma {:induction false} OneResultPerRun(h: seq<Database>, j: nat, k: nat, l: nat)
    requires IsRun(h) && j < |h| && k in h[j].results && l in h[j].results
    requires h[j].results[k].run == h[j].results[l].run
    ensures k == l
  {
    assert j > 0;
    assert StepAt(h, j - 1);
    if k in h[j - 1].results && l in h[j - 1].results {
      StepKeeps(h[j - 1], h[j], k);
      StepKeeps(h[j - 1], h[j], l);
      OneResultPerRun(h, j - 1, k, l);
    }
  }
}
