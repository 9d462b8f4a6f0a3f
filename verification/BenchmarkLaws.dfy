/** Exactly-once recording, failure isolation and progress of the benchmark queue. */
module BenchmarkLaws {
  import opened Wrappers
  import opened Benchmark

  // ----- One run -----

  /** The first command of its run that has not succeeded. */
  predicate IsNext(commands: map<nat, Command>, k: nat) {
    && k in commands && Open(commands[k])
    && forall l | l in commands && commands[l].sequence < commands[k].sequence :: commands[l].state == Succeeded
  }

  lemma NextIsLive(commands: map<nat, Command>, k: nat)
    requires InOrder(commands) && IsNext(commands, k)
    ensures !AnyFailed(commands) && !AllSucceeded(commands)
    ensures forall l | l in commands && commands[k].sequence < commands[l].sequence :: commands[l].state == Pending
  {
  }

  lemma MoveKeepsOrder(commands: map<nat, Command>, k: nat, s: CommandState)
    requires InOrder(commands) && IsNext(commands, k)
    ensures InOrder(Moved(commands, k, s))
  {
    NextIsLive(commands, k);
  }

  lemma MoveCounts(commands: map<nat, Command>, k: nat, s: CommandState)
    requires k in commands && commands[k].state != Succeeded
    ensures |SucceededIn(Moved(commands, k, s))| == |SucceededIn(commands)| + if s == Succeeded then 1 else 0
  {
    assert SucceededIn(Moved(commands, k, s)) == SucceededIn(commands) + if s == Succeeded then {k} else {};
  }

  /** Moving the next command of a run on keeps the run's law, with the run state the code then writes. */
  lemma MoveKeepsLaw(commands: map<nat, Command>, state: RunState, recorded: nat, k: nat, s: CommandState)
    requires RunLaw(commands, state, recorded) && IsNext(commands, k) && s != Pending
    ensures var m := Moved(commands, k, s);
            RunLaw(m, if s == Failed then RunFailed else if AllSucceeded(m) then RunCompleted else RunRunning,
                   recorded + if s == Succeeded then 1 else 0)
  {
    NextIsLive(commands, k);
    MoveKeepsOrder(commands, k, s);
    MoveCounts(commands, k, s);
    var m := Moved(commands, k, s);
    assert m[k].state == s;
    assert forall l | l in m && l != k :: m[l] == commands[l];
  }

  // ----- The whole queue -----

  lemma OfMoved(commands: map<nat, Command>, k: nat, s: CommandState, run: nat)
    requires k in commands
    ensures Of(Moved(commands, k, s), run) ==
            if commands[k].run == run then Moved(Of(commands, run), k, s) else Of(commands, run)
  {
  }

  lemma EligibleIsNext(q: Queue, k: nat)
    requires Eligible(q, k)
    ensures IsNext(Of(q.commands, q.commands[k].run), k)
  {
    forall l | l in Of(q.commands, q.commands[k].run) && q.commands[l].sequence < q.commands[k].sequence
      ensures q.commands[l].state == Succeeded
    {
      assert EarlierInRun(q.commands[l], q.commands[k]);
    }
  }

  lemma NextIsEligible(q: Queue, k: nat, run: nat)
    requires IsNext(Of(q.commands, run), k)
    ensures Eligible(q, k) && q.commands[k].run == run
  {
    forall l | l in q.commands && EarlierInRun(q.commands[l], q.commands[k])
      ensures q.commands[l].state == Succeeded
    {
      assert l in Of(q.commands, run);
    }
  }

  lemma ResultsOfAppend(results: seq<Measurement>, m: Measurement, run: nat)
    ensures ResultsOf(results + [m], run) == ResultsOf(results, run) + if m.run == run then 1 else 0
  {
    assert (results + [m])[..|results|] == results;
  }

  /** The state an attempt leaves its command in. */
  function LeftIn(a: Attempt): CommandState
    requires !a.NeverStarted?
  {
    match a
    case Interrupted => Running
    case Measured(_) => Succeeded
    case _ => Failed
  }

  /** The state an attempt leaves its run in, given the run's commands after it. */
  function RunLeftIn(s: CommandState, mine: map<nat, Command>): RunState {
    if s == Failed then RunFailed else if AllSucceeded(mine) then RunCompleted else RunRunning
  }

  lemma MovedTwice(commands: map<nat, Command>, k: nat, s: CommandState, t: CommandState)
    requires k in commands
    ensures Moved(Moved(commands, k, s), k, t) == Moved(commands, k, t)
  {
  }

  /** What an attempt leaves: its command moved, its run's state, and one new result row when it measured. */
  lemma AttemptEffect(q: Queue, k: nat, a: Attempt)
    requires k in q.commands && q.commands[k].run in q.runs && q.commands[k].payloadRun == q.commands[k].run
    requires !a.NeverStarted?
    ensures var run, commands := q.commands[k].run, Moved(q.commands, k, LeftIn(a));
            Attempted(q, k, a) ==
            Queue(commands, q.runs[run := RunLeftIn(LeftIn(a), Of(commands, run))],
                  q.results + if a.Measured? then [a.m.(run := run)] else [])
  {
    var run, commands := q.commands[k].run, Moved(q.commands, k, LeftIn(a));
    assert k in Of(commands, run) && commands[k].state == LeftIn(a);
    MovedTwice(q.commands, k, Running, LeftIn(a));
  }

  predicate Dispatchable(q: Queue, k: nat) {
    Eligible(q, k) && q.commands[k].run in q.runs && q.commands[k].payloadRun == q.commands[k].run
  }

  lemma AttemptKeepsOtherRun(q: Queue, k: nat, a: Attempt, run: nat)
    requires Dispatchable(q, k) && !a.NeverStarted? && run != q.commands[k].run && Law(q, run)
    ensures Law(Attempted(q, k, a), run)
  {
    AttemptEffect(q, k, a);
    OfMoved(q.commands, k, LeftIn(a), run);
    if a.Measured? {
      ResultsOfAppend(q.results, a.m.(run := q.commands[k].run), run);
    } else {
      assert q.results + [] == q.results;
    }
  }

  lemma AttemptKeepsOwnRun(q: Queue, k: nat, a: Attempt, run: nat)
    requires Dispatchable(q, k) && !a.NeverStarted? && run == q.commands[k].run && Law(q, run)
    ensures Law(Attempted(q, k, a), run)
  {
    AttemptEffect(q, k, a);
    OfMoved(q.commands, k, LeftIn(a), run);
    if a.Measured? {
      ResultsOfAppend(q.results, a.m.(run := run), run);
    } else {
      assert q.results + [] == q.results;
    }
    EligibleIsNext(q, k);
    MoveKeepsLaw(Of(q.commands, run), q.runs[run], ResultsOf(q.results, run), k, LeftIn(a));
  }

  lemma AttemptKeepsCommands(q: Queue, k: nat, a: Attempt)
    requires CommandsHaveRuns(q) && Dispatchable(q, k) && !a.NeverStarted?
    ensures CommandsHaveRuns(Attempted(q, k, a))
  {
    AttemptEffect(q, k, a);
  }

  lemma AttemptKeepsInv(q: Queue, k: nat, a: Attempt)
    requires Inv(q) && Eligible(q, k)
    ensures Inv(Attempted(q, k, a))
  {
    if !a.NeverStarted? {
      assert Dispatchable(q, k);
      AttemptKeepsCommands(q, k, a);
      forall run
        ensures Law(Attempted(q, k, a), run)
      {
        if run == q.commands[k].run {
          AttemptKeepsOwnRun(q, k, a, run);
        } else {
          AttemptKeepsOtherRun(q, k, a, run);
        }
      }
    }
  }

  lemma NewRunLaw(m: map<nat, Command>, ids: seq<nat>, run: nat, createdAt: int)
    requires ids != [] && m.Keys == (set id | id in ids)
    requires forall i | 0 <= i < |ids| :: m[ids[i]] == Command(run, run, i, createdAt, Pending)
    ensures RunLaw(m, RunQueued, 0)
  {
    assert ids[0] in m;
    assert forall k | k in m :: m[k].state == Pending && 0 <= m[k].sequence < |ids| && ids[m[k].sequence] == k;
    assert SucceededIn(m) == {};
  }

  lemma EnqueueKeepsRun(q: Queue, p: Queue, run: nat, ids: seq<nat>, createdAt: int, r: nat)
    requires CommandsHaveRuns(q) && Enqueues(q, p, run, ids, createdAt) && Law(q, r)
    ensures Law(p, r)
  {
    assert forall k | k in p.commands :: k in q.commands || k in ids;
    if r == run {
      NewRunLaw(Of(p.commands, r), ids, run, createdAt);
    } else {
      assert Of(p.commands, r) == Of(q.commands, r);
    }
  }

  lemma EnqueueKeepsInv(q: Queue, p: Queue, run: nat, ids: seq<nat>, createdAt: int)
    requires Inv(q) && Enqueues(q, p, run, ids, createdAt)
    ensures Inv(p)
  {
    assert forall k | k in p.commands :: k in q.commands || k in ids;
    assert CommandsHaveRuns(p);
    forall r
      ensures Law(p, r)
    {
      EnqueueKeepsRun(q, p, run, ids, createdAt, r);
    }
  }

  lemma StepKeepsInv(q: Queue, p: Queue)
    requires Inv(q) && Step(q, p)
    ensures Inv(p)
  {
    if exists run, ids, createdAt :: Enqueues(q, p, run, ids, createdAt) {
      var run, ids, createdAt :| Enqueues(q, p, run, ids, createdAt);
      EnqueueKeepsInv(q, p, run, ids, createdAt);
    } else {
      var k, a :| Eligible(q, k) && p == Attempted(q, k, a);
      AttemptKeepsInv(q, k, a);
    }
  }

  /** The invariant holds in every state of every history, whatever crashes and fails in it. */
  lemma {:induction false} InvAlways(h: seq<Queue>, i: nat)
    requires IsRun(h) && i < |h|
    ensures Inv(h[i])
  {
    if i == 0 {
      assert h[0].results == [];
    } else {
      InvAlways(h, i - 1);
      assert StepAt(h, i - 1);
      StepKeepsInv(h[i - 1], h[i]);
    }
  }

  /** Exactly-once recording: in every reachable state a run has as many result rows as succeeded
      commands, those commands are the first ones in sequence order, and the run is completed
      exactly when all its commands succeeded. */
  lemma RecordedExactlyOnce(h: seq<Queue>, i: nat, run: nat)
    requires IsRun(h) && i < |h| && run in h[i].runs
    ensures var mine := Of(h[i].commands, run);
            && ResultsOf(h[i].results, run) == |SucceededIn(mine)|
            && (forall k, l | k in mine && l in SucceededIn(mine) && mine[k].sequence < mine[l].sequence ::
                  k in SucceededIn(mine))
            && (h[i].runs[run] == RunCompleted <==> AllSucceeded(mine))
            && (h[i].runs[run] == RunFailed <==> AnyFailed(mine))
  {
    InvAlways(h, i);
    assert Law(h[i], run);
  }

  // ----- Rows in sequence order -----

  /** The commands that come before `k` in sequence order. */
  function Before(commands: map<nat, Command>, k: nat): set<nat>
    requires k in commands
  {
    set l | l in commands && commands[l].sequence < commands[k].sequence
  }

  lemma NextFollowsSucceeded(commands: map<nat, Command>, k: nat)
    requires InOrder(commands) && IsNext(commands, k)
    ensures SucceededIn(commands) == Before(commands, k)
  {
    NextIsLive(commands, k);
  }

  /** A step that records command `k`: it succeeds, and one row of its run is added, which has as many rows of the run
      before it as `k` has commands. */
  predicate Records(q: Queue, p: Queue, k: nat, row: Measurement) {
    && Eligible(q, k) && p.commands == Moved(q.commands, k, Succeeded)
    && p.results == q.results + [row] && row.run == q.commands[k].run
    && k in Of(q.commands, row.run) && ResultsOf(q.results, row.run) == |Before(Of(q.commands, row.run), k)|
  }

  lemma MeasuredRecords(q: Queue, k: nat, a: Attempt)
    requires Inv(q) && Eligible(q, k) && a.Measured?
    ensures Records(q, Attempted(q, k, a), k, a.m.(run := q.commands[k].run))
  {
    var run := q.commands[k].run;
    assert Dispatchable(q, k) && Law(q, run);
    AttemptEffect(q, k, a);
    EligibleIsNext(q, k);
    NextFollowsSucceeded(Of(q.commands, run), k);
  }

  /** Results change only in a step that records a command. */
  lemma StepRecords(q: Queue, p: Queue) returns (k: nat)
    requires Inv(q) && Step(q, p) && p.results != q.results
    ensures |p.results| == |q.results| + 1 && Records(q, p, k, p.results[|q.results|])
  {
    var l, a :| Eligible(q, l) && p == Attempted(q, l, a);
    k := l;
    MeasuredRecords(q, k, a);
  }

  /** Each run's rows are those of its commands in sequence order: every row of every reachable state was added by a
      step that recorded a command of its run with just as many commands before it as the row has rows before it. */
  lemma {:induction false} RowsInOrder(h: seq<Queue>, j: nat, r: nat) returns (i: nat, k: nat)
    requires IsRun(h) && j < |h| && r < |h[j].results|
    ensures i < j && h[i].results == h[j].results[..r] && Records(h[i], h[i + 1], k, h[j].results[r])
  {
    assert j > 0;
    InvAlways(h, j - 1);
    assert StepAt(h, j - 1);
    if h[j].results == h[j - 1].results {
      i, k := RowsInOrder(h, j - 1, r);
    } else {
      var l := StepRecords(h[j - 1], h[j]);
      if r == |h[j - 1].results| {
        i, k := j - 1, l;
      } else {
        i, k := RowsInOrder(h, j - 1, r);
        assert h[j].results[..r] == h[j - 1].results[..r];
      }
    }
  }

  lemma AttemptExtends(q: Queue, k: nat, a: Attempt, l: nat)
    requires Dispatchable(q, k) && l in q.commands && q.commands[l].state == Succeeded
    ensures l in Attempted(q, k, a).commands && Attempted(q, k, a).commands[l] == q.commands[l]
    ensures q.results <= Attempted(q, k, a).results
  {
    if !a.NeverStarted? {
      AttemptEffect(q, k, a);
    }
  }

  /** A recorded command is final: it is never dispatched again, and result rows are only ever appended. */
  lemma {:induction false} SuccessIsFinal(h: seq<Queue>, i: nat, j: nat, l: nat)
    requires IsRun(h) && i <= j < |h| && l in h[i].commands && h[i].commands[l].state == Succeeded
    ensures l in h[j].commands && h[j].commands[l] == h[i].commands[l] && !Eligible(h[j], l)
    ensures h[i].results <= h[j].results
  {
    if i < j {
      SuccessIsFinal(h, i, j - 1, l);
      SuccessStep(h, j, l);
    }
  }

  lemma StepExtends(q: Queue, p: Queue, l: nat)
    requires Inv(q) && Step(q, p) && l in q.commands && q.commands[l].state == Succeeded
    ensures l in p.commands && p.commands[l] == q.commands[l]
    ensures q.results <= p.results
  {
    if exists run, ids, createdAt :: Enqueues(q, p, run, ids, createdAt) {
      var run, ids, createdAt :| Enqueues(q, p, run, ids, createdAt);
    } else {
      var k, a :| Eligible(q, k) && p == Attempted(q, k, a);
      assert Dispatchable(q, k);
      AttemptExtends(q, k, a, l);
    }
  }

  lemma SuccessStep(h: seq<Queue>, j: nat, l: nat)
    requires IsRun(h) && 0 < j < |h| && l in h[j - 1].commands && h[j - 1].commands[l].state == Succeeded
    ensures l in h[j].commands && h[j].commands[l] == h[j - 1].commands[l]
    ensures h[j - 1].results <= h[j].results
  {
    InvAlways(h, j - 1);
    assert StepAt(h, j - 1);
    StepExtends(h[j - 1], h[j], l);
  }

  // ----- Failure isolation -----

  lemma AttemptKeepsFailedRun(q: Queue, k: nat, a: Attempt, run: nat)
    requires Dispatchable(q, k) && Law(q, q.commands[k].run) && AnyFailed(Of(q.commands, run))
    ensures Of(Attempted(q, k, a).commands, run) == Of(q.commands, run)
  {
    EligibleIsNext(q, k);
    NextIsLive(Of(q.commands, q.commands[k].run), k);
    if !a.NeverStarted? {
      AttemptEffect(q, k, a);
      OfMoved(q.commands, k, LeftIn(a), run);
    }
  }

  lemma EnqueueKeepsFailedRun(q: Queue, p: Queue, r: nat, ids: seq<nat>, createdAt: int, run: nat)
    requires CommandsHaveRuns(q) && Enqueues(q, p, r, ids, createdAt) && AnyFailed(Of(q.commands, run))
    ensures Of(p.commands, run) == Of(q.commands, run)
  {
    assert forall k | k in p.commands :: k in q.commands || k in ids;
  }

  lemma StepKeepsFailedRun(q: Queue, p: Queue, run: nat)
    requires Inv(q) && Step(q, p) && AnyFailed(Of(q.commands, run))
    ensures Of(p.commands, run) == Of(q.commands, run)
  {
    if exists r, ids, createdAt :: Enqueues(q, p, r, ids, createdAt) {
      var r, ids, createdAt :| Enqueues(q, p, r, ids, createdAt);
      EnqueueKeepsFailedRun(q, p, r, ids, createdAt, run);
    } else {
      var k, a :| Eligible(q, k) && p == Attempted(q, k, a);
      assert Dispatchable(q, k) && Law(q, q.commands[k].run);
      AttemptKeepsFailedRun(q, k, a, run);
    }
  }

  lemma FailedRunIsStuck(q: Queue, run: nat)
    requires Inv(q) && AnyFailed(Of(q.commands, run))
    ensures run in q.runs && q.runs[run] == RunFailed
    ensures forall k | Eligible(q, k) :: q.commands[k].run != run
  {
    assert Law(q, run);
    var f :| f in Of(q.commands, run);
    assert q.commands[f].run in q.runs;
    forall k | Eligible(q, k)
      ensures q.commands[k].run != run
    {
      if q.commands[k].run == run {
        EligibleIsNext(q, k);
        NextIsLive(Of(q.commands, run), k);
      }
    }
  }

  lemma FrozenStep(h: seq<Queue>, j: nat, run: nat)
    requires IsRun(h) && 0 < j < |h| && AnyFailed(Of(h[j - 1].commands, run))
    ensures Of(h[j].commands, run) == Of(h[j - 1].commands, run)
  {
    InvAlways(h, j - 1);
    assert StepAt(h, j - 1);
    StepKeepsFailedRun(h[j - 1], h[j], run);
  }

  lemma {:induction false} FailedRunIsFrozen(h: seq<Queue>, i: nat, j: nat, run: nat)
    requires IsRun(h) && i <= j < |h| && AnyFailed(Of(h[i].commands, run))
    ensures Of(h[j].commands, run) == Of(h[i].commands, run)
  {
    if i < j {
      FailedRunIsFrozen(h, i, j - 1, run);
      FrozenStep(h, j, run);
    }
  }

  /** Once a command has failed, no command of its run changes or is dispatched again, and the run stays failed. */
  lemma FailureIsIsolated(h: seq<Queue>, i: nat, j: nat, run: nat)
    requires IsRun(h) && i <= j < |h| && AnyFailed(Of(h[i].commands, run))
    ensures Of(h[j].commands, run) == Of(h[i].commands, run)
    ensures run in h[j].runs && h[j].runs[run] == RunFailed
    ensures forall k | Eligible(h[j], k) :: h[j].commands[k].run != run
  {
    FailedRunIsFrozen(h, i, j, run);
    InvAlways(h, j);
    FailedRunIsStuck(h[j], run);
  }

  // ----- Progress -----

  /** A nonempty set of commands has one with the least sequence. */
  lemma {:induction false} FirstOf(commands: map<nat, Command>, some: set<nat>) returns (k: nat)
    requires some != {} && some <= commands.Keys
    ensures k in some && forall l | l in some :: commands[k].sequence <= commands[l].sequence
    decreases |some|
  {
    k :| k in some;
    if some != {k} {
      var l := FirstOf(commands, some - {k});
      if commands[l].sequence < commands[k].sequence {
        k := l;
      }
    }
  }

  lemma LiveRunHasNext(commands: map<nat, Command>) returns (k: nat)
    requires InOrder(commands) && !AllSucceeded(commands) && !AnyFailed(commands)
    ensures IsNext(commands, k)
    ensures forall l | IsNext(commands, l) :: l == k
  {
    var some := set l | l in commands && commands[l].state != Succeeded;
    var l :| l in commands && commands[l].state != Succeeded;
    assert l in some;
    k := FirstOf(commands, some);
    assert commands[k].state != Failed;
  }

  /** A run that is neither completed nor failed has exactly one eligible command. */
  lemma OneEligible(h: seq<Queue>, i: nat, run: nat) returns (k: nat)
    requires IsRun(h) && i < |h| && run in h[i].runs
    requires h[i].runs[run] != RunCompleted && h[i].runs[run] != RunFailed
    ensures Eligible(h[i], k) && h[i].commands[k].run == run
    ensures forall l | Eligible(h[i], l) && h[i].commands[l].run == run :: l == k
  {
    InvAlways(h, i);
    assert Law(h[i], run);
    k := LiveRunHasNext(Of(h[i].commands, run));
    NextIsEligible(h[i], k, run);
    forall l | Eligible(h[i], l) && h[i].commands[l].run == run
      ensures l == k
    {
      EligibleIsNext(h[i], l);
    }
  }

  /** A failed or finished run never holds another run up: the queue has a next command exactly when
      some run is neither completed nor failed. */
  lemma NextExistsIff(h: seq<Queue>, i: nat)
    requires IsRun(h) && i < |h|
    ensures (exists k :: Eligible(h[i], k)) <==>
            exists run | run in h[i].runs :: h[i].runs[run] != RunCompleted && h[i].runs[run] != RunFailed
  {
    InvAlways(h, i);
    if exists k :: Eligible(h[i], k) {
      var k :| Eligible(h[i], k);
      assert Law(h[i], h[i].commands[k].run);
      EligibleIsNext(h[i], k);
      NextIsLive(Of(h[i].commands, h[i].commands[k].run), k);
      assert h[i].commands[k].run in h[i].runs;
    }
    if exists run | run in h[i].runs :: h[i].runs[run] != RunCompleted && h[i].runs[run] != RunFailed {
      var run :| run in h[i].runs && h[i].runs[run] != RunCompleted && h[i].runs[run] != RunFailed;
      var k := OneEligible(h, i, run);
    }
  }

  // ----- What can happen -----

  predicate NoRepeats(ids: seq<nat>) {
    forall i, j | 0 <= i < j < |ids| :: ids[i] != ids[j]
  }

  /** The commands of a new run, one for each id, in order. */
  function NewCommands(run: nat, ids: seq<nat>, createdAt: int): (commands: map<nat, Command>)
    requires NoRepeats(ids)
    ensures commands.Keys == set id | id in ids
    ensures forall i | 0 <= i < |ids| :: commands[ids[i]] == Command(run, run, i, createdAt, Pending)
  {
    if ids == [] then map[] else
    var n := |ids| - 1;
    assert ids == ids[..n] + [ids[n]];
    NewCommands(run, ids[..n], createdAt)[ids[n] := Command(run, run, n, createdAt, Pending)]
  }

  /** A new run with commands under new ids can always be enqueued. */
  lemma EnqueueIsStep(q: Queue, run: nat, ids: seq<nat>, createdAt: int)
    requires run !in q.runs && ids != [] && NoRepeats(ids) && forall id | id in ids :: id !in q.commands
    ensures Step(q, Queue(q.commands + NewCommands(run, ids, createdAt), q.runs[run := RunQueued], q.results))
  {
    var p := Queue(q.commands + NewCommands(run, ids, createdAt), q.runs[run := RunQueued], q.results);
    assert Enqueues(q, p, run, ids, createdAt);
  }

  /** Whatever the world does to the dispatch of an eligible command is a step of a history. */
  lemma DispatchIsStep(q: Queue, k: nat, outcome: Attempt)
    requires Inv(q) && Eligible(q, k)
    ensures Forced(q, k, outcome) == outcome && Step(q, Attempted(q, k, outcome))
  {
  }

  /** The commands of a run that have not succeeded. */
  function Left(commands: map<nat, Command>): set<nat> {
    set k | k in commands && commands[k].state != Succeeded
  }

  lemma Extended(h: seq<Queue>, q: Queue)
    requires IsRun(h) && Step(h[|h| - 1], q)
    ensures IsRun(h + [q])
  {
    var g := h + [q];
    forall i: nat | i + 1 < |g|
      ensures StepAt(g, i)
    {
      if i + 1 < |h| {
        assert StepAt(h, i);
      }
    }
  }

  /** One good measurement of a live run: its next command succeeds, and one fewer is left. */
  lemma Measure(h: seq<Queue>, run: nat) returns (g: seq<Queue>)
    requires IsRun(h) && run in h[|h| - 1].runs
    requires h[|h| - 1].runs[run] != RunCompleted && h[|h| - 1].runs[run] != RunFailed
    ensures IsRun(g) && |g| == |h| + 1 && h < g && run in g[|h|].runs && g[|h|].runs[run] != RunFailed
    ensures |Left(Of(g[|h|].commands, run))| < |Left(Of(h[|h| - 1].commands, run))|
  {
    var q := h[|h| - 1];
    var k := OneEligible(h, |h| - 1, run);
    var a := Measured(Measurement(run, "", None, None));
    InvAlways(h, |h| - 1);
    assert Dispatchable(q, k);
    AttemptEffect(q, k, a);
    Extended(h, Attempted(q, k, a));
    OfMoved(q.commands, k, Succeeded, run);
    g := h + [Attempted(q, k, a)];
    OneFewer(Of(q.commands, run), k);
  }

  lemma OneFewer(commands: map<nat, Command>, k: nat)
    requires k in Left(commands)
    ensures |Left(Moved(commands, k, Succeeded))| < |Left(commands)|
  {
    assert Left(Moved(commands, k, Succeeded)) == Left(commands) - {k};
  }

  /** From every state of every history, a run that has not failed can still be completed, whatever crashed before. */
  lemma {:induction false} EveryLiveRunCanComplete(h: seq<Queue>, run: nat) returns (g: seq<Queue>)
    requires IsRun(h) && run in h[|h| - 1].runs && h[|h| - 1].runs[run] != RunFailed
    ensures IsRun(g) && h <= g && run in g[|g| - 1].runs && g[|g| - 1].runs[run] == RunCompleted
    decreases |Left(Of(h[|h| - 1].commands, run))|
  {
    if h[|h| - 1].runs[run] == RunCompleted {
      g := h;
    } else {
      var next := Measure(h, run);
      g := EveryLiveRunCanComplete(next, run);
    }
  }
}
