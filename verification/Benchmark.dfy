/**
  The durable benchmark queue of `benchmark_executor.py`: one executor, atomic commits, and a crash
  or an error possible at every point between them.
  */
module Benchmark {
  import opened Wrappers

  datatype CommandState = Pending | Running | Succeeded | Failed

  datatype RunState = RunQueued | RunRunning | RunCompleted | RunFailed

  /** `payloadRun` is the run named inside the command's payload. */
  datatype Command = Command(run: nat, payloadRun: nat, sequence: int, createdAt: int, state: CommandState)

  datatype Measurement = Measurement(run: nat, placement: string, tokensPerSecond: Option<int>, failure: Option<string>)

  datatype Queue = Queue(commands: map<nat, Command>, runs: map<nat, RunState>, results: seq<Measurement>)

  predicate Open(c: Command) {
    c.state == Pending || c.state == Running
  }

  predicate EarlierInRun(a: Command, b: Command) {
    a.run == b.run && a.sequence < b.sequence
  }

  predicate Blocked(q: Queue, c: Command) {
    exists k | k in q.commands :: EarlierInRun(q.commands[k], c) && q.commands[k].state != Succeeded
  }

  predicate Eligible(q: Queue, k: nat) {
    k in q.commands && Open(q.commands[k]) && !Blocked(q, q.commands[k])
  }

  /** A command may be dispatched when it is pending or running and every earlier one of its run has succeeded. */
  lemma EligibleIff(q: Queue, k: nat)
    ensures Eligible(q, k) <==>
            && k in q.commands && q.commands[k].state in {Pending, Running}
            && forall l | l in q.commands && q.commands[l].run == q.commands[k].run
                          && q.commands[l].sequence < q.commands[k].sequence ::
                 q.commands[l].state == Succeeded
  {
    if k in q.commands {
      forall l | l in q.commands
        ensures EarlierInRun(q.commands[l], q.commands[k]) <==>
                q.commands[l].run == q.commands[k].run && q.commands[l].sequence < q.commands[k].sequence
      {
      }
    }
  }

  /** The query's order: creation time, then sequence. */
  predicate NotAfter(a: Command, b: Command) {
    a.createdAt < b.createdAt || (a.createdAt == b.createdAt && a.sequence <= b.sequence)
  }

  /** What the query of `_next` returns: the open commands, in order. */
  ghost predicate Listing(q: Queue, rows: seq<nat>) {
    && (forall k :: k in rows <==> k in q.commands && Open(q.commands[k]))
    && (forall i, j | 0 <= i < j < |rows| :: NotAfter(q.commands[rows[i]], q.commands[rows[j]]))
  }

  // ----- What each transaction commits -----

  function Moved(commands: map<nat, Command>, k: nat, s: CommandState): map<nat, Command>
    requires k in commands
  {
    commands[k := commands[k].(state := s)]
  }

  function Started(q: Queue, k: nat): Queue
    requires k in q.commands
  {
    Queue(Moved(q.commands, k, Running), q.runs[q.commands[k].run := RunRunning], q.results)
  }

  /** The commands of one run. */
  function Of(commands: map<nat, Command>, run: nat): map<nat, Command> {
    map k | k in commands && commands[k].run == run :: commands[k]
  }

  predicate AllSucceeded(commands: map<nat, Command>) {
    forall k | k in commands :: commands[k].state == Succeeded
  }

  function Recorded(q: Queue, k: nat, m: Measurement): Queue
    requires k in q.commands
  {
    var run, commands := q.commands[k].payloadRun, Moved(q.commands, k, Succeeded);
    Queue(commands,
          if AllSucceeded(Of(commands, run)) then q.runs[run := RunCompleted] else q.runs,
          q.results + [m.(run := run)])
  }

  function Failing(q: Queue, k: nat): Queue
    requires k in q.commands
  {
    var run := q.commands[k].run;
    Queue(Moved(q.commands, k, Failed), if run in q.runs then q.runs[run := RunFailed] else q.runs, q.results)
  }

  /** How one call of `_execute_safely` ends. */
  datatype Attempt =
    | NeverStarted              // a crash before the first commit
    | Unstartable               // the first transaction raised, the failure was committed
    | Interrupted               // a crash or a retryable node error after the first commit
    | Rejected                  // any other error after the first commit, the failure was committed
    | Measured(m: Measurement)  // both transactions committed

  function Attempted(q: Queue, k: nat, a: Attempt): Queue
    requires k in q.commands
  {
    match a
    case NeverStarted => q
    case Unstartable => Failing(q, k)
    case Interrupted => Started(q, k)
    case Rejected => Failing(Started(q, k), k)
    case Measured(m) => Recorded(Started(q, k), k, m)
  }

  /** A missing run makes the transaction that needs it raise, whatever the world does. */
  function Forced(q: Queue, k: nat, a: Attempt): Attempt
    requires k in q.commands
  {
    if a.NeverStarted? then a
    else if q.commands[k].run !in q.runs then Unstartable
    else if a.Measured? && q.commands[k].payloadRun !in q.runs then Rejected
    else a
  }

  /** An attempt whose run is missing, or whose payload names a missing run, fails its command and records nothing. */
  lemma MissingRunFails(q: Queue, k: nat, a: Attempt)
    requires k in q.commands && !a.NeverStarted?
    requires q.commands[k].run !in q.runs || (a.Measured? && q.commands[k].payloadRun !in q.runs)
    ensures var p := Attempted(q, k, Forced(q, k, a)); p.commands[k].state == Failed && p.results == q.results
  {
  }

  // ----- The executor -----

  class Executor {
    var commands: map<nat, Command>
    var runs: map<nat, RunState>
    var results: seq<Measurement>

    function State(): Queue
      reads this
    {
      Queue(commands, runs, results)
    }

    constructor ()
      ensures State() == Queue(map[], map[], [])
    {
      commands, runs, results := map[], map[], [];
    }

    /** `_next`, over the rows its query returned. */
    method Next(rows: seq<nat>) returns (next: Option<nat>)
      requires Listing(State(), rows)
      ensures next.None? <==> forall k :: !Eligible(State(), k)
      ensures next.Some? ==> Eligible(State(), next.value)
      ensures next.Some? ==>
                forall k | Eligible(State(), k) ::
                  var a, b := commands[next.value], commands[k];
                  a.createdAt < b.createdAt || (a.createdAt == b.createdAt && a.sequence <= b.sequence)
    {
      var i := 0;
      while i < |rows|
        invariant 0 <= i <= |rows|
        invariant forall j | 0 <= j < i :: !Eligible(State(), rows[j])
      {
        var k := rows[i];
        if !Blocked(State(), commands[k]) {
          assert Eligible(State(), k);
          return Some(k);
        }
        i := i + 1;
      }
      return None;
    }

    /** The first transaction of `_execute`. */
    method Start(k: nat) returns (ok: bool)
      modifies this
      ensures ok == (k in old(commands) && old(commands)[k].run in old(runs))
      ensures State() == if ok then Started(old(State()), k) else old(State())
    {
      if k !in commands || commands[k].run !in runs {
        return false;
      }
      var row := commands[k];
      commands := commands[k := row.(state := Running)];
      runs := runs[row.run := RunRunning];
      ok := true;
    }

    /** The second transaction of `_execute`. */
    method Record(k: nat, m: Measurement) returns (ok: bool)
      modifies this
      ensures ok == (k in old(commands) && old(commands)[k].payloadRun in old(runs))
      ensures State() == if ok then Recorded(old(State()), k, m) else old(State())
    {
      if k !in commands || commands[k].payloadRun !in runs {
        return false;
      }
      var row := commands[k];
      results := results + [m.(run := row.payloadRun)];
      commands := commands[k := row.(state := Succeeded)];
      var remaining := set j | j in commands && commands[j].run == row.payloadRun && commands[j].state != Succeeded;
      if |remaining| == 0 {
        assert forall j | j in Of(commands, row.payloadRun) && commands[j].state != Succeeded :: j in remaining;
        runs := runs[row.payloadRun := RunCompleted];
      } else {
        var j :| j in remaining;
        assert j in Of(commands, row.payloadRun);
      }
      ok := true;
    }

    method Fail(k: nat)
      modifies this
      ensures State() == if k in old(commands) then Failing(old(State()), k) else old(State())
    {
      if k in commands {
        var row := commands[k];
        commands := commands[k := row.(state := Failed)];
        if row.run in runs {
          runs := runs[row.run := RunFailed];
        }
      }
    }

    /** `_execute_safely`, with the world's part in it given by `outcome`. */
    method ExecuteSafely(k: nat, outcome: Attempt)
      modifies this
      ensures State() ==
              if k in old(commands) then Attempted(old(State()), k, Forced(old(State()), k, outcome)) else old(State())
    {
      if k !in commands || outcome.NeverStarted? {
        return;
      }
      var started := false;
      if !outcome.Unstartable? {
        started := Start(k);
      }
      if !started || outcome.Rejected? {
        Fail(k);
      } else if outcome.Measured? {
        var recorded := Record(k, outcome.m);
        if !recorded {
          Fail(k);
        }
      }
    }
  }

  // ----- Histories -----

  /** A new run with its commands, as the admin route enqueues them: in order, one per placement. */
  predicate Enqueues(q: Queue, p: Queue, run: nat, ids: seq<nat>, createdAt: int) {
    && run !in q.runs && ids != []
    && (forall i, j | 0 <= i < j < |ids| :: ids[i] != ids[j])
    && (forall i | 0 <= i < |ids| :: ids[i] !in q.commands)
    && p.commands.Keys == q.commands.Keys + (set id | id in ids)
    && (forall k | k in q.commands :: p.commands[k] == q.commands[k])
    && (forall i | 0 <= i < |ids| :: p.commands[ids[i]] == Command(run, run, i, createdAt, Pending))
    && p.runs == q.runs[run := RunQueued]
    && p.results == q.results
  }

  ghost predicate Step(q: Queue, p: Queue) {
    || (exists run, ids, createdAt :: Enqueues(q, p, run, ids, createdAt))
    || (exists k, a :: Eligible(q, k) && p == Attempted(q, k, a))
  }

  ghost predicate IsRun(h: seq<Queue>) {
    && |h| > 0 && h[0] == Queue(map[], map[], [])
    && forall i: nat | i + 1 < |h| :: StepAt(h, i)
  }

  ghost predicate StepAt(h: seq<Queue>, i: nat)
    requires i + 1 < |h|
  {
    Step(h[i], h[i + 1])
  }

  // ----- The invariant -----

  function SucceededIn(commands: map<nat, Command>): set<nat> {
    set k | k in commands && commands[k].state == Succeeded
  }

  function ResultsOf(results: seq<Measurement>, run: nat): nat {
    if results == [] then 0
    else ResultsOf(results[..|results| - 1], run) + if results[|results| - 1].run == run then 1 else 0
  }

  predicate AnyFailed(commands: map<nat, Command>) {
    exists k | k in commands :: commands[k].state == Failed
  }

  /** Sequences differ, and a command is touched only once every earlier one has succeeded. */
  predicate InOrder(commands: map<nat, Command>) {
    && (forall k, l | k in commands && l in commands && k != l :: commands[k].sequence != commands[l].sequence)
    && (forall k, l | k in commands && l in commands && commands[k].sequence < commands[l].sequence ::
          commands[l].state != Pending ==> commands[k].state == Succeeded)
  }

  /** What the tables say about one run: its commands, its state and its number of result rows. */
  predicate RunLaw(commands: map<nat, Command>, state: RunState, recorded: nat) {
    && commands != map[]
    && InOrder(commands)
    && (state == RunCompleted <==> AllSucceeded(commands))
    && (state == RunFailed <==> AnyFailed(commands))
    && recorded == |SucceededIn(commands)|
  }

  /** The law of one run in a queue; a run that does not exist has no result rows. */
  predicate Law(q: Queue, run: nat) {
    if run in q.runs then RunLaw(Of(q.commands, run), q.runs[run], ResultsOf(q.results, run))
    else ResultsOf(q.results, run) == 0
  }

  predicate CommandsHaveRuns(q: Queue) {
    forall k | k in q.commands :: q.commands[k].run in q.runs && q.commands[k].payloadRun == q.commands[k].run
  }

  ghost predicate Inv(q: Queue) {
    CommandsHaveRuns(q) && forall run :: Law(q, run)
  }
}
