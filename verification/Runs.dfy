/** Killing an agent run: `coding_calls.py`, `runs.py`, `run_tokens.py` and the scheduler's steps beside them. */
module Runs {
  import opened Wrappers

  datatype RunState =
    | Queued | Placing | Creating | Running | Collecting
    | Succeeded | Failed | ResultCollectionFailed | TimedOut | KillRequested | Killed

  predicate Terminal(s: RunState) {
    s in {Succeeded, Failed, ResultCollectionFailed, TimedOut, Killed}
  }

  datatype Operation = Create | Start | Logs | Wait | Collect | Remove | Kill | Reconcile

  datatype CommandState = Pending | Active | Done | Broken

  datatype Token = NoToken | Live | Revoked

  /** Each operation has one command row, because `run_command_id` derives the row's key from it. */
  type Commands = map<Operation, CommandState>

  /** One transition row; the first has no earlier state. */
  type Step = (Option<RunState>, RunState)

  /** `log` holds the transition rows written so far. */
  datatype Run = Run(
    requester: nat, call: Option<nat>, state: RunState, log: seq<Step>, node: Option<nat>,
    token: Token, commands: Commands, killedBy: Option<nat>, killedAt: Option<int>)

  function Requested(requester: nat, call: Option<nat>): Run {
    Run(requester, call, Queued, [(None, Queued)], None, NoToken, map[], None, None)
  }

  /** `transition` accepts the step. */
  predicate MayMove(from: RunState, to: RunState) {
    !Terminal(from) && (from == KillRequested ==> to == Killed)
  }

  function Move(r: Run, to: RunState): Run {
    r.(state := to, log := r.log + [(Some(r.state), to)])
  }

  /** `revoke_run_token` */
  function Revoke(t: Token): Token {
    if t == Live then Revoked else t
  }

  /** A command row is added only when the run has none for the operation. */
  function Enqueue(commands: Commands, op: Operation): Commands {
    if op in commands then commands else commands[op := Pending]
  }

  predicate Owns(r: Run, user: nat, expectedCall: Option<nat>) {
    r.requester == user && (expectedCall.Some? ==> r.call == expectedCall)
  }

  /** The run after `request_coding_kill` passed its checks. */
  function Stopped(r: Run): Run {
    var asked := if r.state == KillRequested then r else Move(r, KillRequested);
    if r.node.Some? then asked.(token := Revoke(r.token), commands := Enqueue(r.commands, Kill))
    else Move(asked, Killed).(token := Revoke(r.token))
  }

  /** What can happen to a run. `Advance`, `Place`, `Submit` and `KillDone` are the scheduler's steps, `Progress`
      and `Rotate` the executor's. */
  datatype Event =
    | CodingKill(user: nat, expectedCall: Option<nat>, now: int)
    | AdminKill(user: nat, now: int)
    | StopEvaluation
    | Advance(to: RunState)
    | KillDone
    | Place(node: nat)
    | Submit(operation: Operation)
    | Progress(operation: Operation, outcome: CommandState)
    | Rotate

  /** The step passes its checks; otherwise it raises or returns and leaves the run as it was. */
  predicate Enabled(r: Run, e: Event) {
    match e
    case CodingKill(user, expectedCall, _) => Owns(r, user, expectedCall) && !Terminal(r.state)
    case AdminKill(_, _) => !Terminal(r.state) && r.state != KillRequested
    case StopEvaluation => true
    case Advance(to) => to !in {KillRequested, Killed} && to != r.state && MayMove(r.state, to)
    case KillDone => r.state == KillRequested
    case Place(_) => !Terminal(r.state) && r.state != KillRequested && r.node.None?
    case Submit(op) =>
      && r.node.Some?
      && (r.state == KillRequested ==> op in {Kill, Remove})
      && (op == Kill ==> r.state in {KillRequested, Killed})
    case Progress(op, _) => op in r.commands
    case Rotate => r.state != KillRequested
  }

  function After(r: Run, e: Event): Run {
    if !Enabled(r, e) then r else
    match e
    case CodingKill(user, _, now) => Stopped(r).(killedBy := Some(user), killedAt := Some(now))
    case AdminKill(user, now) =>
      Move(r, KillRequested).(
        token := Revoke(r.token), commands := if r.node.Some? then Enqueue(r.commands, Kill) else r.commands,
        killedBy := Some(user), killedAt := Some(now))
    case StopEvaluation =>
      (if Terminal(r.state) || r.state == KillRequested then r else Move(r, KillRequested)).(token := Revoke(r.token))
    case Advance(to) => Move(r, to)
    case KillDone => Move(r, Killed)
    case Place(node) => r.(node := Some(node))
    case Submit(op) => r.(commands := Enqueue(r.commands, op))
    case Progress(op, outcome) => r.(commands := r.commands[op := outcome])
    case Rotate => r.(token := Live)
  }

  function AfterAll(r: Run, events: seq<Event>): Run {
    if events == [] then r else After(AfterAll(r, events[..|events| - 1]), events[|events| - 1])
  }

  /** The answer of `request_coding_kill`: whether the run is already stopped. */
  function Answer(r: Run, user: nat, expectedCall: Option<nat>): Result<bool> {
    if !Owns(r, user, expectedCall) then Err
    else if Terminal(r.state) then Ok(r.state == Killed)
    else Ok(r.node.None?)
  }

  /** The row as the code updates it in place. */
  class RunRow {
    const requester: nat
    const call: Option<nat>
    var state: RunState
    var log: seq<Step>
    var node: Option<nat>
    var token: Token
    var commands: Commands
    var killedBy: Option<nat>
    var killedAt: Option<int>

    function Value(): Run
      reads this
    {
      Run(requester, call, state, log, node, token, commands, killedBy, killedAt)
    }

    constructor (requester: nat, call: Option<nat>)
      ensures Value() == Requested(requester, call)
    {
      this.requester, this.call, state, log, node := requester, call, Queued, [(None, Queued)], None;
      token, commands, killedBy, killedAt := NoToken, map[], None, None;
    }

    method RevokeToken()
      modifies this`token
      ensures token == Revoke(old(token))
    {
      if token == Live {
        token := Revoked;
      }
    }

    method Transition(to: RunState) returns (ok: bool)
      modifies this`state, this`log
      ensures ok == (&& old(state) !in {Succeeded, Failed, ResultCollectionFailed, TimedOut, Killed}
                     && (old(state) == KillRequested ==> to == Killed))
      ensures Value() == if ok then Move(old(Value()), to) else old(Value())
    {
      if Terminal(state) || (state == KillRequested && to != Killed) {
        return false;
      }
      log := log + [(Some(state), to)];
      state := to;
      return true;
    }

    method RequestKill(user: nat, expectedCall: Option<nat>, now: int) returns (answer: Result<bool>)
      modifies this
      ensures answer == Answer(old(Value()), user, expectedCall)
      ensures Value() == After(old(Value()), CodingKill(user, expectedCall, now))
    {
      if requester != user || (expectedCall.Some? && call != expectedCall) {
        return Err;
      }
      if Terminal(state) {
        return Ok(state == Killed);
      }
      RevokeToken();
      if state != KillRequested {
        var _ := Transition(KillRequested);
      }
      if node.Some? {
        if Kill !in commands {
          commands := commands[Kill := Pending];
        }
      } else {
        var _ := Transition(Killed);
      }
      killedBy := Some(user);
      killedAt := Some(now);
      return Ok(node.None?);
    }

    method KillAsAdmin(user: nat, now: int)
      modifies this
      ensures Value() == After(old(Value()), AdminKill(user, now))
    {
      if Terminal(state) || state == KillRequested {
        return;
      }
      RevokeToken();
      var _ := Transition(KillRequested);
      if node.Some? && Kill !in commands {
        commands := commands[Kill := Pending];
      }
      killedBy := Some(user);
      killedAt := Some(now);
    }

    method StopForEvaluation()
      modifies this
      ensures Value() == After(old(Value()), StopEvaluation)
    {
      RevokeToken();
      if !Terminal(state) && state != KillRequested {
        var _ := Transition(KillRequested);
      }
    }

    /** `commit_run_placement`: whether the run needs no further placement. `coreWork` and `admitted` stand for what
        maintenance allows, and for the write qualification of the run's model. */
    method CommitPlacement(id: nat, coreWork: bool, admitted: bool) returns (settled: bool)
      modifies this
      ensures Value() == if coreWork && admitted then After(old(Value()), Place(id)) else old(Value())
      ensures node == if && coreWork && admitted && old(node).None?
                         && old(state) !in {Succeeded, Failed, ResultCollectionFailed, TimedOut, Killed, KillRequested}
                      then Some(id) else old(node)
      ensures settled <==>
              && coreWork
              && (|| old(state) in {Succeeded, Failed, ResultCollectionFailed, TimedOut, Killed, KillRequested}
                  || node.Some?)
    {
      if !coreWork {
        return false;
      }
      if Terminal(state) || state == KillRequested || node.Some? {
        return true;
      }
      if !admitted {
        return false;
      }
      node := Some(id);
      return true;
    }
  }

  // ----- What every history keeps -----

  /** The token is accepted by `verify_run_token`, as far as the run decides it. */
  predicate Accepted(r: Run) {
    r.token == Live && !Terminal(r.state) && r.state != KillRequested
  }

  lemma AcceptedIff(r: Run)
    ensures Accepted(r) <==>
            && r.token == Live
            && r.state !in {Succeeded, Failed, ResultCollectionFailed, TimedOut, Killed, KillRequested}
  {
  }

  predicate Killing(s: RunState) {
    s in {KillRequested, Killed}
  }

  ghost predicate Inv(r: Run) {
    && (r.state == KillRequested ==> r.token != Live)
    && (Kill in r.commands ==> Killing(r.state))
    && (r.commands != map[] ==> r.node.Some?)
    && Linked(r.log, r.state)
  }

  /** The transition rows form one unbroken path to the present state, and `transition` allows each. */
  ghost predicate Linked(log: seq<Step>, state: RunState) {
    if log == [] then false
    else if |log| == 1 then log[0] == (None, Queued) && state == Queued
    else
      var (from, to) := log[|log| - 1];
      to == state && from.Some? && MayMove(from.value, to) && Linked(log[..|log| - 1], from.value)
  }

  lemma MoveLinks(r: Run, to: RunState)
    requires Linked(r.log, r.state) && MayMove(r.state, to)
    ensures Linked(Move(r, to).log, to)
  {
    var log := Move(r, to).log;
    assert log[..|log| - 1] == r.log;
  }

  lemma StepKeepsInv(r: Run, e: Event)
    requires Inv(r)
    ensures Inv(After(r, e))
  {
    if Enabled(r, e) {
      match e {
        case CodingKill(_, _, _) =>
          StoppedLinks(r);
        case AdminKill(_, _) =>
          MoveLinks(r, KillRequested);
        case StopEvaluation =>
          if !Terminal(r.state) && r.state != KillRequested {
            MoveLinks(r, KillRequested);
          }
        case Advance(to) =>
          MoveLinks(r, to);
        case KillDone =>
          MoveLinks(r, Killed);
        case _ =>
      }
    }
  }

  lemma StoppedLinks(r: Run)
    requires Linked(r.log, r.state) && !Terminal(r.state)
    ensures Linked(Stopped(r).log, Stopped(r).state)
  {
    var asked := if r.state == KillRequested then r else Move(r, KillRequested);
    if r.state != KillRequested {
      MoveLinks(r, KillRequested);
    }
    MoveLinks(asked, Killed);
  }

  lemma {:induction false} InvAlways(requester: nat, call: Option<nat>, events: seq<Event>)
    ensures Inv(AfterAll(Requested(requester, call), events))
  {
    if events != [] {
      InvAlways(requester, call, events[..|events| - 1]);
      StepKeepsInv(AfterAll(Requested(requester, call), events[..|events| - 1]), events[|events| - 1]);
    }
  }

  /** In every history a kill command stands only on a placed run whose kill was requested, and while that kill is
      pending the run's token is revoked. */
  lemma KillCommandMeansRevoked(requester: nat, call: Option<nat>, events: seq<Event>)
    ensures var r := AfterAll(Requested(requester, call), events);
            Kill in r.commands ==>
              r.node.Some? && Killing(r.state) && !Accepted(r) && (r.state == KillRequested ==> r.token != Live)
  {
    InvAlways(requester, call, events);
  }

  lemma {:induction false} LoggedSteps(log: seq<Step>, state: RunState, k: nat)
    requires Linked(log, state) && k < |log|
    ensures if k == 0 then log[0] == (None, Queued) else log[k].0.Some? && MayMove(log[k].0.value, log[k].1)
    ensures if k + 1 < |log| then log[k + 1].0 == Some(log[k].1) else state == log[k].1
  {
    if k + 1 < |log| {
      var before := log[..|log| - 1];
      LoggedSteps(before, log[|log| - 1].0.value, k);
      assert log[k] == before[k];
      assert k + 1 < |before| ==> log[k + 1] == before[k + 1];
    }
  }

  /** In every history the transition log is one path: its first row begins with nothing and ends at queued, each
      other row begins where the one before it ended, the last ends at the present state, none leaves a terminal
      state, and only a kill leaves a requested kill. */
  lemma LogIsOnePath(requester: nat, call: Option<nat>, events: seq<Event>, k: nat)
    requires k < |AfterAll(Requested(requester, call), events).log|
    ensures var r := AfterAll(Requested(requester, call), events);
            && r.log[0] == (None, Queued)
            && (k > 0 ==>
                  && r.log[k].0.Some?
                  && r.log[k].0.value !in {Succeeded, Failed, ResultCollectionFailed, TimedOut, Killed}
                  && (r.log[k].0.value == KillRequested ==> r.log[k].1 == Killed))
            && (if k + 1 < |r.log| then r.log[k + 1].0 == Some(r.log[k].1) else r.state == r.log[k].1)
  {
    InvAlways(requester, call, events);
    var r := AfterAll(Requested(requester, call), events);
    LoggedSteps(r.log, r.state, 0);
    LoggedSteps(r.log, r.state, k);
  }

  lemma StepIsMonotone(r: Run, e: Event)
    ensures Terminal(r.state) ==> After(r, e).state == r.state && After(r, e).log == r.log
    ensures Killing(r.state) ==> Killing(After(r, e).state)
    ensures r.commands.Keys <= After(r, e).commands.Keys
    ensures r.node.Some? ==> After(r, e).node == r.node
    ensures r.log <= After(r, e).log
  {
  }

  /** Over any further events: a terminal run keeps its state and log, a requested kill can only end in a kill,
      and no command, placement or logged transition is lost. */
  lemma {:induction false} KillIsFinal(r: Run, events: seq<Event>)
    ensures var q := AfterAll(r, events);
            && (r.state in {Succeeded, Failed, ResultCollectionFailed, TimedOut, Killed} ==>
                  q.state == r.state && q.log == r.log)
            && (r.state in {KillRequested, Killed} ==> q.state in {KillRequested, Killed})
            && r.commands.Keys <= q.commands.Keys
            && (r.node.Some? ==> q.node == r.node)
            && r.log <= q.log
  {
    if events != [] {
      KillIsFinal(r, events[..|events| - 1]);
      StepIsMonotone(AfterAll(r, events[..|events| - 1]), events[|events| - 1]);
    }
  }

  /** After its owner's kill request a live run's token is never accepted again, whatever happens next. */
  lemma KilledTokenIsDead(r: Run, user: nat, expectedCall: Option<nat>, now: int, events: seq<Event>)
    requires Owns(r, user, expectedCall) && !Terminal(r.state)
    ensures var q := AfterAll(After(r, CodingKill(user, expectedCall, now)), events);
            !Accepted(q) && q.state in {KillRequested, Killed}
  {
    KillIsFinal(After(r, CodingKill(user, expectedCall, now)), events);
  }

  /** Repeating a kill gives the same answer and changes nothing but the time it was asked at. */
  lemma KillIsIdempotent(r: Run, user: nat, expectedCall: Option<nat>, now: int, again: int)
    ensures var k := After(r, CodingKill(user, expectedCall, now));
            var l := After(k, CodingKill(user, expectedCall, again));
            l.(killedAt := k.killedAt) == k && Answer(k, user, expectedCall) == Answer(r, user, expectedCall)
  {
  }

  /** A second kill never touches the command an earlier one queued, however far it has gone. */
  lemma KillKeepsCommands(r: Run, user: nat, expectedCall: Option<nat>, now: int, op: Operation)
    ensures var k := After(r, CodingKill(user, expectedCall, now));
            && (op in r.commands ==> op in k.commands && k.commands[op] == r.commands[op])
            && (op in k.commands && op !in r.commands ==> op == Kill && r.node.Some? && k.token != Live)
  {
  }

  // ----- What a kill leaves -----

  /** The run's command for its node: pending if it was not there, as it was otherwise. */
  predicate Tells(before: Commands, after: Commands) {
    && Kill in after && after - {Kill} == before - {Kill}
    && after[Kill] == if Kill in before then before[Kill] else Pending
  }

  /** The log gained the request, unless it was made before. */
  function Logged(r: Run): seq<Step> {
    r.log + if r.state == KillRequested then [] else [(Some(r.state), KillRequested)]
  }

  /** The owner's kill of a live run: a placed run waits for its node, which is told, and an unplaced one is killed. */
  lemma OwnerKills(r: Run, user: nat, expectedCall: Option<nat>, now: int)
    requires r.requester == user && (expectedCall.Some? ==> r.call == expectedCall)
    requires r.state !in {Succeeded, Failed, ResultCollectionFailed, TimedOut, Killed}
    ensures var k := After(r, CodingKill(user, expectedCall, now));
            && k.token == (if r.token == Live then Revoked else r.token)
            && (k.killedBy, k.killedAt) == (Some(user), Some(now))
            && Answer(r, user, expectedCall) == Ok(r.node.None?)
            && if r.node.Some?
               then k.state == KillRequested && Tells(r.commands, k.commands) && k.log == Logged(r)
               else && k.state == Killed && k.commands == r.commands
                    && k.log == Logged(r) + [(Some(KillRequested), Killed)]
  {
  }

  /** Nobody else's kill, and no kill of an ended run, changes anything; the answer says which it was. */
  lemma OthersKillNothing(r: Run, user: nat, expectedCall: Option<nat>, now: int)
    requires || r.requester != user || (expectedCall.Some? && r.call != expectedCall)
             || r.state in {Succeeded, Failed, ResultCollectionFailed, TimedOut, Killed}
    ensures After(r, CodingKill(user, expectedCall, now)) == r
    ensures Answer(r, user, expectedCall) ==
            if r.requester != user || (expectedCall.Some? && r.call != expectedCall) then Err else Ok(r.state == Killed)
  {
  }

  /** The administrator's kill of a run that is neither ended nor being killed. */
  lemma AdministratorKills(r: Run, user: nat, now: int)
    requires r.state !in {Succeeded, Failed, ResultCollectionFailed, TimedOut, Killed, KillRequested}
    ensures var k := After(r, AdminKill(user, now));
            && k.state == KillRequested && k.token == (if r.token == Live then Revoked else r.token)
            && (k.killedBy, k.killedAt) == (Some(user), Some(now))
            && k.log == r.log + [(Some(r.state), KillRequested)]
            && if r.node.Some? then Tells(r.commands, k.commands) else k.commands == r.commands
  {
  }

  /** The stop of an evaluation: the token is dead whatever the run's state, and a live run is asked to stop. */
  lemma EvaluationStops(r: Run)
    ensures var k := After(r, StopEvaluation);
            && k.token == (if r.token == Live then Revoked else r.token)
            && k.commands == r.commands && (k.killedBy, k.killedAt) == (r.killedBy, r.killedAt)
            && if r.state in {Succeeded, Failed, ResultCollectionFailed, TimedOut, Killed, KillRequested}
               then k.state == r.state && k.log == r.log
               else k.state == KillRequested && k.log == r.log + [(Some(r.state), KillRequested)]
  {
  }

  /** The scheduler's steps: it moves a run on but never to a kill of its own, places it once, and while a kill is
      requested hands its node nothing but the kill and the removal. */
  lemma SchedulerSteps(r: Run, to: RunState, node: nat, op: Operation)
    ensures Enabled(r, Advance(to)) <==>
            && r.state !in {Succeeded, Failed, ResultCollectionFailed, TimedOut, Killed, KillRequested}
            && to !in {KillRequested, Killed} && to != r.state
    ensures After(r, Place(node)) ==
            if r.node.None? && r.state !in {Succeeded, Failed, ResultCollectionFailed, TimedOut, Killed, KillRequested}
            then r.(node := Some(node)) else r
    ensures Enabled(r, Submit(op)) <==>
            && r.node.Some? && (r.state == KillRequested ==> op == Kill || op == Remove)
            && (op == Kill ==> r.state == KillRequested || r.state == Killed)
    ensures After(r, Rotate) == if r.state == KillRequested then r else r.(token := Live)
  {
  }

  /** Once its owner or an administrator has killed a placed run, the command to its node is there for ever. */
  lemma KillReachesNode(r: Run, e: Event, events: seq<Event>)
    requires e.CodingKill? || e.AdminKill?
    requires Enabled(r, e) && r.node.Some?
    ensures var q := AfterAll(After(r, e), events);
            Kill in q.commands && q.node == r.node && q.state in {KillRequested, Killed}
  {
    KillIsFinal(After(r, e), events);
  }
}
