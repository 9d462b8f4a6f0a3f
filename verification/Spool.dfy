/** The bounded activity spool of `activity.py`, against the unbounded list of everything recorded. */
module Spool {
  import opened Wrappers

  const MARKER_RESERVE := 512
  const MAX_RECORDS := 10_000

  datatype Tool =
    | ReadFile | ModelGeneration | ApplyPatch | RunTests | BranchBundle | ActivitySpoolTool | Foreign(name: string)

  datatype Progress = Started | Completed | Failed

  datatype SafeError = OperationFailed | LimitReached | OtherError(text: string)

  /** A receipt without its sequence number. */
  datatype Body = Body(
    tool: Tool, progress: Progress, callId: Option<nat>, createdAt: int, durationMs: Option<nat>,
    safeError: Option<SafeError>)

  datatype Activity = Activity(sequence: nat, body: Body)

  predicate AllowedTool(tool: Tool) {
    !tool.ActivitySpoolTool? && !tool.Foreign?
  }

  predicate Allowed(b: Body) {
    AllowedTool(b.tool) && (b.safeError.None? || b.safeError == Some(OperationFailed))
  }

  function Marker(now: int): Body {
    Body(ActivitySpoolTool, Failed, None, now, None, Some(LimitReached))
  }

  /** The encoder and the two limits of a spool. */
  datatype Config = Config(encode: Activity -> seq<nat>, maxBytes: nat, maxRecords: nat)

  function Payload(c: Config, a: Activity): seq<nat> {
    c.encode(a) + [10]
  }

  /** The file that holds `bodies` as receipts numbered from one. */
  function Bytes(c: Config, bodies: seq<Body>): seq<nat> {
    if bodies == [] then []
    else Bytes(c, bodies[..|bodies| - 1]) + Payload(c, Activity(|bodies|, bodies[|bodies| - 1]))
  }

  lemma BytesAppend(c: Config, bodies: seq<Body>, b: Body)
    ensures Bytes(c, bodies + [b]) == Bytes(c, bodies) + Payload(c, Activity(|bodies| + 1, b))
  {
    assert (bodies + [b])[..|bodies|] == bodies;
  }

  /** The file is the encodings of the receipts, numbered from one, each ended by a line feed. */
  lemma LineOf(c: Config, bodies: seq<Body>, i: nat)
    requires i < |bodies|
    ensures Bytes(c, bodies[..i + 1]) == Bytes(c, bodies[..i]) + c.encode(Activity(i + 1, bodies[i])) + [10]
    ensures Bytes(c, bodies[..0]) == []
  {
    assert bodies[..i + 1] == bodies[..i] + [bodies[i]];
    BytesAppend(c, bodies[..i], bodies[i]);
    assert Bytes(c, bodies[..i]) + (c.encode(Activity(i + 1, bodies[i])) + [10]) ==
           Bytes(c, bodies[..i]) + c.encode(Activity(i + 1, bodies[i])) + [10];
  }

  // ----- The unbounded specification -----

  /** There is room for `next` after `bodies`, and still room for a marker after it. */
  predicate HasRoom(c: Config, bodies: seq<Body>, next: Body) {
    && |bodies| + 1 < c.maxRecords
    && |Bytes(c, bodies)| + |Payload(c, Activity(|bodies| + 1, next))| + MARKER_RESERVE <= c.maxBytes
  }

  /** Room is what leaves one more record and 512 bytes for the marker. */
  lemma RoomIff(c: Config, bodies: seq<Body>, next: Body)
    ensures HasRoom(c, bodies, next) <==>
            |bodies + [next]| + 1 <= c.maxRecords && |Bytes(c, bodies + [next])| + 512 <= c.maxBytes
  {
    BytesAppend(c, bodies, next);
  }

  predicate RoomAt(c: Config, requests: seq<Body>, k: nat)
    requires k < |requests|
  {
    HasRoom(c, requests[..k], requests[k])
  }

  /** The first `n` requests are kept: the longest prefix whose receipts all had room when they came. */
  ghost predicate Keeps(c: Config, requests: seq<Body>, n: nat) {
    && n <= |requests|
    && (forall k: nat | k < n :: RoomAt(c, requests, k))
    && (n < |requests| ==> !RoomAt(c, requests, n))
  }

  lemma KeepsOnce(c: Config, requests: seq<Body>, n: nat, m: nat)
    requires Keeps(c, requests, n) && Keeps(c, requests, m)
    ensures n == m
  {
  }

  lemma RoomAtInLonger(c: Config, requests: seq<Body>, b: Body, k: nat)
    requires k < |requests|
    ensures RoomAt(c, requests + [b], k) == RoomAt(c, requests, k)
  {
    assert (requests + [b])[..k] == requests[..k];
  }

  lemma RoomAtEnd(c: Config, requests: seq<Body>, b: Body)
    ensures RoomAt(c, requests + [b], |requests|) == HasRoom(c, requests, b)
  {
    assert (requests + [b])[..|requests|] == requests;
  }

  /** What one more request does to the kept prefix. */
  lemma KeepsNext(c: Config, requests: seq<Body>, b: Body, n: nat)
    requires Keeps(c, requests, n)
    ensures Keeps(c, requests + [b], if n == |requests| && HasRoom(c, requests, b) then n + 1 else n)
  {
    RoomAtEnd(c, requests, b);
    forall k: nat | k < |requests|
      ensures RoomAt(c, requests + [b], k) == RoomAt(c, requests, k)
    {
      RoomAtInLonger(c, requests, b, k);
    }
  }

  /** There always is a longest such prefix. */
  lemma {:induction false} KeepsSome(c: Config, requests: seq<Body>) returns (n: nat)
    ensures Keeps(c, requests, n)
  {
    if requests == [] {
      n := 0;
    } else {
      var m := |requests| - 1;
      n := KeepsSome(c, requests[..m]);
      KeepsNext(c, requests[..m], requests[m], n);
      assert requests == requests[..m] + [requests[m]];
      if n == m && HasRoom(c, requests[..m], requests[m]) {
        n := n + 1;
      }
    }
  }

  /** What the file holds when the first `n` requests are kept: these, then one marker if any was refused. */
  function Log(requests: seq<Body>, n: nat, markerAt: int): seq<Body>
    requires n <= |requests|
  {
    requests[..n] + if n < |requests| then [Marker(markerAt)] else []
  }

  /** A marker fits the reserve at every number a record may carry. */
  ghost predicate MarkerFits(c: Config) {
    forall n: nat, now: int | 1 <= n <= c.maxRecords :: |Payload(c, Activity(n, Marker(now)))| <= MARKER_RESERVE
  }

  predicate LimitsValid(c: Config) {
    c.maxBytes >= 2048 && 2 <= c.maxRecords <= MAX_RECORDS
  }

  /** The kept prefix always leaves the reserve and one record free. */
  lemma KeptFits(c: Config, requests: seq<Body>, n: nat)
    requires LimitsValid(c) && Keeps(c, requests, n)
    ensures |Bytes(c, requests[..n])| + MARKER_RESERVE <= c.maxBytes
    ensures n < c.maxRecords
  {
    if n > 0 {
      var k: nat := n - 1;
      assert RoomAt(c, requests, k);
      assert requests[..n] == requests[..k] + [requests[k]];
      BytesAppend(c, requests[..k], requests[k]);
    }
  }

  /** Whatever is recorded, the file stays within both limits. */
  lemma LogWithinLimits(c: Config, requests: seq<Body>, n: nat, markerAt: int)
    requires LimitsValid(c) && MarkerFits(c) && Keeps(c, requests, n)
    ensures |Log(requests, n, markerAt)| <= c.maxRecords
    ensures |Bytes(c, Log(requests, n, markerAt))| <= c.maxBytes
  {
    KeptFits(c, requests, n);
    if n < |requests| {
      BytesAppend(c, requests[..n], Marker(markerAt));
    } else {
      assert Log(requests, n, markerAt) == requests[..n];
    }
  }

  // ----- Nested steps -----

  /** One use of `step`: what ran inside it, and whether it left by an exception. */
  datatype Step = Step(
    tool: Tool, callId: nat, startedAt: int, children: seq<Step>, endedAt: int, durationMs: nat, failed: bool)

  function StartOf(s: Step): Body {
    Body(s.tool, Started, Some(s.callId), s.startedAt, None, None)
  }

  function EndOf(s: Step): Body {
    Body(s.tool, if s.failed then Failed else Completed, Some(s.callId), s.endedAt, Some(s.durationMs),
         if s.failed then Some(OperationFailed) else None)
  }

  /** The receipts a step records; a tool that is not allowed raises before anything is recorded. */
  function Receipts(s: Step): seq<Body>
    decreases s, 0
  {
    if AllowedTool(s.tool) then [StartOf(s)] + ReceiptsOf(s.children) + [EndOf(s)] else []
  }

  function ReceiptsOf(steps: seq<Step>): seq<Body>
    decreases steps, 1
  {
    if steps == [] then [] else Receipts(steps[0]) + ReceiptsOf(steps[1..])
  }

  /** The receipts of a step, spelled out: a start, what its children record, and an end that says how it left. */
  lemma ReceiptsAre(s: Step)
    requires s.tool !in {ActivitySpoolTool} && !s.tool.Foreign?
    ensures Receipts(s) ==
            [Body(s.tool, Started, Some(s.callId), s.startedAt, None, None)]
            + ReceiptsOf(s.children)
            + [if s.failed
               then Body(s.tool, Failed, Some(s.callId), s.endedAt, Some(s.durationMs), Some(OperationFailed))
               else Body(s.tool, Completed, Some(s.callId), s.endedAt, Some(s.durationMs), None)]
  {
  }

  /** Which receipts a caller may record, and what the spool records of its own. */
  lemma AllowedIff(b: Body, now: int)
    ensures Allowed(b) <==>
            && b.tool in {ReadFile, ModelGeneration, ApplyPatch, RunTests, BranchBundle}
            && b.safeError in {None, Some(OperationFailed)}
    ensures Marker(now) == Body(ActivitySpoolTool, Failed, None, now, None, Some(LimitReached))
  {
  }

  /** Nothing a step records is ever refused as not allowed. */
  lemma {:induction false} ReceiptsAllowed(s: Step)
    ensures forall i | 0 <= i < |Receipts(s)| :: Allowed(Receipts(s)[i])
    decreases s, 0
  {
    AllReceiptsAllowed(s.children);
  }

  lemma {:induction false} AllReceiptsAllowed(steps: seq<Step>)
    ensures forall i | 0 <= i < |ReceiptsOf(steps)| :: Allowed(ReceiptsOf(steps)[i])
    decreases steps, 1
  {
    if steps != [] {
      ReceiptsAllowed(steps[0]);
      AllReceiptsAllowed(steps[1..]);
    }
  }

  /** Reads receipts against a stack of open calls; `None` when an end does not match the last open start. */
  function Bracket(open: seq<nat>, bodies: seq<Body>): Option<seq<nat>>
    decreases |bodies|
  {
    if bodies == [] then Some(open)
    else if bodies[0].callId.None? then None
    else
      var id := bodies[0].callId.value;
      if bodies[0].progress == Started then Bracket(open + [id], bodies[1..])
      else if open != [] && open[|open| - 1] == id then Bracket(open[..|open| - 1], bodies[1..])
      else None
  }

  lemma {:induction false} BracketAppend(open: seq<nat>, a: seq<Body>, b: seq<Body>)
    ensures Bracket(open, a + b) ==
            match Bracket(open, a)
            case None => None
            case Some(left) => Bracket(left, b)
    decreases |a|
  {
    if a == [] {
      assert a + b == b;
    } else {
      assert (a + b)[1..] == a[1..] + b;
      if a[0].callId.Some? {
        if a[0].progress == Started {
          BracketAppend(open + [a[0].callId.value], a[1..], b);
        } else if open != [] {
          BracketAppend(open[..|open| - 1], a[1..], b);
        }
      }
    }
  }

  lemma {:induction false} StepIsBracketed(open: seq<nat>, s: Step)
    ensures Bracket(open, Receipts(s)) == Some(open)
    decreases s, 0
  {
    if AllowedTool(s.tool) {
      var inside := ReceiptsOf(s.children);
      BracketAppend(open, [StartOf(s)] + inside, [EndOf(s)]);
      BracketAppend(open, [StartOf(s)], inside);
      StepsAreBracketed(open + [s.callId], s.children);
    }
  }

  /** Nested and successive steps record a well bracketed list, whatever fails in them. */
  lemma {:induction false} StepsAreBracketed(open: seq<nat>, steps: seq<Step>)
    ensures Bracket(open, ReceiptsOf(steps)) == Some(open)
    decreases steps, 1
  {
    if steps != [] {
      BracketAppend(open, Receipts(steps[0]), ReceiptsOf(steps[1..]));
      StepIsBracketed(open, steps[0]);
      StepsAreBracketed(open, steps[1..]);
    }
  }

  /** The file of a run of steps: bracketed by call id when nothing was refused; otherwise a marker ends a
      prefix of the bracketed list. */
  lemma SpooledSteps(c: Config, steps: seq<Step>, n: nat, markerAt: int)
    requires Keeps(c, ReceiptsOf(steps), n)
    ensures var requests, log := ReceiptsOf(steps), Log(ReceiptsOf(steps), n, markerAt);
            if n == |requests| then log == requests && Bracket([], log) == Some([])
            else log == requests[..n] + [Marker(markerAt)] && Bracket([], requests[..n]).Some?
  {
    var requests := ReceiptsOf(steps);
    StepsAreBracketed([], steps);
    if n == |requests| {
      assert Log(requests, n, markerAt) == requests;
    } else {
      assert requests == requests[..n] + requests[n..];
      BracketAppend([], requests[..n], requests[n..]);
    }
  }

  // ----- The spool -----

  class ActivitySpool {
    const config: Config
    var sequence: nat
    var bytesWritten: nat
    var truncated: bool
    var file: seq<nat>
    ghost var requests: seq<Body>  // every allowed receipt, in order
    ghost var kept: nat            // how many of them the file holds
    ghost var markerAt: int

    ghost predicate Valid()
      reads this
    {
      && LimitsValid(config) && MarkerFits(config) && Keeps(config, requests, kept)
      && file == Bytes(config, Log(requests, kept, markerAt))
      && sequence == |Log(requests, kept, markerAt)|
      && bytesWritten == |file|
      && truncated == (kept < |requests|)
    }

    /** A new spool over a file that does not exist yet. */
    constructor (config: Config)
      requires LimitsValid(config) && MarkerFits(config)
      ensures Valid() && fresh(this) && this.config == config && requests == [] && file == []
    {
      this.config, sequence, bytesWritten, truncated, file := config, 0, 0, false, [];
      requests, kept, markerAt := [], 0, 0;
    }

    /** `ActivitySpool(...)`: refuses limits that leave no room for a marker. */
    static method Open(config: Config) returns (spool: Option<ActivitySpool>)
      requires MarkerFits(config)
      ensures spool.Some? <==> config.maxBytes >= 2048 && 2 <= config.maxRecords <= 10_000
      ensures spool.Some? ==> fresh(spool.value) && spool.value.Valid()
      ensures spool.Some? ==> spool.value.requests == [] && spool.value.config == config
    {
      if !LimitsValid(config) {
        return None;
      }
      var created := new ActivitySpool(config);
      return Some(created);
    }

    /** `_write`: appends the payload piece by piece, unless it would pass the byte limit. */
    method Write(record: Activity) returns (ok: bool)
      modifies this`sequence, this`bytesWritten, this`file
      ensures ok == (|old(file)| + |Payload(config, record)| <= config.maxBytes)
      ensures file == if ok then old(file) + Payload(config, record) else old(file)
      ensures sequence == if ok then record.sequence else old(sequence)
      ensures bytesWritten == if ok then old(bytesWritten) + |Payload(config, record)| else old(bytesWritten)
    {
      var payload := Payload(config, record);
      if |file| + |payload| > config.maxBytes {
        return false;
      }
      var view := payload;
      while view != []
        invariant |view| <= |payload| && view == payload[|payload| - |view|..]
        invariant file == old(file) + payload[..|payload| - |view|]
        invariant sequence == old(sequence) && bytesWritten == old(bytesWritten)
        decreases |view|
      {
        var written :| 1 <= written <= |view|; // os.write may write less than it was given
        assert payload[..|payload| - |view| + written] == payload[..|payload| - |view|] + view[..written];
        file := file + view[..written];
        view := view[written..];
      }
      sequence := record.sequence;
      bytesWritten := bytesWritten + |payload|;
      return true;
    }

    /** `record`; `now` is the clock when a marker is due. An allowed receipt is never an error. */
    method Record(body: Body, now: int) returns (ok: bool)
      requires Valid()
      modifies this
      ensures Valid()
      ensures ok == Allowed(body)
      ensures requests == if ok then old(requests) + [body] else old(requests)
      ensures !ok || old(truncated) ==> file == old(file)
    {
      if !Allowed(body) {
        return false;
      }
      KeepsNext(config, requests, body, kept);
      if truncated {
        LogDrops(requests, body, kept, markerAt);
        requests := requests + [body];
        return true;
      }
      LogIsAll(requests, markerAt);
      var record := Activity(sequence + 1, body);
      var length := |Payload(config, record)|;
      if sequence + 1 >= config.maxRecords || bytesWritten + length + MARKER_RESERVE > config.maxBytes {
        Overflow(body, now);
      } else {
        Keep(record);
      }
      return true;
    }

    /** The receipt has room: it is written. */
    method Keep(record: Activity)
      requires Valid() && !truncated && HasRoom(config, requests, record.body) && record.sequence == sequence + 1
      modifies this
      ensures Valid() && !truncated
      ensures requests == old(requests) + [record.body]
      ensures file == old(file) + Payload(config, record)
    {
      KeepsNext(config, requests, record.body, kept);
      LogIsAll(requests, markerAt);
      LogIsAll(requests + [record.body], markerAt);
      BytesAppend(config, requests, record.body);
      var written := Write(record);
      requests, kept := requests + [record.body], kept + 1;
    }

    /** `_overflow`, on the first receipt that has no room: the marker is always written. */
    method Overflow(ghost body: Body, now: int)
      requires Valid() && !truncated && !HasRoom(config, requests, body)
      modifies this
      ensures Valid() && truncated
      ensures requests == old(requests) + [body]
      ensures file == old(file) + Payload(config, Activity(old(sequence) + 1, Marker(now)))
    {
      KeepsNext(config, requests, body, kept);
      LogIsAll(requests, markerAt);
      LogMarks(requests, body, now);
      BytesAppend(config, requests, Marker(now));
      KeptFits(config, requests, kept);
      assert requests[..kept] == requests;
      var marker := Activity(sequence + 1, Marker(now));
      truncated := true;
      var written := Write(marker);
      requests, markerAt := requests + [body], now;
    }

    /** Any run of calls, each with its own clock reading: the spool reflects all of them, in order. */
    method RecordAll(bodies: seq<Body>, clock: seq<int>)
      requires Valid() && |clock| == |bodies| && forall i | 0 <= i < |bodies| :: Allowed(bodies[i])
      modifies this
      ensures Valid() && requests == old(requests) + bodies
      decreases |bodies|
    {
      if bodies != [] {
        var recorded := Record(bodies[0], clock[0]);
        RecordAll(bodies[1..], clock[1..]);
        assert old(requests) + [bodies[0]] + bodies[1..] == old(requests) + bodies;
      } else {
        assert old(requests) + bodies == old(requests);
      }
    }
  }

  lemma LogIsAll(requests: seq<Body>, markerAt: int)
    ensures Log(requests, |requests|, markerAt) == requests
  {
  }

  lemma LogMarks(requests: seq<Body>, b: Body, markerAt: int)
    ensures Log(requests + [b], |requests|, markerAt) == requests + [Marker(markerAt)]
  {
  }

  lemma LogDrops(requests: seq<Body>, b: Body, n: nat, markerAt: int)
    requires n < |requests|
    ensures Log(requests + [b], n, markerAt) == Log(requests, n, markerAt)
  {
    assert (requests + [b])[..n] == requests[..n];
  }
}
