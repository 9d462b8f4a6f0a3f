/** The lifecycle of an MCP coding call in `mcp_calls.py`. */
module Calls {
  import opened Wrappers

  datatype Tool = Research | Plan | ApplyTool

  datatype CallState = Accepted | Preparing | Queued | Running | Collecting | Succeeded | Failed | TimedOut | Cancelled

  predicate Ended(s: CallState) {
    s in {Succeeded, Failed, TimedOut, Cancelled}
  }

  /** A typed result names the run that produced it. */
  datatype Document = Document(tool: Tool, run: nat, content: string)

  /** `visualInputs` says whether the stored input still holds the visual inputs. */
  datatype Call = Call(
    tool: Tool, state: CallState, run: Option<nat>, result: Option<Document>,
    visualInputs: bool, failureCode: Option<string>, finishedAt: Option<int>)

  /** `create_coding_call` */
  function Created(tool: Tool, visualInputs: bool): Call {
    Call(tool, Accepted, None, None, visualInputs, None, None)
  }

  /** One request on a call; the code applies each in its own flush. */
  datatype Request =
    | AttachRun(run: nat)
    | StoreResult(document: Document, at: int)
    | FailCall(state: CallState, code: string, when: int)

  predicate Refuses(c: Call, r: Request) {
    match r
    case AttachRun(_) => c.state !in {Accepted, Preparing} || c.run.Some?
    case StoreResult(d, _) => Ended(c.state) || c.run != Some(d.run) || c.tool != d.tool
    case FailCall(s, _, _) => s !in {Failed, TimedOut, Cancelled} || c.state == Succeeded
  }

  function First64(s: string): string {
    if |s| <= 64 then s else s[..64]
  }

  /** The row after a request; a refused one raises and leaves it as it was. */
  function After(c: Call, r: Request): Call {
    if Refuses(c, r) then c else
    match r
    case AttachRun(run) => c.(run := Some(run), state := Queued)
    case StoreResult(d, at) => c.(result := Some(d), visualInputs := false, state := Succeeded, finishedAt := Some(at))
    case FailCall(s, code, when) =>
      c.(state := s, visualInputs := false, failureCode := Some(First64(code)), finishedAt := Some(when))
  }

  function AfterAll(c: Call, requests: seq<Request>): Call {
    if requests == [] then c else After(AfterAll(c, requests[..|requests| - 1]), requests[|requests| - 1])
  }

  /** The row as the code updates it in place. */
  class CallRow {
    const tool: Tool
    var state: CallState
    var run: Option<nat>
    var result: Option<Document>
    var visualInputs: bool
    var failureCode: Option<string>
    var finishedAt: Option<int>

    function Value(): Call
      reads this
    {
      Call(tool, state, run, result, visualInputs, failureCode, finishedAt)
    }

    constructor (tool: Tool, visualInputs: bool)
      ensures Value() == Created(tool, visualInputs)
    {
      this.tool, state, run, result, this.visualInputs := tool, Accepted, None, None, visualInputs;
      failureCode, finishedAt := None, None;
    }

    /** What `create_run` does with the call a run was prepared for; `matching` stands for the checks of its owner,
        model, profile and task class. */
    method Bind(runId: nat, matching: bool) returns (ok: bool)
      modifies this
      ensures ok ==> matching && old(state) == Accepted && !Refuses(old(Value()), AttachRun(runId))
      ensures Value() == if ok then After(old(Value()), AttachRun(runId)) else old(Value())
      ensures matching && old(state) == Accepted && old(run).None? ==> ok
    {
      if !matching || state != Accepted || run.Some? {
        return false;
      }
      run := Some(runId);
      state := Queued;
      return true;
    }

    /** `attach_run`, which also takes a call that is preparing. */
    method Attach(runId: nat) returns (ok: bool)
      modifies this
      ensures ok == !Refuses(old(Value()), AttachRun(runId))
      ensures Value() == After(old(Value()), AttachRun(runId))
    {
      if (state != Accepted && state != Preparing) || run.Some? {
        return false;
      }
      run := Some(runId);
      state := Queued;
      return true;
    }

    method Store(document: Document, now: int) returns (ok: bool)
      modifies this
      ensures ok == !Refuses(old(Value()), StoreResult(document, now))
      ensures Value() == After(old(Value()), StoreResult(document, now))
    {
      if Ended(state) || run != Some(document.run) || tool != document.tool {
        return false;
      }
      result := Some(document);
      visualInputs := false;
      state := Succeeded;
      finishedAt := Some(now);
      return true;
    }

    method Fail(to: CallState, code: string, now: int) returns (ok: bool)
      modifies this
      ensures ok == !Refuses(old(Value()), FailCall(to, code, now))
      ensures Value() == After(old(Value()), FailCall(to, code, now))
    {
      if (to != Failed && to != TimedOut && to != Cancelled) || state == Succeeded {
        return false;
      }
      state := to;
      visualInputs := false;
      failureCode := Some(First64(code));
      finishedAt := Some(now);
      return true;
    }
  }

  /** What every history keeps of a call. */
  predicate Lawful(c: Call) {
    && (c.result.Some? <==> c.state == Succeeded)
    && (c.result.Some? ==> c.result.value.tool == c.tool && c.run == Some(c.result.value.run))
    && (c.state in {Succeeded, Failed, TimedOut, Cancelled} ==> !c.visualInputs)
    && (c.finishedAt.Some? <==> c.state in {Succeeded, Failed, TimedOut, Cancelled})
    && (c.failureCode.Some? <==> c.state in {Failed, TimedOut, Cancelled})
    && (c.failureCode.Some? ==> |c.failureCode.value| <= 64)
  }

  /** Any interleaving of attach, store and fail keeps the call lawful. */
  lemma {:induction false} CallsAreLawful(tool: Tool, visualInputs: bool, requests: seq<Request>)
    ensures Lawful(AfterAll(Created(tool, visualInputs), requests))
    ensures AfterAll(Created(tool, visualInputs), requests).tool == tool
  {
    if requests != [] {
      CallsAreLawful(tool, visualInputs, requests[..|requests| - 1]);
    }
  }

  /** Later requests never change a succeeded call, never rebind a run, and never revive an ended call. */
  lemma {:induction false} CallsAreMonotone(c: Call, requests: seq<Request>)
    ensures c.state == Succeeded ==> AfterAll(c, requests) == c
    ensures c.run.Some? ==> AfterAll(c, requests).run == c.run
    ensures c.state in {Succeeded, Failed, TimedOut, Cancelled} ==>
              AfterAll(c, requests).state in {Succeeded, Failed, TimedOut, Cancelled}
    ensures c.state in {Failed, TimedOut, Cancelled} ==> AfterAll(c, requests).state != Succeeded
  {
    if requests != [] {
      CallsAreMonotone(c, requests[..|requests| - 1]);
    }
  }

  /** `get_owned_result` */
  function ResultOf(c: Call, expected: Tool): Result<Document> {
    if c.state != Succeeded || c.result.None? || expected != c.tool then Err else Ok(c.result.value)
  }

  /** In every history a result can be read exactly when the call succeeded, as its own tool, and it is the
      result of the call's own run. */
  lemma ResultIsReadableIff(tool: Tool, visualInputs: bool, requests: seq<Request>, expected: Tool)
    ensures var c := AfterAll(Created(tool, visualInputs), requests);
            && (ResultOf(c, expected).Ok? <==> c.state == Succeeded && expected == tool)
            && (ResultOf(c, expected).Ok? ==> c.run == Some(ResultOf(c, expected).value.run))
  {
    CallsAreLawful(tool, visualInputs, requests);
  }

  // ----- Each request, spelled out -----

  lemma AttachedIff(c: Call, run: nat)
    ensures if c.state in {Accepted, Preparing} && c.run.None?
            then After(c, AttachRun(run)) == c.(run := Some(run), state := Queued)
            else Refuses(c, AttachRun(run)) && After(c, AttachRun(run)) == c
  {
  }

  lemma StoredIff(c: Call, d: Document, at: int)
    ensures if c.state !in {Succeeded, Failed, TimedOut, Cancelled} && c.run == Some(d.run) && c.tool == d.tool
            then After(c, StoreResult(d, at)) ==
                 c.(result := Some(d), state := Succeeded, visualInputs := false, finishedAt := Some(at))
            else Refuses(c, StoreResult(d, at)) && After(c, StoreResult(d, at)) == c
  {
  }

  /** The code of a failure is kept up to its sixty-fourth character. */
  lemma FailedIff(c: Call, s: CallState, code: string, at: int)
    ensures if s in {Failed, TimedOut, Cancelled} && c.state != Succeeded
            then && After(c, FailCall(s, code, at)) ==
                    c.(state := s, visualInputs := false, failureCode := After(c, FailCall(s, code, at)).failureCode,
                       finishedAt := Some(at))
                 && After(c, FailCall(s, code, at)).failureCode == Some(if |code| > 64 then code[..64] else code)
            else Refuses(c, FailCall(s, code, at)) && After(c, FailCall(s, code, at)) == c
  {
  }

  lemma CreatedIs(tool: Tool, visualInputs: bool)
    ensures Created(tool, visualInputs).state == Accepted && Created(tool, visualInputs).run.None?
    ensures Created(tool, visualInputs).visualInputs == visualInputs
  {
  }
}
