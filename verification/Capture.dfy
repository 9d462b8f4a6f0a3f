/** The bounded capture of a subprocess's output in `CodingWorkspace.command` of `coding.py`. */
module Capture {
  import opened Wrappers

  const MAX_TEST_OUTPUT_BYTES := 16_384

  /** One turn of the read loop: a chunk (empty at end of file) or a timeout, and whether the watched
      file is found over its limit on that turn. */
  datatype Turn = Turn(chunk: Option<seq<nat>>, oversized: bool)

  datatype Captured = Captured(head: seq<nat>, tail: seq<nat>, truncated: bool)

  /** The whole output, when the loop reaches end of file without finding the watched file oversized. */
  function Output(turns: seq<Turn>): Option<seq<nat>> {
    if turns == [] || turns[0].oversized then None
    else if turns[0].chunk.None? then Output(turns[1..])
    else if turns[0].chunk.value == [] then Some([])
    else
      var rest :- Output(turns[1..]);
      Some(turns[0].chunk.value + rest)
  }

  function First(bytes: seq<nat>, n: int): seq<nat> {
    if n <= 0 then [] else if n <= |bytes| then bytes[..n] else bytes
  }

  function Last(bytes: seq<nat>, n: nat): seq<nat> {
    if n <= |bytes| then bytes[|bytes| - n..] else bytes
  }

  /** The capture depends on the output alone, not on how it was split. */
  function CaptureOf(output: seq<nat>, cap: int): Captured {
    Captured(First(output, cap), Last(output, MAX_TEST_OUTPUT_BYTES), |output| > (if cap < 0 then 0 else cap))
  }

  lemma LastOfAppend(seen: seq<nat>, chunk: seq<nat>, n: nat)
    ensures Last(Last(seen, n) + chunk, n) == Last(seen + chunk, n)
  {
  }

  lemma FirstOfAppend(seen: seq<nat>, chunk: seq<nat>, cap: int)
    ensures var head := First(seen, cap);
            First(seen + chunk, cap) == head + First(chunk, if cap - |head| < 0 then 0 else cap - |head|)
  {
  }

  /** One turn of the loop on the three captured values. */
  function Extend(c: Captured, chunk: seq<nat>, cap: int): Captured {
    var remaining := if cap - |c.head| < 0 then 0 else cap - |c.head|;
    Captured(c.head + First(chunk, remaining), Last(c.tail + chunk, MAX_TEST_OUTPUT_BYTES),
             c.truncated || |chunk| > remaining)
  }

  lemma ExtendCapture(seen: seq<nat>, chunk: seq<nat>, cap: int)
    ensures Extend(CaptureOf(seen, cap), chunk, cap) == CaptureOf(seen + chunk, cap)
  {
    FirstOfAppend(seen, chunk, cap);
    LastOfAppend(seen, chunk, MAX_TEST_OUTPUT_BYTES);
  }

  /** The whole output, given what was read before these turns. */
  function OutputAfter(seen: seq<nat>, turns: seq<Turn>): Option<seq<nat>> {
    match Output(turns)
    case None => None
    case Some(rest) => Some(seen + rest)
  }

  lemma OutputAfterChunk(seen: seq<nat>, turns: seq<Turn>)
    requires turns != [] && !turns[0].oversized && turns[0].chunk.Some?
    ensures OutputAfter(seen, turns) ==
            if turns[0].chunk.value == [] then Some(seen) else OutputAfter(seen + turns[0].chunk.value, turns[1..])
  {
    assert seen + [] == seen;
    if Output(turns[1..]).Some? {
      var first, rest := turns[0].chunk.value, Output(turns[1..]).value;
      assert seen + (first + rest) == seen + first + rest;
    }
  }

  /** Output is captured the same for every way of splitting it into chunks; `None` when the loop does not
      reach its end. */
  method Drain(turns: seq<Turn>, cap: int) returns (r: Option<Captured>)
    ensures r == match Output(turns) case None => None case Some(output) => Some(CaptureOf(output, cap))
  {
    var head: seq<nat>, tail: seq<nat>, truncated := [], [], false;
    ghost var seen: seq<nat> := [];
    assert Output(turns).Some? ==> [] + Output(turns).value == Output(turns).value;
    var i := 0;
    while i < |turns|
      invariant 0 <= i <= |turns|
      invariant Captured(head, tail, truncated) == CaptureOf(seen, cap)
      invariant OutputAfter(seen, turns[i..]) == Output(turns)
    {
      var turn := turns[i];
      assert turns[i..][1..] == turns[i + 1..];
      if turn.oversized {
        return None;
      }
      if turn.chunk.Some? {
        var chunk := turn.chunk.value;
        OutputAfterChunk(seen, turns[i..]);
        if chunk == [] {
          return Some(Captured(head, tail, truncated));
        }
        ghost var before := Captured(head, tail, truncated);
        var remaining := if cap - |head| < 0 then 0 else cap - |head|;
        head := head + First(chunk, remaining);
        if |chunk| > remaining {
          truncated := true;
        }
        tail := tail + chunk;
        if |tail| > MAX_TEST_OUTPUT_BYTES {
          tail := tail[|tail| - MAX_TEST_OUTPUT_BYTES..];
        }
        assert Captured(head, tail, truncated) == Extend(before, chunk, cap);
        ExtendCapture(seen, chunk, cap);
        seen := seen + chunk;
      }
      i := i + 1;
    }
    return None;
  }

  /** What the capture says about the output: its first bytes, its last bytes, and whether the first are all. */
  lemma CaptureIsPrefixAndSuffix(output: seq<nat>, cap: int)
    ensures var c := CaptureOf(output, cap);
            && c.head <= output
            && |c.head| == (if cap < 0 then 0 else if cap < |output| then cap else |output|)
            && (c.truncated <==> c.head != output)
            && |c.tail| == (if |output| < 16384 then |output| else 16384)
            && output[|output| - |c.tail|..] == c.tail
  {
  }

  /** What the first `n` turns read. */
  function ReadBy(turns: seq<Turn>, n: nat): seq<nat>
    requires n <= |turns|
  {
    if n == 0 then []
    else ReadBy(turns, n - 1) + if turns[n - 1].chunk.Some? then turns[n - 1].chunk.value else []
  }

  /** The read loop ends at turn `n`: nothing before it was oversized, and there the file ends. */
  predicate EndsAt(turns: seq<Turn>, n: nat) {
    && n < |turns| && turns[n].chunk == Some([])
    && (forall i | 0 <= i <= n :: !turns[i].oversized)
    && (forall i | 0 <= i < n :: turns[i].chunk != Some([]))
  }

  lemma {:induction false} ReadByLater(turns: seq<Turn>, n: nat)
    requires 0 < n <= |turns|
    ensures ReadBy(turns, n) == (if turns[0].chunk.Some? then turns[0].chunk.value else []) + ReadBy(turns[1..], n - 1)
  {
    if n > 1 {
      ReadByLater(turns, n - 1);
    }
  }

  /** There is an output exactly when the file ends before it is found oversized, and it is all that was read. */
  lemma {:induction false} OutputIff(turns: seq<Turn>)
    ensures Output(turns).Some? <==> exists n: nat :: EndsAt(turns, n)
    ensures forall n: nat | EndsAt(turns, n) :: Output(turns) == Some(ReadBy(turns, n))
  {
    if turns != [] && !turns[0].oversized {
      var rest := turns[1..];
      OutputIff(rest);
      forall n: nat | EndsAt(rest, n)
        ensures turns[0].chunk != Some([]) ==> EndsAt(turns, n + 1)
      {
        assert forall i | 0 < i <= n + 1 :: turns[i] == rest[i - 1];
      }
      forall n: nat | EndsAt(turns, n)
        ensures if turns[0].chunk == Some([]) then n == 0 else n > 0 && EndsAt(rest, n - 1)
        ensures Output(turns) == Some(ReadBy(turns, n))
      {
        if n > 0 {
          assert forall i | 0 <= i < |rest| :: rest[i] == turns[i + 1];
          assert EndsAt(rest, n - 1);
          ReadByLater(turns, n);
          assert [] + ReadBy(rest, n - 1) == ReadBy(rest, n - 1);
        }
      }
      if turns[0].chunk == Some([]) {
        assert EndsAt(turns, 0);
      }
    }
  }
}
