/** When a patch can be undone, said of the fixture and the operations instead of the result. */
module PatchSeams {
  import opened Wrappers
  import opened EditScript
  import opened HunkHeader
  import opened TextLines
  import opened Patch
  import opened PatchLaws
  import opened PatchTexts
  import opened PatchReversal
  import opened PatchReach

  // ----- No line ends in a carriage return alone -----

  predicate NoReturn(lines: seq<string>) {
    forall i | 0 <= i < |lines| :: lines[i] != [] ==> Last(lines[i]) != '\r'
  }

  predicate NoReturnOps(ops: seq<Op>) {
    forall i | 0 <= i < |ops| :: ops[i].text != [] ==> Last(ops[i].text) != '\r'
  }

  predicate NoReturnHunks(hunks: seq<Hunk>) {
    forall k | 0 <= k < |hunks| :: NoReturnOps(hunks[k].ops)
  }

  lemma {:induction false} NewHasNoReturn(ops: seq<Op>)
    requires NoReturnOps(ops)
    ensures NoReturn(New(ops))
  {
    if ops != [] {
      assert forall i | 0 <= i < |ops[1..]| :: ops[1..][i] == ops[i + 1];
      NewHasNoReturn(ops[1..]);
    }
  }

  lemma {:induction false} ResultHasNoReturn(source: seq<string>, hunks: seq<Hunk>, cursor: nat, drift: int)
    requires NoReturn(source) && NoReturnHunks(hunks) && Walk(source, hunks, cursor, drift).Ok?
    ensures NoReturn(Walk(source, hunks, cursor, drift).value)
  {
    if hunks != [] {
      var h, ops := hunks[0].header, hunks[0].ops;
      var tail := SplitWalk(source, hunks, cursor, drift);
      NewHasNoReturn(ops);
      assert forall k | 0 <= k < |hunks[1..]| :: hunks[1..][k] == hunks[k + 1];
      ResultHasNoReturn(source, hunks[1..], Start(h) + |Old(ops)|, drift + |New(ops)| - |Old(ops)|);
      NoReturnAppend(source[cursor..Start(h)], New(ops));
      NoReturnAppend(source[cursor..Start(h)] + New(ops), tail);
    }
  }

  lemma NoReturnAppend(a: seq<string>, b: seq<string>)
    requires NoReturn(a) && NoReturn(b)
    ensures NoReturn(a + b)
  {
  }

  /** Then pieces are cut where their text is exactly when each but the last ends in a line break. */
  lemma WellCutIsEnding(lines: seq<string>)
    requires NoReturn(lines)
    ensures WellCut(lines) <==> Ending(lines)
  {
    if Ending(lines) {
      forall i | 0 < i < |lines|
        ensures Cut(Last(lines[i - 1]), lines[i][0])
      {
        assert lines[i - 1] == AllButLast(lines)[i - 1];
      }
    }
    if WellCut(lines) {
      forall i | 0 <= i < |AllButLast(lines)|
        ensures Ended(AllButLast(lines)[i])
      {
        assert Cut(Last(lines[i + 1 - 1]), lines[i + 1][0]);
      }
    }
  }

  // ----- Ending and concatenation -----

  predicate Whole(lines: seq<string>) {
    AllLines(lines) && AllEnded(lines)
  }

  lemma EndingAfter(a: seq<string>, b: seq<string>)
    requires Whole(a)
    ensures Ending(a + b) <==> Ending(b)
  {
    assert forall i | 0 <= i < |b| :: (a + b)[|a| + i] == b[i];
    assert b != [] ==> AllButLast(a + b) == a + AllButLast(b);
    assert b == [] ==> a + b == a;
    if Ending(a + b) {
      forall i | 0 <= i < |AllButLast(b)|
        ensures Ended(AllButLast(b)[i])
      {
        assert AllButLast(a + b)[|a| + i] == AllButLast(b)[i];
      }
    }
  }

  /** A line without a line break can only be the last. */
  lemma EndingUnended(a: seq<string>, u: string, b: seq<string>)
    requires Whole(a) && IsPiece(u) && !Ended(u)
    ensures Ending(a + [u] + b) <==> u != [] && b == []
  {
    var all := a + [u] + b;
    assert all[|a|] == u;
    if b != [] {
      assert AllButLast(all)[|a|] == u;
    } else {
      assert all == a + [u] && AllButLast(all) == a;
    }
  }

  lemma WholeAppend(a: seq<string>, b: seq<string>)
    requires Whole(a) && Whole(b)
    ensures Whole(a + b)
  {
  }

  lemma {:induction false} EndedOpsAreWhole(ops: seq<Op>)
    requires EndedOps(ops)
    ensures Whole(Old(ops)) && Whole(New(ops))
  {
    if ops != [] {
      assert forall i | 0 <= i < |ops[1..]| :: ops[1..][i] == ops[i + 1];
      EndedOpsAreWhole(ops[1..]);
    }
  }

  // ----- The condition -----

  /** The last operation inserts a text that does not end in a line break. */
  predicate InsertsUnended(ops: seq<Op>) {
    ops != [] && ops[|ops| - 1].Insert? && !Ended(ops[|ops| - 1].text)
  }

  /** Nothing is inserted behind a last line without a line break. */
  predicate NothingBehind(source: seq<string>, hunks: seq<Hunk>) {
    UnendedSource(source) ==>
      forall k | 0 <= k < |hunks| && Start(hunks[k].header) == |source| :: hunks[k].ops == []
  }

  /** A text inserted without a line break is not empty, and nothing of the source comes behind it. */
  predicate InsertsFit(source: seq<string>, hunk: Hunk) {
    InsertsUnended(hunk.ops) ==>
      hunk.ops[|hunk.ops| - 1].text != [] && Start(hunk.header) + |Old(hunk.ops)| == |source|
  }

  predicate Seamless(source: seq<string>, hunks: seq<Hunk>) {
    NothingBehind(source, hunks) && (hunks != [] ==> InsertsFit(source, hunks[|hunks| - 1]))
  }

  lemma SeamlessRest(source: seq<string>, hunks: seq<Hunk>)
    requires hunks != [] && hunks[1..] != []
    requires UnendedSource(source) ==> Start(hunks[0].header) < |source|
    ensures Seamless(source, hunks) <==> Seamless(source, hunks[1..])
  {
    var rest := hunks[1..];
    assert rest[|rest| - 1] == hunks[|hunks| - 1];
    if NothingBehind(source, rest) {
      forall k | 0 <= k < |hunks| && Start(hunks[k].header) == |source| && UnendedSource(source)
        ensures hunks[k].ops == []
      {
        assert hunks[k] == rest[k - 1];
      }
    }
    if NothingBehind(source, hunks) {
      forall k | 0 <= k < |rest| && Start(rest[k].header) == |source| && UnendedSource(source)
        ensures rest[k].ops == []
      {
        assert rest[k] == hunks[k + 1];
      }
    }
  }

  // ----- Hunks behind the whole source -----

  lemma {:induction false} NoneNew(ops: seq<Op>)
    requires Old(ops) == []
    ensures New(ops) == [] <==> ops == []
  {
  }

  /** From the end of the source on, every hunk starts there, and only empty ones leave nothing. */
  lemma {:induction false} WalkBehind(source: seq<string>, hunks: seq<Hunk>, drift: int)
    requires Walk(source, hunks, |source|, drift).Ok?
    ensures forall k | 0 <= k < |hunks| :: Start(hunks[k].header) == |source|
    ensures Walk(source, hunks, |source|, drift).value == [] <==> forall k | 0 <= k < |hunks| :: hunks[k].ops == []
  {
    if hunks != [] {
      var ops, rest := hunks[0].ops, hunks[1..];
      var tail := SplitWalk(source, hunks, |source|, drift);
      NoneNew(ops);
      WalkBehind(source, rest, drift + |New(ops)| - |Old(ops)|);
      assert forall k | 0 < k < |hunks| :: hunks[k] == rest[k - 1];
      assert forall k | 0 <= k < |rest| :: rest[k] == hunks[k + 1];
    }
  }

  lemma SkipGap(source: seq<string>, hunks: seq<Hunk>, cursor: nat, drift: int)
    requires hunks != [] && Walk(source, hunks, cursor, drift).Ok? && Start(hunks[0].header) == |source|
    ensures cursor <= |source| && Walk(source, hunks, |source|, drift).Ok?
    ensures Walk(source, hunks, cursor, drift).value == source[cursor..] + Walk(source, hunks, |source|, drift).value
  {
    var tail := SplitWalk(source, hunks, cursor, drift);
    assert Walk(source, hunks, |source|, drift).Ok?;
    var same := SplitWalk(source, hunks, |source|, drift);
    GapBefore(source, cursor, New(hunks[0].ops), tail);
  }

  lemma GapBefore(source: seq<string>, cursor: nat, lines: seq<string>, tail: seq<string>)
    requires cursor <= |source|
    ensures source[cursor..|source|] + lines + tail == source[cursor..] + (source[|source|..|source|] + lines + tail)
  {
  }

  lemma SeamlessBehindIff(source: seq<string>, hunks: seq<Hunk>)
    requires UnendedSource(source) && forall k | 0 <= k < |hunks| :: Start(hunks[k].header) == |source|
    ensures Seamless(source, hunks) <==> forall k | 0 <= k < |hunks| :: hunks[k].ops == []
  {
  }

  /** The first hunk starts behind an unended last line. */
  lemma SeamBehind(source: seq<string>, hunks: seq<Hunk>, cursor: nat, drift: int, result: seq<string>)
    requires AllLines(source) && UnendedSource(source) && cursor < |source| && hunks != []
    requires Walk(source, hunks, cursor, drift) == Ok(result) && Start(hunks[0].header) == |source|
    ensures Ending(result) <==> Seamless(source, hunks)
  {
    SkipGap(source, hunks, cursor, drift);
    WalkBehind(source, hunks, drift);
    SeamlessBehindIff(source, hunks);
    EndingSource(source, cursor, Walk(source, hunks, |source|, drift).value);
  }

  lemma EndingSource(source: seq<string>, cursor: nat, behind: seq<string>)
    requires AllLines(source) && UnendedSource(source) && cursor < |source|
    ensures Ending(source[cursor..] + behind) <==> behind == []
  {
    var n := |source| - 1;
    GapIsEnded(source, cursor, n);
    EndingUnended(source[cursor..n], source[n], behind);
    assert source[cursor..n] + [source[n]] + behind == source[cursor..] + behind;
  }

  // ----- The last hunk -----

  /** The operations of a last hunk: all but the last are ended. */
  lemma LastHunkParts(ops: seq<Op>) returns (before: seq<Op>, last: Op)
    requires ops != [] && LastOps(ops)
    ensures ops == before + [last] && Whole(New(before)) && IsPiece(last.text)
    ensures Old(ops) == Old(before) + (if last.Insert? then [] else [last.text])
    ensures New(ops) == New(before) + (if last.Delete? then [] else [last.text])
  {
    before, last := ops[..|ops| - 1], ops[|ops| - 1];
    assert ops == before + [last];
    AllButLastEnded(before, last);
    EndedOpsAreWhole(before);
    SplitLastOp(before, last);
  }

  /** The line consumed last is ended, unless it is the last of the source. */
  lemma LastIsSource(source: seq<string>, start: nat, ops: seq<Op>, older: seq<string>, line: string)
    requires Ending(source) && Consumes(source, start, ops) && Old(ops) == older + [line]
    ensures line != [] && (Ended(line) || start + |Old(ops)| == |source|)
  {
    ConsumesIsSlice(source, start, ops);
    LastOfSlice(source, start, older, line);
  }

  lemma AllButLastEnded(before: seq<Op>, last: Op)
    requires LastOps(before + [last])
    ensures EndedOps(before) && IsPiece(last.text)
  {
    var ops := before + [last];
    assert ops[|before|] == last;
    assert forall i | 0 <= i < |before| :: ops[i] == before[i];
  }

  lemma LastOfSlice(source: seq<string>, start: nat, older: seq<string>, line: string)
    requires Ending(source) && start + |older| < |source|
    requires source[start..start + |older| + 1] == older + [line]
    ensures line != [] && (Ended(line) || start + |older| + 1 == |source|)
  {
    var i := start + |older|;
    assert source[i] == source[start..i + 1][|older|] == line;
    if i + 1 < |source| {
      assert AllButLast(source)[i] == source[i];
    }
  }

  /** What a last hunk and the rest of the source leave. */
  lemma SeamLast(source: seq<string>, start: nat, ops: seq<Op>, gap: seq<string>, tail: seq<string>)
    requires Ending(source) && Consumes(source, start, ops) && LastOps(ops) && Whole(gap)
    requires tail == source[start + |Old(ops)|..]
    ensures Ending(gap + New(ops) + tail) <==> (InsertsUnended(ops) ==> ops[|ops| - 1].text != [] && tail == [])
  {
    TailIsEnding(source, start + |Old(ops)|);
    if ops == [] {
      assert gap + New(ops) + tail == gap + tail;
      EndingAfter(gap, tail);
    } else {
      var before, last := LastHunkParts(ops);
      if !last.Insert? {
        LastIsSource(source, start, ops, Old(before), last.text);
      }
      SeamLastOp(gap, New(before), last, New(ops), tail);
    }
  }

  lemma SeamLastOp(gap: seq<string>, older: seq<string>, last: Op, newer: seq<string>, tail: seq<string>)
    requires Whole(gap) && Whole(older) && Ending(tail) && IsPiece(last.text)
    requires newer == older + if last.Delete? then [] else [last.text]
    requires !last.Insert? ==> last.text != [] && (Ended(last.text) || tail == [])
    ensures Ending(gap + newer + tail) <==>
            (last.Insert? && !Ended(last.text) ==> last.text != [] && tail == [])
  {
    var head := gap + older;
    WholeAppend(gap, older);
    if last.Delete? {
      EndingAfter(head, tail);
      assert gap + newer + tail == head + tail;
    } else {
      SeamLastLine(head, last.text, tail);
      assert gap + newer + tail == head + [last.text] + tail;
    }
  }

  lemma SeamLastLine(head: seq<string>, line: string, tail: seq<string>)
    requires Whole(head) && Ending(tail) && IsPiece(line)
    ensures Ending(head + [line] + tail) <==> (Ended(line) || (line != [] && tail == []))
  {
    if Ended(line) {
      WholeAppend(head, [line]);
      EndingAfter(head + [line], tail);
    } else {
      EndingUnended(head, line, tail);
    }
  }

  lemma TailIsEnding(source: seq<string>, from: nat)
    requires Ending(source) && from <= |source|
    ensures Ending(source[from..])
  {
    var tail := source[from..];
    forall i | 0 <= i < |AllButLast(tail)|
      ensures Ended(AllButLast(tail)[i])
    {
      assert AllButLast(tail)[i] == AllButLast(source)[from + i];
    }
  }

  // ----- All hunks -----

  lemma GapIsWhole(source: seq<string>, from: nat, to: nat)
    requires Ending(source) && from <= to <= |source|
    requires UnendedSource(source) ==> to < |source|
    ensures Whole(source[from..to])
  {
    forall i | 0 <= i < to - from
      ensures Ended(source[from..to][i])
    {
      assert source[from..to][i] == source[from + i];
      assert from + i < |source| - 1 ==> source[from + i] == AllButLast(source)[from + i];
    }
  }

  /** The last hunk, not behind an unended last line. */
  lemma SeamLastHunk(source: seq<string>, hunks: seq<Hunk>, cursor: nat, drift: int, result: seq<string>)
    requires Ending(source) && Printable(hunks) && |hunks| == 1 && Walk(source, hunks, cursor, drift) == Ok(result)
    requires UnendedSource(source) ==> Start(hunks[0].header) != |source|
    ensures Ending(result) <==> Seamless(source, hunks)
  {
    var start, ops := Start(hunks[0].header), hunks[0].ops;
    var tail := SplitWalk(source, hunks, cursor, drift);
    assert hunks[1..] == [] && tail == source[start + |Old(ops)|..];
    FirstOpsFit(hunks);
    GapIsWhole(source, cursor, start);
    SeamLast(source, start, ops, source[cursor..start], tail);
  }

  /** A hunk with others behind it leaves the question to them. */
  lemma SeamFirstHunk(source: seq<string>, hunks: seq<Hunk>, cursor: nat, start: nat, ops: seq<Op>, tail: seq<string>)
    requires Ending(source) && hunks != [] && hunks[1..] != [] && start == Start(hunks[0].header) && EndedOps(ops)
    requires cursor <= start <= |source| && (UnendedSource(source) ==> start < |source|)
    requires Ending(tail) <==> Seamless(source, hunks[1..])
    ensures Ending(source[cursor..start] + New(ops) + tail) <==> Seamless(source, hunks)
  {
    SeamlessRest(source, hunks);
    EndedOpsAreWhole(ops);
    GapIsWhole(source, cursor, start);
    WholeAppend(source[cursor..start], New(ops));
    EndingAfter(source[cursor..start] + New(ops), tail);
  }

  lemma RestGoesOn(source: seq<string>, hunks: seq<Hunk>)
    requires hunks != [] && hunks[1..] != [] && Printable(hunks)
    requires Consumes(source, Start(hunks[0].header), hunks[0].ops)
    requires UnendedSource(source) ==> Start(hunks[0].header) < |source|
    ensures Printable(hunks[1..]) && EndedOps(hunks[0].ops)
    ensures UnendedSource(source) ==> Start(hunks[0].header) + |Old(hunks[0].ops)| < |source|
  {
    FirstOpsFit(hunks);
    if UnendedSource(source) {
      LastIsNotConsumed(source, Start(hunks[0].header), hunks[0].ops);
    }
  }

  /** The result is cut where its text is exactly when the hunks leave no seam. */
  lemma {:induction false} WalkIsSeamlessIff(
    source: seq<string>, hunks: seq<Hunk>, cursor: nat, drift: int, result: seq<string>)
    requires Ending(source) && Printable(hunks) && (UnendedSource(source) ==> cursor < |source|)
    requires Walk(source, hunks, cursor, drift) == Ok(result)
    ensures Ending(result) <==> Seamless(source, hunks)
  {
    if hunks == [] {
      TailIsEnding(source, cursor);
    } else if UnendedSource(source) && Start(hunks[0].header) == |source| {
      SeamBehind(source, hunks, cursor, drift, result);
    } else if |hunks| == 1 {
      SeamLastHunk(source, hunks, cursor, drift, result);
    } else {
      var start, ops := Start(hunks[0].header), hunks[0].ops;
      var tail := SplitWalk(source, hunks, cursor, drift);
      RestGoesOn(source, hunks);
      WalkIsSeamlessIff(source, hunks[1..], start + |Old(ops)|, drift + |New(ops)| - |Old(ops)|, tail);
      SeamFirstHunk(source, hunks, cursor, start, ops, tail);
    }
  }

  // ----- Texts -----

  /** No line of the fixture and no operation ends in a carriage return alone. */
  predicate NoReturns(fixture: string, hunks: seq<Hunk>) {
    NoReturn(Lines(fixture)) && NoReturnHunks(hunks)
  }

  lemma ResultIsSeamlessIff(fixture: string, p: string)
    requires Patched(fixture, p).Ok? && NoReturns(fixture, ParsePatch(Lines(p)).value)
    ensures WellCut(ResultLines(fixture, p)) <==> Seamless(Lines(fixture), ParsePatch(Lines(p)).value)
  {
    var source, hunks := Lines(fixture), ParsePatch(Lines(p)).value;
    LinesEnd(fixture);
    ParsedIsPrintable(p);
    WalkIsMeaning(source, hunks, 0, 0);
    ResultHasNoReturn(source, hunks, 0, 0);
    WellCutIsEnding(ResultLines(fixture, p));
    WalkIsSeamlessIff(source, hunks, 0, 0, ResultLines(fixture, p));
  }

  /** Reversal, by what fixture and patch hold: the reversed text gives the fixture back exactly when no hunk states an
      old start of zero, nothing is inserted behind a last line without a line break, and a text inserted without one
      is the last of all. */
  lemma SeamlessReversalIff(fixture: string, p: string, target: string)
    requires Patched(fixture, p).Ok? && target == Patched(fixture, p).value
    requires NoReturns(fixture, ParsePatch(Lines(p)).value)
    ensures Patched(target, ReverseText(p)) == Ok(fixture) <==>
            AllStartsPositive(ParsePatch(Lines(p)).value) && Seamless(Lines(fixture), ParsePatch(Lines(p)).value)
  {
    TextReversalIff(fixture, p, target);
    ResultIsSeamlessIff(fixture, p);
  }
}
