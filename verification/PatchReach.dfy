/** Which texts a patch can turn which fixtures into: exactly, and within the size limit. */
module PatchReach {
  import opened Wrappers
  import opened EditScript
  import opened HunkHeader
  import opened TextLines
  import opened Patch
  import opened PatchLaws
  import opened PatchTexts
  import opened PatchReversal

  /** Empty, or ended by a line break. */
  predicate Terminated(t: string) {
    t == [] || Break(Last(t))
  }

  function LastLine(t: string): string
    requires t != []
  {
    Lines(t)[|Lines(t)| - 1]
  }

  /** `u` stands in `t` at the start of the text, after a line break, or at the end. */
  predicate StandsAt(u: string, t: string, k: nat) {
    && k + |u| <= |t| && t[k..k + |u|] == u
    && (k == 0 || Break(t[k - 1]) || k + |u| == |t|)
  }

  ghost predicate Reach(u: string, t: string) {
    Terminated(t) || exists k: nat :: StandsAt(u, t, k)
  }

  /** A last line without a line break can only be removed by the last line of a patch, or kept. */
  ghost predicate Reachable(fixture: string, target: string) {
    Terminated(fixture) || Reach(LastLine(fixture), target)
  }

  // ----- Lines of a text -----

  predicate AllEnded(lines: seq<string>) {
    forall i | 0 <= i < |lines| :: Ended(lines[i])
  }

  lemma LinesEnd(t: string)
    ensures AllLines(Lines(t)) && AllEnded(AllButLast(Lines(t)))
    ensures t != [] ==> (Ended(LastLine(t)) <==> Terminated(t))
  {
    var lines := Lines(t);
    LinesAreWellCut(t);
    JoinOfLines(t);
    if t != [] {
      var m := |lines| - 1;
      forall i | 0 <= i < m
        ensures Ended(lines[i])
      {
        assert Cut(Last(lines[i + 1 - 1]), lines[i + 1][0]);
      }
      SplitJoin(lines, m);
      assert lines[m + 1..] == [];
      assert Last(t) == Last(lines[m]);
    }
  }

  function AllButLast<T>(s: seq<T>): seq<T> {
    if s == [] then [] else s[..|s| - 1]
  }

  /** Lines of which at most the last is not ended. */
  predicate Ending(lines: seq<string>) {
    AllLines(lines) && AllEnded(AllButLast(lines))
  }

  lemma {:induction false} EndedJoin(lines: seq<string>)
    requires AllEnded(lines)
    ensures Terminated(Join(lines))
  {
    if lines != [] {
      var m := |lines| - 1;
      SplitJoin(lines, m);
      assert lines[m + 1..] == [];
    }
  }

  lemma StandsAfter(x: string, u: string, y: string)
    requires Terminated(x) || y == []
    ensures Reach(u, x + u + y)
  {
    var t := x + u + y;
    assert t[|x|..|x| + |u|] == u;
    assert StandsAt(u, t, |x|);
  }

  lemma ReachPrepend(x: string, u: string, t: string)
    requires Terminated(x) && Reach(u, t)
    ensures Reach(u, x + t)
  {
    if !Terminated(t) {
      var k: nat :| StandsAt(u, t, k);
      assert (x + t)[|x| + k..|x| + k + |u|] == t[k..k + |u|];
      assert StandsAt(u, x + t, |x| + k);
    }
  }

  // ----- Only reachable texts are reached -----

  predicate LastOps(ops: seq<Op>) {
    forall i | 0 <= i < |ops| :: IsPiece(ops[i].text) && (i + 1 < |ops| ==> Ended(ops[i].text))
  }

  predicate EndedOps(ops: seq<Op>) {
    forall i | 0 <= i < |ops| :: IsLine(ops[i].text) && Ended(ops[i].text)
  }

  lemma {:induction false} EndedOpsLines(ops: seq<Op>)
    requires EndedOps(ops)
    ensures AllEnded(Old(ops)) && AllEnded(New(ops))
  {
    if ops != [] {
      assert forall i | 0 <= i < |ops[1..]| :: ops[1..][i] == ops[i + 1];
      EndedOpsLines(ops[1..]);
    }
  }

  lemma {:induction false} OldAppend(a: seq<Op>, b: seq<Op>)
    ensures Old(a + b) == Old(a) + Old(b)
  {
    if a == [] {
      assert a + b == b;
    } else {
      assert (a + b)[1..] == a[1..] + b;
      OldAppend(a[1..], b);
    }
  }

  lemma {:induction false} NewAppend(a: seq<Op>, b: seq<Op>)
    ensures New(a + b) == New(a) + New(b)
  {
    if a == [] {
      assert a + b == b;
    } else {
      assert (a + b)[1..] == a[1..] + b;
      NewAppend(a[1..], b);
    }
  }

  lemma OneOp(op: Op)
    ensures Old([op]) == (if op.Insert? then [] else [op.text]) && New([op]) == if op.Delete? then [] else [op.text]
  {
    assert [op][1..] == [];
  }

  lemma SplitLastOp(before: seq<Op>, last: Op)
    ensures Old(before + [last]) == Old(before) + if last.Insert? then [] else [last.text]
    ensures New(before + [last]) == New(before) + if last.Delete? then [] else [last.text]
  {
    OldAppend(before, [last]);
    NewAppend(before, [last]);
    OneOp(last);
  }

  /** Operations that consume an unended line last of all: what they leave is ended, or ends with that line. */
  lemma LastConsumed(ops: seq<Op>, u: string)
    requires LastOps(ops) && Old(ops) != [] && Old(ops)[|Old(ops)| - 1] == u && !Ended(u)
    ensures AllEnded(New(ops)) || (New(ops) != [] && New(ops)[|New(ops)| - 1] == u)
  {
    var before, last := ops[..|ops| - 1], ops[|ops| - 1];
    assert ops == before + [last];
    EndedOpsLines(before);
    SplitLastOp(before, last);
    LastIsKeptOrGone(Old(before), New(before), last, u);
  }

  lemma LastIsKeptOrGone(older: seq<string>, newer: seq<string>, last: Op, u: string)
    requires AllEnded(older) && AllEnded(newer) && !Ended(u)
    requires var all := older + if last.Insert? then [] else [last.text]; all != [] && all[|all| - 1] == u
    ensures var left := newer + if last.Delete? then [] else [last.text];
            AllEnded(left) || (left != [] && left[|left| - 1] == u)
  {
  }

  lemma EndedOpsKeep(ops: seq<Op>)
    requires EndedOps(ops) && Old(ops) != []
    ensures Ended(Old(ops)[|Old(ops)| - 1])
  {
    EndedOpsLines(ops);
  }

  /** The source: lines that end, but for the last. */
  predicate UnendedSource(source: seq<string>) {
    source != [] && AllEnded(AllButLast(source)) && !Ended(source[|source| - 1])
  }

  lemma JoinThree(a: seq<string>, b: seq<string>, c: seq<string>)
    ensures Join(a + b + c) == Join(a) + Join(b) + Join(c)
  {
    JoinAppend(a + b, c);
    JoinAppend(a, b);
  }

  lemma GapIsEnded(source: seq<string>, from: nat, to: nat)
    requires UnendedSource(source) && from <= to < |source|
    ensures AllEnded(source[from..to])
  {
    forall i | 0 <= i < to - from
      ensures Ended(source[from..to][i])
    {
      assert source[from..to][i] == AllButLast(source)[from + i];
    }
  }

  /** The last line stands in the gap before a hunk, or behind the last hunk. */
  lemma ReachInGap(source: seq<string>, cursor: nat, after: seq<string>)
    requires UnendedSource(source) && cursor < |source|
    ensures Reach(source[|source| - 1], Join(source[cursor..] + after))
  {
    var n := |source| - 1;
    assert source[cursor..] + after == source[cursor..n] + [source[n]] + after;
    JoinThree(source[cursor..n], [source[n]], after);
    JoinOne(source[n]);
    GapIsEnded(source, cursor, n);
    EndedJoin(source[cursor..n]);
    StandsAfter(Join(source[cursor..n]), source[n], Join(after));
  }

  lemma ReachAtEnd(u: string, before: seq<string>, lines: seq<string>)
    requires lines != [] && lines[|lines| - 1] == u
    ensures Reach(u, Join(before + lines))
  {
    var m := |lines| - 1;
    assert before + lines == before + lines[..m] + [u];
    JoinAppend(before + lines[..m], [u]);
    JoinOne(u);
    StandsAfter(Join(before + lines[..m]), u, []);
    assert Join(before + lines[..m]) + u + [] == Join(before + lines[..m]) + u;
  }

  /** A hunk that ends with the source. */
  lemma ReachThrough(source: seq<string>, start: nat, ops: seq<Op>, cursor: nat)
    requires UnendedSource(source) && cursor <= start < |source| && Consumes(source, start, ops) && LastOps(ops)
    requires start + |Old(ops)| == |source|
    ensures Reach(source[|source| - 1], Join(source[cursor..start] + New(ops)))
  {
    var u, gap := source[|source| - 1], source[cursor..start];
    ConsumesIsSlice(source, start, ops);
    assert Old(ops)[|Old(ops)| - 1] == u;
    LastConsumed(ops, u);
    if AllEnded(New(ops)) {
      GapIsEnded(source, cursor, start);
      EndedJoin(gap + New(ops));
    } else {
      ReachAtEnd(u, gap, New(ops));
    }
  }

  /** A hunk that leaves the last line to what follows. */
  lemma ReachBeyond(u: string, gap: seq<string>, lines: seq<string>, tail: seq<string>)
    requires Reach(u, Join(tail)) && AllEnded(gap) && AllEnded(lines)
    ensures Reach(u, Join(gap + lines + tail))
  {
    assert AllEnded(gap + lines);
    EndedJoin(gap + lines);
    JoinAppend(gap + lines, tail);
    ReachPrepend(Join(gap + lines), u, Join(tail));
  }

  /** One hunk, the last or not: from what `tail` reaches to what the hunk and `tail` reach. */
  lemma ReachStep(
    source: seq<string>, start: nat, ops: seq<Op>, cursor: nat, tail: seq<string>, last: bool)
    requires UnendedSource(source) && cursor <= start && cursor < |source|
    requires Consumes(source, start, ops) && LastOps(ops)
    requires last ==> tail == source[start + |Old(ops)|..]
    requires !last ==> EndedOps(ops) && (start < |source| ==> Reach(source[|source| - 1], Join(tail)))
    ensures Reach(source[|source| - 1], Join(source[cursor..start] + New(ops) + tail))
  {
    var u, end := source[|source| - 1], start + |Old(ops)|;
    if start == |source| {
      ReachInGap(source, cursor, New(ops) + tail);
      assert source[cursor..start] + New(ops) + tail == source[cursor..] + (New(ops) + tail);
    } else if !last {
      EndedOpsLines(ops);
      GapIsEnded(source, cursor, start);
      ReachBeyond(u, source[cursor..start], New(ops), tail);
    } else if end < |source| {
      ReachAtEnd(u, source[cursor..start] + New(ops), tail);
    } else {
      ReachThrough(source, start, ops, cursor);
      assert source[cursor..start] + New(ops) + [] == source[cursor..start] + New(ops);
    }
  }

  lemma FirstOpsFit(hunks: seq<Hunk>)
    requires hunks != [] && Printable(hunks)
    ensures Printable(hunks[1..]) && LastOps(hunks[0].ops) && (hunks[1..] != [] ==> EndedOps(hunks[0].ops))
  {
    FirstHunkFits(hunks);
  }

  lemma {:induction false} WalkReaches(source: seq<string>, hunks: seq<Hunk>, cursor: nat, drift: int)
    requires UnendedSource(source) && cursor < |source| && Printable(hunks) && Walk(source, hunks, cursor, drift).Ok?
    ensures Reach(source[|source| - 1], Join(Walk(source, hunks, cursor, drift).value))
  {
    if hunks == [] {
      ReachInGap(source, cursor, []);
      assert source[cursor..] + [] == source[cursor..];
    } else {
      var start, ops, rest := Start(hunks[0].header), hunks[0].ops, hunks[1..];
      var tail := SplitWalk(source, hunks, cursor, drift);
      FirstOpsFit(hunks);
      if rest != [] && start < |source| {
        LastIsNotConsumed(source, start, ops);
        WalkReaches(source, rest, start + |Old(ops)|, drift + |New(ops)| - |Old(ops)|);
      }
      ReachStep(source, start, ops, cursor, tail, rest == []);
    }
  }

  lemma LastIsNotConsumed(source: seq<string>, start: nat, ops: seq<Op>)
    requires UnendedSource(source) && start < |source| && Consumes(source, start, ops) && EndedOps(ops)
    ensures start + |Old(ops)| < |source|
  {
    ConsumesIsSlice(source, start, ops);
    if Old(ops) != [] {
      EndedOpsKeep(ops);
      assert source[start + |Old(ops)| - 1] == Old(ops)[|Old(ops)| - 1];
    }
  }

  /** Whatever a patch gives is reachable. */
  lemma PatchedIsReachable(fixture: string, p: string)
    requires Patched(fixture, p).Ok?
    ensures Reachable(fixture, Patched(fixture, p).value)
  {
    if !Terminated(fixture) {
      LinesEnd(fixture);
      ParsedIsPrintable(p);
      WalkIsMeaning(Lines(fixture), ParsePatch(Lines(p)).value, 0, 0);
      WalkReaches(Lines(fixture), ParsePatch(Lines(p)).value, 0, 0);
    }
  }
}
