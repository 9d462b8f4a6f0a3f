/** Undoing a patch text: exactly when the reversed text gives the fixture back. */
module PatchReversal {
  import opened Wrappers
  import opened EditScript
  import opened HunkHeader
  import opened TextLines
  import opened Patch
  import opened PatchLaws
  import opened PatchTexts

  /** The patch text with `+` and `-` exchanged and the two ranges of every header swapped. */
  function ReverseText(p: string): string {
    match ParsePatch(Lines(p))
    case Some(hunks) => PatchText(Reverse(hunks))
    case None => []
  }

  // ----- The reversed text splits into the reversed hunks -----

  /** The same kind of line, with the same text after its mark. */
  predicate SameLine(a: Token, b: Token) {
    && (a.OpLine? <==> b.OpLine?)
    && (a.OpLine? ==> b.op.text == a.op.text)
  }

  predicate SameLines(a: seq<Token>, b: seq<Token>) {
    |a| == |b| && forall i | 0 <= i < |a| :: SameLine(a[i], b[i])
  }

  lemma {:induction false} FlippedLines(ops: seq<Op>)
    ensures SameLines(OpTokens(ops), OpTokens(FlipAll(ops)))
  {
    if ops != [] {
      FlippedLines(ops[1..]);
      assert FlipAll(ops)[1..] == FlipAll(ops[1..]);
      SameCons(OpLine(ops[0]), OpLine(Flip(ops[0])), OpTokens(ops[1..]), OpTokens(FlipAll(ops[1..])));
    }
  }

  lemma SameCons(a: Token, b: Token, s: seq<Token>, t: seq<Token>)
    requires SameLine(a, b) && SameLines(s, t)
    ensures SameLines([a] + s, [b] + t)
  {
  }

  lemma SameAppend(a: seq<Token>, b: seq<Token>, s: seq<Token>, t: seq<Token>)
    requires SameLines(a, b) && SameLines(s, t)
    ensures SameLines(a + s, b + t)
  {
  }

  lemma {:induction false} ReversedLines(hunks: seq<Hunk>)
    ensures SameLines(HunkTokens(hunks), HunkTokens(Reverse(hunks)))
  {
    if hunks != [] {
      var ops, rest := hunks[0].ops, hunks[1..];
      ReversedLines(rest);
      FlippedLines(ops);
      assert Reverse(hunks)[1..] == Reverse(rest);
      SameAppend(OpTokens(ops), OpTokens(FlipAll(ops)), HunkTokens(rest), HunkTokens(Reverse(rest)));
      SameCons(HunkLine(hunks[0].header), HunkLine(ReverseHunk(hunks[0]).header),
               OpTokens(ops) + HunkTokens(rest), OpTokens(FlipAll(ops)) + HunkTokens(Reverse(rest)));
    }
  }

  lemma ReverseIsPrintable(hunks: seq<Hunk>)
    requires Printable(hunks)
    ensures Printable(Reverse(hunks))
  {
    ReversedLines(hunks);
    var tokens, flipped := HunkTokens(hunks), HunkTokens(Reverse(hunks));
    forall i: nat | i < |flipped|
      ensures FitsLine(flipped, i)
    {
      assert SameLine(tokens[i], flipped[i]) && FitsLine(tokens, i);
    }
  }

  // ----- The result consists of pieces -----

  predicate AllPieces(lines: seq<string>) {
    forall i | 0 <= i < |lines| :: IsPiece(lines[i])
  }

  /** The operations of the first hunk, and what is left for the others. */
  lemma FirstHunkFits(hunks: seq<Hunk>)
    requires hunks != [] && Printable(hunks)
    ensures Printable(hunks[1..])
    ensures var ops := hunks[0].ops;
            forall i | 0 <= i < |ops| ::
              IsPiece(ops[i].text) && (i + 1 < |ops| || hunks[1..] != [] ==> Ended(ops[i].text))
  {
    var tokens, ops, rest := HunkTokens(hunks), hunks[0].ops, HunkTokens(hunks[1..]);
    OpTokensAre(ops);
    assert tokens == [HunkLine(hunks[0].header)] + (OpTokens(ops) + rest);
    forall i | 0 <= i < |ops|
      ensures IsPiece(ops[i].text) && (i + 1 < |ops| || hunks[1..] != [] ==> Ended(ops[i].text))
    {
      assert FitsLine(tokens, i + 1) && tokens[i + 1] == OpLine(ops[i]);
    }
    forall i: nat | i < |rest|
      ensures FitsLine(rest, i)
    {
      assert FitsLine(tokens, 1 + |ops| + i) && tokens[1 + |ops| + i] == rest[i];
    }
  }

  lemma {:induction false} NewIsPieces(ops: seq<Op>)
    requires forall i | 0 <= i < |ops| :: IsPiece(ops[i].text)
    ensures AllPieces(New(ops))
  {
    if ops != [] {
      assert forall i | 0 <= i < |ops[1..]| :: ops[1..][i] == ops[i + 1];
      NewIsPieces(ops[1..]);
    }
  }

  lemma {:induction false} ResultIsPieces(source: seq<string>, hunks: seq<Hunk>, cursor: nat, drift: int)
    requires AllPieces(source) && Printable(hunks) && Walk(source, hunks, cursor, drift).Ok?
    ensures AllPieces(Walk(source, hunks, cursor, drift).value)
  {
    if hunks != [] {
      var h, ops := hunks[0].header, hunks[0].ops;
      var tail := SplitWalk(source, hunks, cursor, drift);
      FirstHunkFits(hunks);
      NewIsPieces(ops);
      ResultIsPieces(source, hunks[1..], Start(h) + |Old(ops)|, drift + |New(ops)| - |Old(ops)|);
      PiecesAppend(source[cursor..Start(h)], New(ops));
      PiecesAppend(source[cursor..Start(h)] + New(ops), tail);
    }
  }

  lemma PiecesAppend(a: seq<string>, b: seq<string>)
    requires AllPieces(a) && AllPieces(b)
    ensures AllPieces(a + b)
  {
  }

  // ----- Two sources that differ from line `i` on -----

  /** `x` and `r` agree before line `i` and not there. */
  predicate Differ(x: seq<string>, r: seq<string>, i: nat) {
    i < |r| && i <= |x| && x[..i] == r[..i] && (i < |x| ==> x[i] != r[i])
  }

  /** Line `m` of the second result is line `i` of its source; the first result agrees up to there. */
  predicate Follows(x: seq<string>, r: seq<string>, i: nat, y: seq<string>, z: seq<string>, m: nat) {
    && i < |r| && m < |z| && z[m] == r[i] && m <= |y| && y[..m] == z[..m]
    && (i < |x| ==> m < |y| && y[m] == x[i])
  }

  lemma FollowsLater(x: seq<string>, r: seq<string>, i: nat, y: seq<string>, z: seq<string>, m: nat, head: seq<string>)
    requires Follows(x, r, i, y, z, m)
    ensures Follows(x, r, i, head + y, head + z, |head| + m)
  {
    assert (head + y)[..|head| + m] == head + y[..m] && (head + z)[..|head| + m] == head + z[..m];
  }

  lemma SameSlice(x: seq<string>, r: seq<string>, i: nat, a: nat, b: nat)
    requires i <= |x| && i <= |r| && x[..i] == r[..i] && a <= b <= i
    ensures x[a..b] == r[a..b]
  {
    assert x[a..b] == x[..i][a..b] && r[a..b] == r[..i][a..b];
  }

  lemma FollowsInGap(x: seq<string>, r: seq<string>, i: nat, cursor: nat, start: nat, y: seq<string>, z: seq<string>)
    requires Differ(x, r, i) && cursor <= i < start <= |x| && start <= |r|
    ensures Follows(x, r, i, x[cursor..start] + y, r[cursor..start] + z, i - cursor)
  {
    SameSlice(x, r, i, cursor, i);
    assert (x[cursor..start] + y)[..i - cursor] == x[cursor..i];
    assert (r[cursor..start] + z)[..i - cursor] == r[cursor..i];
  }

  lemma FollowsInTail(x: seq<string>, r: seq<string>, i: nat, cursor: nat)
    requires Differ(x, r, i) && cursor <= i
    ensures Follows(x, r, i, x[cursor..], r[cursor..], i - cursor)
  {
    SameSlice(x, r, i, cursor, i);
    assert x[cursor..][..i - cursor] == x[cursor..i] && r[cursor..][..i - cursor] == r[cursor..i];
  }

  lemma ConsumedAgree(x: seq<string>, r: seq<string>, start: nat, ops: seq<Op>, i: nat)
    requires Consumes(x, start, ops) && Consumes(r, start, ops) && start <= i < start + |Old(ops)|
    ensures i < |x| && i < |r| && x[i] == r[i]
  {
    ConsumesIsSlice(x, start, ops);
    ConsumesIsSlice(r, start, ops);
    assert x[i] == x[start..start + |Old(ops)|][i - start] && r[i] == r[start..start + |Old(ops)|][i - start];
  }

  /** One hunk that fits both sources: the difference is in the gap before it or comes after it. */
  lemma DifferenceStep(
    x: seq<string>, r: seq<string>, i: nat, start: nat, ops: seq<Op>, cursor: nat, y: seq<string>, z: seq<string>,
    k: nat) returns (m: nat)
    requires Differ(x, r, i) && cursor <= start && cursor <= i && Consumes(x, start, ops) && Consumes(r, start, ops)
    requires start + |Old(ops)| <= i ==> Follows(x, r, i, y, z, k)
    ensures Follows(x, r, i, x[cursor..start] + New(ops) + y, r[cursor..start] + New(ops) + z, m)
  {
    if i < start {
      FollowsInGap(x, r, i, cursor, start, New(ops) + y, New(ops) + z);
      assert x[cursor..start] + New(ops) + y == x[cursor..start] + (New(ops) + y);
      assert r[cursor..start] + New(ops) + z == r[cursor..start] + (New(ops) + z);
      return i - cursor;
    }
    if i < start + |Old(ops)| {
      ConsumedAgree(x, r, start, ops, i);
    }
    SameSlice(x, r, i, cursor, start);
    FollowsLater(x, r, i, y, z, k, r[cursor..start] + New(ops));
    return |r[cursor..start] + New(ops)| + k;
  }

  /** The same hunks, accepted on both sources, leave line `i` in the second result and its counterpart in the first. */
  lemma {:induction false} DifferenceFollows(
    x: seq<string>, r: seq<string>, i: nat, hunks: seq<Hunk>, cursor: nat, drift: int) returns (m: nat)
    requires Differ(x, r, i) && cursor <= i
    requires Walk(x, hunks, cursor, drift).Ok? && Walk(r, hunks, cursor, drift).Ok?
    ensures Follows(x, r, i, Walk(x, hunks, cursor, drift).value, Walk(r, hunks, cursor, drift).value, m)
  {
    if hunks == [] {
      FollowsInTail(x, r, i, cursor);
      return i - cursor;
    }
    var start, ops := Start(hunks[0].header), hunks[0].ops;
    var end, moved := start + |Old(ops)|, drift + |New(ops)| - |Old(ops)|;
    var y := SplitWalk(x, hunks, cursor, drift);
    var z := SplitWalk(r, hunks, cursor, drift);
    var k := 0;
    if end <= i {
      k := DifferenceFollows(x, r, i, hunks[1..], end, moved);
    }
    m := DifferenceStep(x, r, i, start, ops, cursor, y, z, k);
  }

  // ----- Reversal of texts -----

  /** A line that continues a line of a well cut text gives another text. */
  lemma LongerLineDiffers(lines: seq<string>, m: nat, y: seq<string>)
    requires WellCut(lines) && m < |lines| && m < |y| && y[..m] == lines[..m]
    requires IsLine(y[m]) && lines[m] < y[m]
    ensures Join(y) != Join(lines)
  {
    var before, line, longer := Join(lines[..m]), lines[m], y[m];
    var next, later := Join(lines[m + 1..]), Join(y[m + 1..]);
    SplitJoin(lines, m);
    SplitJoin(y, m);
    var k := |before| + |line|;
    assert Join(y)[k] == longer[|line|];
    assert !Cut(longer[|line| - 1], longer[|line|]) && longer[|line| - 1] == Last(line);
    if m + 1 < |lines| {
      JoinStarts(lines[m + 1..]);
      assert Cut(Last(lines[m + 1 - 1]), lines[m + 1][0]);
      assert Join(lines)[k] == next[0] == lines[m + 1][0];
    } else {
      assert lines[m + 1..] == [];
      assert |Join(lines)| == k;
    }
  }

  /** Hunks that turn pieces into lines never turn the split of the joined pieces into the same text. */
  lemma BadCutDiffers(pieces: seq<string>, hunks: seq<Hunk>, lines: seq<string>)
    requires AllPieces(pieces) && !WellCut(pieces) && WellCut(lines)
    requires Walk(pieces, hunks, 0, 0) == Ok(lines)
    ensures Joined(Walk(Lines(Join(pieces)), hunks, 0, 0)) != Ok(Join(lines))
  {
    var x := Lines(Join(pieces));
    if Walk(x, hunks, 0, 0).Ok? {
      var i := FirstBadCut(pieces);
      LinesAreWellCut(Join(pieces));
      var m := DifferenceFollows(x, pieces, i, hunks, 0, 0);
      assert pieces[i] == lines[m] != [];
      LongerLineDiffers(lines, m, Walk(x, hunks, 0, 0).value);
    }
  }

  /** The lines a patch text makes of a fixture, before they are joined. */
  function ResultLines(fixture: string, p: string): seq<string>
    requires Patched(fixture, p).Ok?
  {
    Apply(Lines(fixture), Lines(p)).value
  }

  ghost predicate Reversible(fixture: string, p: string)
    requires Patched(fixture, p).Ok?
  {
    AllStartsPositive(ParsePatch(Lines(p)).value) && WellCut(ResultLines(fixture, p))
  }

  lemma ReverseTextApplies(fixture: string, p: string, target: string)
    requires Patched(fixture, p).Ok?
    ensures ParsePatch(Lines(p)).Some?
    ensures Patched(target, ReverseText(p)) == Joined(Meaning(Lines(target), Reverse(ParsePatch(Lines(p)).value), 0, 0))
  {
    var hunks := ParsePatch(Lines(p)).value;
    ParsedIsPrintable(p);
    ReverseIsPrintable(hunks);
    PatchTextApplies(target, Reverse(hunks));
  }

  lemma WellCutReverses(fixture: string, p: string, target: string)
    requires Patched(fixture, p).Ok? && target == Patched(fixture, p).value && Reversible(fixture, p)
    ensures Patched(target, ReverseText(p)) == Ok(fixture)
  {
    var result := ResultLines(fixture, p);
    ReverseTextApplies(fixture, p, target);
    LinesOfJoin(result);
    ReversalIff(Lines(fixture), ParsePatch(Lines(p)).value, result);
    JoinOfLines(fixture);
  }

  lemma ZeroStartStays(fixture: string, p: string, target: string)
    requires Patched(fixture, p).Ok? && !AllStartsPositive(ParsePatch(Lines(p)).value)
    ensures Patched(target, ReverseText(p)) == Err
  {
    var hunks := ParsePatch(Lines(p)).value;
    ReverseTextApplies(fixture, p, target);
    var k: nat :| k < |hunks| && hunks[k].header.oldStart < 1;
    ZeroNewStartRefused(Lines(target), Reverse(hunks), k);
  }

  lemma BadCutStays(fixture: string, p: string, target: string)
    requires Patched(fixture, p).Ok? && target == Patched(fixture, p).value
    requires AllStartsPositive(ParsePatch(Lines(p)).value) && !WellCut(ResultLines(fixture, p))
    ensures Patched(target, ReverseText(p)) != Ok(fixture)
  {
    var source, hunks, result := Lines(fixture), ParsePatch(Lines(p)).value, ResultLines(fixture, p);
    ReverseTextApplies(fixture, p, target);
    ResultLinesArePieces(fixture, p);
    ReversalIff(source, hunks, result);
    WalkIsMeaning(result, Reverse(hunks), 0, 0);
    WalkIsMeaning(Lines(target), Reverse(hunks), 0, 0);
    LinesAreWellCut(fixture);
    JoinOfLines(fixture);
    BadCutDiffers(result, Reverse(hunks), source);
  }

  lemma ResultLinesArePieces(fixture: string, p: string)
    requires Patched(fixture, p).Ok?
    ensures AllPieces(ResultLines(fixture, p))
  {
    LinesAreWellCut(fixture);
    ParsedIsPrintable(p);
    WalkIsMeaning(Lines(fixture), ParsePatch(Lines(p)).value, 0, 0);
    ResultIsPieces(Lines(fixture), ParsePatch(Lines(p)).value, 0, 0);
  }

  /** Reversal: the reversed text turns the result back into the fixture exactly when no hunk states an old
      start of zero and the result lines are cut where the result text is. */
  lemma TextReversalIff(fixture: string, p: string, target: string)
    requires Patched(fixture, p).Ok? && target == Patched(fixture, p).value
    ensures Patched(target, ReverseText(p)) == Ok(fixture) <==> Reversible(fixture, p)
    ensures Applied(target, ReverseText(p)) == Ok(fixture) <==>
            Reversible(fixture, p) && Bytes(ReverseText(p)) <= MAX_CASE_BYTES
  {
    if Reversible(fixture, p) {
      WellCutReverses(fixture, p, target);
    } else if AllStartsPositive(ParsePatch(Lines(p)).value) {
      BadCutStays(fixture, p, target);
    } else {
      ZeroStartStays(fixture, p, target);
    }
  }

  // ----- Inputs that show both conditions are needed -----

  /** One hunk that inserts `b`, with the given starts. */
  function Inserting(oldStart: nat, newStart: nat): seq<Hunk> {
    [Hunk(Header(oldStart, 0, newStart, 1), [Insert("b\n")])]
  }

  lemma InsertingIsPrintable(oldStart: nat, newStart: nat)
    ensures Printable(Inserting(oldStart, newStart))
  {
    var hunks := Inserting(oldStart, newStart);
    assert hunks[1..] == [] && hunks[0].ops[1..] == [];
    assert HunkTokens(hunks) == [HunkLine(hunks[0].header), OpLine(Insert("b\n"))];
  }

  lemma InsertingMeans(source: seq<string>, oldStart: nat, newStart: nat, hunks: seq<Hunk>)
    requires oldStart <= |source| + 1 && hunks == Inserting(oldStart, newStart)
    ensures var start := if oldStart == 0 then 0 else oldStart - 1;
            Meaning(source, hunks, 0, 0) ==
            if newStart == start + 1 then Ok(source[..start] + ["b\n"] + source[start..]) else Err
  {
    WalkIsMeaning(source, hunks, 0, 0);
    assert hunks[1..] == [] && hunks[0].ops[1..] == [];
    assert New(hunks[0].ops) == ["b\n"] && Old(hunks[0].ops) == [];
  }

  /** A patch text for the hunk, on a fixture of one line. */
  lemma InsertingApplies(fixture: string, oldStart: nat, newStart: nat, hunks: seq<Hunk>) returns (p: string)
    requires IsLine(fixture) && oldStart <= 2 && hunks == Inserting(oldStart, newStart)
    ensures ParsePatch(Lines(p)) == Some(hunks)
    ensures Patched(fixture, p) == Joined(Meaning([fixture], hunks, 0, 0))
  {
    p := PatchText(hunks);
    InsertingIsPrintable(oldStart, newStart);
    PatchTextApplies(fixture, hunks);
    LinesOfLine(fixture);
  }

  lemma InsertsBefore(fixture: string, oldStart: nat, newStart: nat, hunks: seq<Hunk>) returns (p: string)
    requires IsLine(fixture) && oldStart == 0 && newStart == 1 && hunks == Inserting(oldStart, newStart)
    ensures ParsePatch(Lines(p)) == Some(hunks)
    ensures Patched(fixture, p) == Ok("b\n" + fixture)
  {
    p := InsertingApplies(fixture, oldStart, newStart, hunks);
    InsertingMeans([fixture], oldStart, newStart, hunks);
    assert [fixture][..0] + ["b\n"] + [fixture][0..] == ["b\n", fixture];
    JoinTwo("b\n", fixture);
  }

  lemma InsertsAfter(fixture: string, start: nat, hunks: seq<Hunk>) returns (p: string)
    requires IsLine(fixture) && start == 2 && hunks == Inserting(start, start)
    ensures ParsePatch(Lines(p)) == Some(hunks)
    ensures Patched(fixture, p) == Ok(fixture + "b\n")
  {
    p := InsertingApplies(fixture, start, start, hunks);
    InsertingMeans([fixture], start, start, hunks);
    assert [fixture][..1] + ["b\n"] + [fixture][1..] == [fixture, "b\n"];
    JoinTwo(fixture, "b\n");
  }

  /** A patch with the header `@@ -0,0 +1,1 @@` is accepted, and its reverse refused. */
  lemma ZeroStartIsNotReversible(fixture: string, oldStart: nat, newStart: nat, hunks: seq<Hunk>) returns (p: string)
    requires fixture == "a\n" && oldStart == 0 && newStart == 1 && hunks == Inserting(oldStart, newStart)
    ensures ParsePatch(Lines(p)) == Some(hunks)
    ensures Patched(fixture, p) == Ok("b\n" + fixture)
    ensures Patched("b\n" + fixture, ReverseText(p)) == Err
  {
    p := InsertsBefore(fixture, oldStart, newStart, hunks);
    assert hunks[0].header.oldStart == 0;
    ZeroStartStays(fixture, p, "b\n" + fixture);
  }

  lemma GluedIsLine(fixture: string)
    requires fixture == "a"
    ensures IsLine(fixture) && Lines(fixture + "b\n") == [fixture + "b\n"]
  {
    var target := fixture + "b\n";
    assert IsLine(target);
    LinesOfLine(target);
  }

  /** A patch with the header `@@ -2,0 +2,1 @@` inserts a line after the fixture `a`, which has no line break: the
      line is glued to it, and the reverse finds one line less. */
  lemma UnendedIsNotReversible(fixture: string, start: nat, hunks: seq<Hunk>) returns (p: string)
    requires fixture == "a" && start == 2 && hunks == Inserting(start, start)
    ensures ParsePatch(Lines(p)) == Some(hunks) && AllStartsPositive(hunks)
    ensures Patched(fixture, p) == Ok(fixture + "b\n")
    ensures Patched(fixture + "b\n", ReverseText(p)) == Err
  {
    GluedIsLine(fixture);
    p := InsertsAfter(fixture, start, hunks);
    var target := fixture + "b\n";
    ReverseTextApplies(fixture, p, target);
    DeletingRefused([target], start, hunks);
  }

  lemma DeletingRefused(source: seq<string>, start: nat, hunks: seq<Hunk>)
    requires |source| == 1 && start == 2 && hunks == Inserting(start, start)
    ensures Meaning(source, Reverse(hunks), 0, 0) == Err
  {
    var flipped := Reverse(hunks);
    WalkIsMeaning(source, flipped, 0, 0);
    assert flipped[0].ops == [Delete("b\n")] by {
      assert hunks[0].ops[1..] == [];
    }
    assert !HunkFits(source, flipped[0].header, flipped[0].ops, 0, 0);
  }
}
