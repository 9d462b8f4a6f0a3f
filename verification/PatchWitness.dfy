/** A patch for every reachable text, and how many bytes it takes. */
module PatchWitness {
  import opened Wrappers
  import opened EditScript
  import opened HunkHeader
  import opened TextLines
  import opened Patch
  import opened PatchLaws
  import opened PatchTexts
  import opened PatchReversal
  import opened PatchReach
  import Decimal

  function Deletes(lines: seq<string>): (ops: seq<Op>)
    ensures |ops| == |lines| && forall i | 0 <= i < |ops| :: ops[i] == Delete(lines[i])
  {
    if lines == [] then [] else [Delete(lines[0])] + Deletes(lines[1..])
  }

  function Inserts(lines: seq<string>): (ops: seq<Op>)
    ensures |ops| == |lines| && forall i | 0 <= i < |ops| :: ops[i] == Insert(lines[i])
  {
    if lines == [] then [] else [Insert(lines[0])] + Inserts(lines[1..])
  }

  lemma {:induction false} DeletesAreOld(lines: seq<string>)
    ensures Old(Deletes(lines)) == lines && New(Deletes(lines)) == []
  {
    if lines != [] {
      DeletesAreOld(lines[1..]);
      assert Deletes(lines)[1..] == Deletes(lines[1..]);
    }
  }

  lemma {:induction false} InsertsAreNew(lines: seq<string>)
    ensures Old(Inserts(lines)) == [] && New(Inserts(lines)) == lines
  {
    if lines != [] {
      InsertsAreNew(lines[1..]);
      assert Inserts(lines)[1..] == Inserts(lines[1..]);
    }
  }

  /** Operations that replace `x` by `y`, the removals first or last. */
  function Replaces(x: seq<string>, y: seq<string>, removalsFirst: bool): seq<Op> {
    if removalsFirst then Deletes(x) + Inserts(y) else Inserts(y) + Deletes(x)
  }

  lemma ReplacesMean(x: seq<string>, y: seq<string>, removalsFirst: bool)
    ensures Old(Replaces(x, y, removalsFirst)) == x && New(Replaces(x, y, removalsFirst)) == y
  {
    DeletesAreOld(x);
    InsertsAreNew(y);
    OldAppend(Deletes(x), Inserts(y));
    NewAppend(Deletes(x), Inserts(y));
    OldAppend(Inserts(y), Deletes(x));
    NewAppend(Inserts(y), Deletes(x));
    assert x + [] == x && [] + x == x && y + [] == y && [] + y == y;
  }

  // ----- The hunks -----

  /** A hunk that replaces the first lines `x` by `y`. */
  function AtStart(x: seq<string>, y: seq<string>, removalsFirst: bool): Hunk {
    Hunk(Header(1, |x|, 1, |y|), Replaces(x, y, removalsFirst))
  }

  /** A hunk that adds `b` after `n` lines, when `m` lines have been produced. */
  function AtEnd(n: nat, m: nat, b: seq<string>): Hunk {
    Hunk(Header(n + 1, 0, m + 1, |b|), Replaces([], b, true))
  }

  lemma StartMeans(source: seq<string>, x: seq<string>, y: seq<string>, removalsFirst: bool, rest: seq<Hunk>)
    requires x <= source
    ensures Walk(source, [AtStart(x, y, removalsFirst)] + rest, 0, 0) == Prepend(y, Walk(source, rest, |x|, |y| - |x|))
  {
    var h, ops := AtStart(x, y, removalsFirst).header, AtStart(x, y, removalsFirst).ops;
    ReplacesMean(x, y, removalsFirst);
    ConsumesIsSlice(source, 0, ops);
    assert source[0..0] + y == y;
    assert ([AtStart(x, y, removalsFirst)] + rest)[1..] == rest;
    assert Walk(source, [AtStart(x, y, removalsFirst)] + rest, 0, 0) == WalkHunk(source, h, ops, rest, 0, 0);
  }

  lemma EndMeans(source: seq<string>, cursor: nat, y: nat, b: seq<string>)
    requires cursor <= |source|
    ensures Walk(source, [AtEnd(|source|, y + (|source| - cursor), b)], cursor, y - cursor) == Ok(source[cursor..] + b)
  {
    var hunk := AtEnd(|source|, y + (|source| - cursor), b);
    ReplacesMean([], b, true);
    ConsumesIsSlice(source, |source|, hunk.ops);
    assert source[cursor..|source|] + b + source[|source|..] == source[cursor..] + b;
    assert [hunk][1..] == [];
    assert Walk(source, [hunk], cursor, y - cursor) == WalkHunk(source, hunk.header, hunk.ops, [], cursor, y - cursor);
  }

  // ----- They are printable -----

  lemma PrintableCons(hunk: Hunk, rest: seq<Hunk>)
    requires Printable(rest) && LastOps(hunk.ops) && (rest != [] ==> EndedOps(hunk.ops))
    ensures Printable([hunk] + rest)
  {
    var hunks, ops := [hunk] + rest, hunk.ops;
    assert hunks[1..] == rest;
    OpTokensAre(ops);
    var tokens, later := HunkTokens(hunks), HunkTokens(rest);
    assert tokens == [HunkLine(hunk.header)] + (OpTokens(ops) + later);
    forall i: nat | i < |tokens|
      ensures FitsLine(tokens, i)
    {
      if 1 <= i <= |ops| {
        assert tokens[i] == OpLine(ops[i - 1]);
        if rest == [] {
          assert |tokens| == 1 + |ops|;
        }
      } else if i > |ops| {
        assert tokens[i] == later[i - 1 - |ops|] && FitsLine(later, i - 1 - |ops|);
      }
    }
  }

  lemma NoneIsPrintable()
    ensures Printable([])
  {
  }

  lemma FitAppend(a: seq<Op>, b: seq<Op>)
    requires EndedOps(a) && LastOps(b)
    ensures LastOps(a + b) && (EndedOps(b) ==> EndedOps(a + b))
  {
  }

  lemma LineOpsFit(lines: seq<string>, ops: seq<Op>)
    requires Ending(lines) && |ops| == |lines| && forall i | 0 <= i < |ops| :: ops[i].text == lines[i]
    ensures LastOps(ops) && (AllEnded(lines) ==> EndedOps(ops))
  {
    forall i | 0 <= i < |ops|
      ensures IsPiece(ops[i].text) && (i + 1 < |ops| ==> Ended(ops[i].text))
    {
      assert i + 1 < |ops| ==> lines[i] == AllButLast(lines)[i];
    }
  }

  lemma ReplacesFit(x: seq<string>, y: seq<string>, removalsFirst: bool)
    requires Ending(x) && Ending(y) && (if removalsFirst then AllEnded(x) else AllEnded(y))
    ensures LastOps(Replaces(x, y, removalsFirst))
    ensures AllEnded(x) && AllEnded(y) ==> EndedOps(Replaces(x, y, removalsFirst))
  {
    LineOpsFit(x, Deletes(x));
    LineOpsFit(y, Inserts(y));
    if removalsFirst {
      FitAppend(Deletes(x), Inserts(y));
    } else {
      FitAppend(Inserts(y), Deletes(x));
    }
  }

  // ----- Their size -----

  /** The bytes of the texts after the marks. */
  function TextBytes(ops: seq<Op>): nat {
    if ops == [] then 0 else Bytes(ops[0].text) + TextBytes(ops[1..])
  }

  lemma {:induction false} PrintOpsBytes(ops: seq<Op>)
    ensures Bytes(Join(PrintOps(ops))) == |ops| + TextBytes(ops)
  {
    if ops != [] {
      PrintOpsBytes(ops[1..]);
      var line := PrintOp(ops[0]);
      assert PrintOps(ops)[1..] == PrintOps(ops[1..]);
      BytesAppend(line, Join(PrintOps(ops[1..])));
      assert line[1..] == ops[0].text && Utf8(line[0]) == 1;
    }
  }

  lemma {:induction false} TextBytesAppend(a: seq<Op>, b: seq<Op>)
    ensures TextBytes(a + b) == TextBytes(a) + TextBytes(b)
  {
    if a == [] {
      assert a + b == b;
    } else {
      assert (a + b)[1..] == a[1..] + b;
      TextBytesAppend(a[1..], b);
    }
  }

  lemma {:induction false} TextBytesOf(lines: seq<string>)
    ensures TextBytes(Deletes(lines)) == Bytes(Join(lines)) && TextBytes(Inserts(lines)) == Bytes(Join(lines))
  {
    if lines != [] {
      TextBytesOf(lines[1..]);
      assert Deletes(lines)[1..] == Deletes(lines[1..]) && Inserts(lines)[1..] == Inserts(lines[1..]);
      BytesAppend(lines[0], Join(lines[1..]));
    }
  }

  lemma ReplacesBytes(x: seq<string>, y: seq<string>, removalsFirst: bool)
    ensures Bytes(Join(PrintOps(Replaces(x, y, removalsFirst)))) == |x| + |y| + Bytes(Join(x)) + Bytes(Join(y))
  {
    PrintOpsBytes(Replaces(x, y, removalsFirst));
    TextBytesAppend(Deletes(x), Inserts(y));
    TextBytesAppend(Inserts(y), Deletes(x));
    TextBytesOf(x);
    TextBytesOf(y);
  }

  predicate Ascii(s: string) {
    forall i | 0 <= i < |s| :: s[i] < '\U{80}'
  }

  lemma {:induction false} AsciiBytes(s: string)
    requires Ascii(s)
    ensures Bytes(s) == |s|
  {
    if s != [] {
      AsciiBytes(s[1..]);
    }
  }

  lemma {:induction false} DigitCount(n: nat, digits: nat, limit: nat)
    requires digits >= 1 && limit == Power(digits) && n < limit
    ensures |Decimal.Print(n)| <= digits
    decreases digits
  {
    if n >= 10 {
      DigitCount(n / 10, digits - 1, Power(digits - 1));
    }
  }

  function Power(digits: nat): nat {
    if digits == 0 then 1 else 10 * Power(digits - 1)
  }

  const MAX_NUMBER := 100_000

  predicate Small(h: Header) {
    h.oldStart < MAX_NUMBER && h.oldTotal < MAX_NUMBER && h.newStart < MAX_NUMBER && h.newTotal < MAX_NUMBER
  }

  lemma NumberBytes(n: nat)
    requires n < MAX_NUMBER
    ensures Ascii(Decimal.Print(n)) && |Decimal.Print(n)| <= 5
  {
    DigitCount(n, 5, Power(5));
  }

  lemma RangeBytes(prefix: string, start: nat, total: nat, rest: string)
    requires start < MAX_NUMBER && total < MAX_NUMBER && Ascii(prefix) && Ascii(rest)
    ensures Ascii(PrintRange(prefix, start, total, rest))
    ensures |PrintRange(prefix, start, total, rest)| <= |prefix| + |rest| + 11
  {
    NumberBytes(start);
    NumberBytes(total);
  }

  lemma HeaderBytes(h: Header)
    requires Small(h)
    ensures Bytes(HunkHeader.Print(h)) <= 32
  {
    RangeBytes(" +", h.newStart, h.newTotal, " @@");
    RangeBytes("@@ -", h.oldStart, h.oldTotal, PrintRange(" +", h.newStart, h.newTotal, " @@"));
    AsciiBytes(HunkHeader.Print(h));
  }

  lemma TwoAscii(names: seq<string>)
    requires |names| == 2 && Ascii(names[0]) && Ascii(names[1])
    ensures Bytes(Join(names)) == |names[0]| + |names[1]|
  {
    AsciiBytes(names[0]);
    AsciiBytes(names[1]);
    assert names == [names[0], names[1]];
    JoinTwo(names[0], names[1]);
    BytesAppend(names[0], names[1]);
  }

  lemma NamesAreAscii(names: seq<string>)
    requires names == FILE_NAMES
    ensures |names| == 2 && Ascii(names[0]) && Ascii(names[1]) && |names[0]| == |names[1]| == 17
  {
  }

  lemma HunkBytes(hunk: Hunk, rest: seq<Hunk>)
    requires Small(hunk.header)
    ensures Bytes(Join(PrintHunks([hunk] + rest))) <=
            32 + Bytes(Join(PrintOps(hunk.ops))) + Bytes(Join(PrintHunks(rest)))
  {
    var header, ops, later := HunkHeader.Print(hunk.header), PrintOps(hunk.ops), PrintHunks(rest);
    HeaderBytes(hunk.header);
    assert ([hunk] + rest)[1..] == rest;
    assert PrintHunks([hunk] + rest) == [header] + (ops + later);
    JoinAppend([header], ops + later);
    JoinOne(header);
    JoinAppend(ops, later);
    BytesAppend(header, Join(ops) + Join(later));
    BytesAppend(Join(ops), Join(later));
  }

  /** The two names and the hunks. */
  function PatchSize(hunks: seq<Hunk>): nat {
    34 + Bytes(Join(PrintHunks(hunks)))
  }

  lemma PatchBytes(hunks: seq<Hunk>)
    ensures Bytes(PatchText(hunks)) == PatchSize(hunks)
  {
    var names := PrintPatch(hunks)[..2];
    NamesAreAscii(names);
    TwoAscii(names);
    assert PrintPatch(hunks) == names + PrintHunks(hunks);
    JoinAppend(names, PrintHunks(hunks));
    BytesAppend(Join(names), Join(PrintHunks(hunks)));
  }

  lemma {:induction false} LineCount(lines: seq<string>)
    requires AllLines(lines)
    ensures |lines| <= |Join(lines)| <= Bytes(Join(lines))
  {
    if lines != [] {
      assert forall i | 0 <= i < |lines[1..]| :: lines[1..][i] == lines[i + 1];
      LineCount(lines[1..]);
    }
  }

  // ----- The witnesses -----

  /** The bytes of a text, and one for the mark of each of its lines. */
  function Cost(t: string): nat {
    Bytes(t) + |Lines(t)|
  }

  /** What is left of the limit beside the two names and the headers of two hunks. */
  const ROOM := MAX_CASE_BYTES - 98

  /** `p` turns `fixture` into `target`, and is within the limit when the two are not too long. */
  ghost predicate Witness(fixture: string, target: string, p: string) {
    && Patched(fixture, p) == Ok(target)
    && (Cost(fixture) + Cost(target) <= ROOM ==> Bytes(p) <= MAX_CASE_BYTES)
  }

  lemma LinesAreEnding(t: string)
    ensures Ending(Lines(t)) && (Terminated(t) ==> AllEnded(Lines(t)))
    ensures |Lines(t)| <= Bytes(t) && Join(Lines(t)) == t
  {
    LinesEnd(t);
    JoinOfLines(t);
    LineCount(Lines(t));
    if t != [] && Terminated(t) {
      var lines := Lines(t);
      forall i | 0 <= i < |lines|
        ensures Ended(lines[i])
      {
        assert i < |lines| - 1 ==> lines[i] == AllButLast(lines)[i];
      }
    }
  }

  lemma HunksApply(fixture: string, hunks: seq<Hunk>, result: seq<string>) returns (p: string)
    requires hunks != [] && Printable(hunks) && Walk(Lines(fixture), hunks, 0, 0) == Ok(result)
    ensures Patched(fixture, p) == Ok(Join(result)) && Bytes(p) == PatchSize(hunks)
  {
    p := PatchText(hunks);
    WalkIsMeaning(Lines(fixture), hunks, 0, 0);
    PatchTextApplies(fixture, hunks);
    PatchBytes(hunks);
  }

  lemma OneIsPrintable(hunk: Hunk)
    requires LastOps(hunk.ops)
    ensures Printable([hunk])
  {
    NoneIsPrintable();
    PrintableCons(hunk, []);
    assert [hunk] + [] == [hunk];
  }

  /** One hunk that replaces the first lines of the fixture. */
  lemma OneHunk(fixture: string, x: seq<string>, y: seq<string>, removalsFirst: bool) returns (p: string)
    requires x <= Lines(fixture) && LastOps(Replaces(x, y, removalsFirst))
    ensures Patched(fixture, p) == Ok(Join(y + Lines(fixture)[|x|..]))
    ensures Bytes(p) == PatchSize([AtStart(x, y, removalsFirst)])
  {
    var hunk := AtStart(x, y, removalsFirst);
    OneIsPrintable(hunk);
    StartMeans(Lines(fixture), x, y, removalsFirst, []);
    assert [hunk] + [] == [hunk];
    p := HunksApply(fixture, [hunk], y + Lines(fixture)[|x|..]);
  }

  lemma OneHunkBytes(x: seq<string>, y: seq<string>, removalsFirst: bool)
    requires |x| + |y| + Bytes(Join(x)) + Bytes(Join(y)) <= ROOM
    ensures PatchSize([AtStart(x, y, removalsFirst)]) <= MAX_CASE_BYTES
  {
    var hunk := AtStart(x, y, removalsFirst);
    HunkBytes(hunk, []);
    assert [hunk] + [] == [hunk];
    ReplacesBytes(x, y, removalsFirst);
  }

  /** The whole fixture is replaced; at most one of the two texts is not terminated. */
  lemma ReplaceAll(fixture: string, target: string) returns (p: string)
    requires Terminated(fixture) || Terminated(target)
    ensures Witness(fixture, target, p)
  {
    var x, y, removalsFirst := Lines(fixture), Lines(target), Terminated(fixture);
    LinesAreEnding(fixture);
    LinesAreEnding(target);
    ReplacesFit(x, y, removalsFirst);
    p := OneHunk(fixture, x, y, removalsFirst);
    assert y + x[|x|..] == y;
    if Cost(fixture) + Cost(target) <= ROOM {
      OneHunkBytes(x, y, removalsFirst);
    }
  }

  lemma SplitOffLast(lines: seq<string>)
    requires lines != [] && Ending(lines)
    ensures var x, u := AllButLast(lines), lines[|lines| - 1];
            lines == x + [u] && lines[|x|..] == [u] && Ending(x) && AllEnded(x)
  {
    var x := AllButLast(lines);
    assert forall i | 0 <= i < |x| :: x[i] == lines[i];
    assert forall i | 0 <= i < |AllButLast(x)| :: AllButLast(x)[i] == x[i];
  }

  lemma BytesOfLast(x: seq<string>, u: string, fixture: string)
    requires Join(x + [u]) == fixture && AllLines(x)
    ensures |x| <= Bytes(Join(x)) && Bytes(Join(x)) + Bytes(u) == Bytes(fixture)
  {
    JoinAppend(x, [u]);
    JoinOne(u);
    BytesAppend(Join(x), u);
    LineCount(x);
  }

  /** What stands before the last line. */
  lemma BeforeLast(fixture: string, x: seq<string>)
    requires fixture != [] && x == AllButLast(Lines(fixture))
    ensures x <= Lines(fixture) && Lines(fixture)[|x|..] == [LastLine(fixture)]
    ensures Ending(x) && AllEnded(x) && |x| <= Bytes(Join(x))
    ensures Bytes(Join(x)) + Bytes(LastLine(fixture)) == Bytes(fixture)
  {
    LinesAreEnding(fixture);
    SplitOffLast(Lines(fixture));
    BytesOfLast(x, LastLine(fixture), fixture);
  }

  /** The last line is kept at the end of the target. */
  lemma KeepAtEnd(fixture: string, a: string) returns (p: string)
    requires fixture != []
    ensures Witness(fixture, a + LastLine(fixture), p)
  {
    var x, y, u := AllButLast(Lines(fixture)), Lines(a), LastLine(fixture);
    BeforeLast(fixture, x);
    LinesAreEnding(a);
    ReplacesFit(x, y, true);
    p := OneHunk(fixture, x, y, true);
    JoinAppend(y, [u]);
    JoinOne(u);
    BytesAppend(a, u);
    if Cost(fixture) + Cost(a + u) <= ROOM {
      LastLineCounts(fixture);
      MergedLines(a, u);
      OneHunkBytes(x, y, true);
    }
  }

  lemma TwoArePrintable(first: Hunk, second: Hunk)
    requires EndedOps(first.ops) && LastOps(second.ops)
    ensures Printable([first] + [second])
  {
    NoneIsPrintable();
    PrintableCons(second, []);
    assert [second] + [] == [second];
    PrintableCons(first, [second]);
  }

  lemma TwoMean(source: seq<string>, x: seq<string>, y: seq<string>, b: seq<string>, hunks: seq<Hunk>, later: seq<Hunk>)
    requires x <= source && hunks == [AtStart(x, y, true)] + later
    requires later == [AtEnd(|source|, |y| + (|source| - |x|), b)]
    ensures Walk(source, hunks, 0, 0) == Ok(y + (source[|x|..] + b))
  {
    StartMeans(source, x, y, true, later);
    EndMeans(source, |x|, |y|, b);
    LaterMeans(source, x, y, hunks, later, source[|x|..] + b);
  }

  lemma LaterMeans(
    source: seq<string>, x: seq<string>, y: seq<string>, hunks: seq<Hunk>, later: seq<Hunk>, tail: seq<string>)
    requires Walk(source, hunks, 0, 0) == Prepend(y, Walk(source, later, |x|, |y| - |x|))
    requires Walk(source, later, |x|, |y| - |x|) == Ok(tail)
    ensures Walk(source, hunks, 0, 0) == Ok(y + tail)
  {
  }

  /** Two hunks: one at the start, one after the end. */
  lemma TwoHunks(fixture: string, x: seq<string>, y: seq<string>, b: seq<string>, later: seq<Hunk>) returns (p: string)
    requires x <= Lines(fixture) && EndedOps(Replaces(x, y, true)) && LastOps(Replaces([], b, true))
    requires later == [AtEnd(|Lines(fixture)|, |y| + (|Lines(fixture)| - |x|), b)]
    ensures Patched(fixture, p) == Ok(Join(y + (Lines(fixture)[|x|..] + b)))
    ensures Bytes(p) == PatchSize([AtStart(x, y, true)] + later)
  {
    var hunks := [AtStart(x, y, true)] + later;
    TwoArePrintable(AtStart(x, y, true), later[0]);
    assert hunks == [AtStart(x, y, true)] + [later[0]];
    TwoMean(Lines(fixture), x, y, b, hunks, later);
    p := HunksApply(fixture, hunks, y + (Lines(fixture)[|x|..] + b));
  }

  lemma TwoHunkBytes(x: seq<string>, y: seq<string>, b: seq<string>, later: seq<Hunk>, n: nat, m: nat)
    requires n <= ROOM && m <= ROOM && later == [AtEnd(n, m, b)]
    requires |x| + |y| + |b| + Bytes(Join(x)) + Bytes(Join(y)) + Bytes(Join(b)) <= ROOM
    ensures PatchSize([AtStart(x, y, true)] + later) <= MAX_CASE_BYTES
  {
    var first := AtStart(x, y, true);
    HunkBytes(first, later);
    HunkBytes(later[0], []);
    assert [later[0]] + [] == later;
    ReplacesBytes(x, y, true);
    ReplacesBytes([], b, true);
  }

  lemma JoinAround(y: seq<string>, u: string, z: seq<string>)
    ensures Join(y + ([u] + z)) == Join(y) + u + Join(z)
  {
    JoinAppend(y, [u] + z);
    JoinAppend([u], z);
    JoinOne(u);
    assert Join(y) + (u + Join(z)) == Join(y) + u + Join(z);
  }

  lemma BytesAround(a: string, u: string, b: string)
    ensures Bytes(a + u + b) == Bytes(a) + Bytes(u) + Bytes(b)
  {
    BytesAppend(a + u, b);
    BytesAppend(a, u);
  }

  /** The last line is kept after a terminated text. */
  lemma KeepInside(fixture: string, a: string, b: string) returns (p: string)
    requires fixture != [] && Terminated(a)
    ensures Witness(fixture, a + LastLine(fixture) + b, p)
  {
    var x, y, z, u := AllButLast(Lines(fixture)), Lines(a), Lines(b), LastLine(fixture);
    var n := |Lines(fixture)|;
    var later := [AtEnd(n, |y| + (n - |x|), z)];
    BeforeLast(fixture, x);
    LinesAreEnding(a);
    LinesAreEnding(b);
    ReplacesFit(x, y, true);
    ReplacesFit([], z, true);
    p := TwoHunks(fixture, x, y, z, later);
    JoinAround(y, u, z);
    BytesAround(a, u, b);
    if Cost(fixture) + Cost(a + u + b) <= ROOM {
      LastLineCounts(fixture);
      MergedLines(a + u, b);
      MergedLines(a, u);
      TwoHunkBytes(x, y, z, later, n, |y| + (n - |x|));
    }
  }

  lemma LastLineCounts(fixture: string)
    requires fixture != []
    ensures |Lines(fixture)| <= Bytes(fixture) && |AllButLast(Lines(fixture))| == |Lines(fixture)| - 1
    ensures Bytes(LastLine(fixture)) >= 1 && |Lines(LastLine(fixture))| == 1
  {
    LinesAreEnding(fixture);
    LinesOfLine(LastLine(fixture));
  }

  /** Where two texts meet, at most two lines become one. */
  lemma {:induction false} MergedLines(a: string, b: string)
    ensures |Lines(a)| + |Lines(b)| <= |Lines(a + b)| + 1
  {
    if a == [] || b == [] {
      assert a + b == if a == [] then b else a;
    } else {
      assert (a + b)[1..] == a[1..] + b;
      MergedLines(a[1..], b);
    }
  }

  /** A text in which the last line stands. */
  lemma KeepWhereItStands(fixture: string, target: string, k: nat) returns (p: string)
    requires fixture != [] && StandsAt(LastLine(fixture), target, k)
    ensures Witness(fixture, target, p)
  {
    var u := LastLine(fixture);
    var a, b := target[..k], target[k + |u|..];
    assert target == a + u + b;
    if k == 0 || Break(target[k - 1]) {
      p := KeepInside(fixture, a, b);
    } else {
      assert a + u + [] == a + u;
      p := KeepAtEnd(fixture, a);
    }
  }

  /** Every reachable text has a patch, within the limit when fixture and text are not too long. */
  lemma ReachableHasPatch(fixture: string, target: string) returns (p: string)
    requires Reachable(fixture, target)
    ensures Witness(fixture, target, p)
  {
    if Terminated(fixture) || Terminated(target) {
      p := ReplaceAll(fixture, target);
    } else {
      var k: nat :| StandsAt(LastLine(fixture), target, k);
      p := KeepWhereItStands(fixture, target, k);
    }
  }

  /** Some patch turns the fixture into the target exactly when the target is reachable. */
  lemma PatchExistsIff(fixture: string, target: string)
    ensures (exists p :: Patched(fixture, p) == Ok(target)) <==> Reachable(fixture, target)
  {
    if Reachable(fixture, target) {
      var p := ReachableHasPatch(fixture, target);
      assert Patched(fixture, p) == Ok(target);
    }
    forall p | Patched(fixture, p) == Ok(target)
      ensures Reachable(fixture, target)
    {
      PatchedIsReachable(fixture, p);
    }
  }

  /** With the size limit: still exactly the reachable targets, as long as fixture and target have room. */
  lemma PatchWithinLimitIff(fixture: string, target: string)
    requires Cost(fixture) + Cost(target) <= ROOM
    ensures (exists p :: Applied(fixture, p) == Ok(target)) <==> Reachable(fixture, target)
  {
    if Reachable(fixture, target) {
      var p := ReachableHasPatch(fixture, target);
      assert Applied(fixture, p) == Ok(target);
    }
    forall p | Applied(fixture, p) == Ok(target)
      ensures Reachable(fixture, target)
    {
      PatchedIsReachable(fixture, p);
    }
  }

  /** No patch turns `a` into `b` when neither ends in a line break. */
  lemma NoPatchFromTo(fixture: string, target: string, p: string)
    requires fixture == "a" && target == "b"
    ensures Patched(fixture, p) != Ok(target)
  {
    LinesOfLine(fixture);
    assert !Reachable(fixture, target) by {
      assert LastLine(fixture) == fixture;
      forall k: nat
        ensures !StandsAt(fixture, target, k)
      {
        assert k + 1 <= |target| ==> target[k..k + 1] == target;
      }
    }
    if Patched(fixture, p).Ok? {
      PatchedIsReachable(fixture, p);
    }
  }
}
