/** Python's `splitlines(keepends=True)`, `"".join` and the length of a text in UTF-8. */
module TextLines {

  /** A character that ends a line. */
  predicate Break(c: char) {
    '\n' <= c <= '\r' || '\U{1c}' <= c <= '\U{1e}' || c == '\U{85}' || c == '\U{2028}' || c == '\U{2029}'
  }

  /** A text is cut between these two characters; a carriage return and its line feed stay together. */
  predicate Cut(a: char, b: char) {
    Break(a) && !(a == '\r' && b == '\n')
  }

  /** The line breaks of `splitlines`, one by one. */
  lemma CutIff(a: char, b: char)
    ensures Cut(a, b) <==>
            && a in {'\n', '\U{b}', '\U{c}', '\r', '\U{1c}', '\U{1d}', '\U{1e}', '\U{85}', '\U{2028}', '\U{2029}'}
            && (a, b) != ('\r', '\n')
  {
    var n := a as int;
    assert 10 <= n <= 13 ==> n in {10, 11, 12, 13};
    assert 28 <= n <= 30 ==> n in {28, 29, 30};
    assert (n == 10 <==> a == '\n') && (n == 11 <==> a == '\U{b}');
    assert (n == 12 <==> a == '\U{c}') && (n == 13 <==> a == '\r');
  }

  function Last(s: string): char
    requires s != []
  {
    s[|s| - 1]
  }

  /** `first` glued to the first line of `lines`. */
  function Glue(first: string, lines: seq<string>): seq<string>
    requires lines != []
  {
    [first + lines[0]] + lines[1..]
  }

  /** `splitlines(keepends=True)` */
  function Lines(s: string): (lines: seq<string>)
    ensures lines == [] <==> s == []
  {
    if s == [] then []
    else if |s| == 1 then [s]
    else if Cut(s[0], s[1]) then [[s[0]]] + Lines(s[1..])
    else Glue([s[0]], Lines(s[1..]))
  }

  /** `"".join` */
  function Join(lines: seq<string>): string {
    if lines == [] then [] else lines[0] + Join(lines[1..])
  }

  /** One nonempty line without a cut inside. */
  predicate IsLine(line: string) {
    line != [] && forall i | 0 < i < |line| :: !Cut(line[i - 1], line[i])
  }

  predicate AllLines(lines: seq<string>) {
    forall i | 0 <= i < |lines| :: IsLine(lines[i])
  }

  /** Lines with a cut between every two neighbours. */
  predicate WellCut(lines: seq<string>) {
    && AllLines(lines)
    && forall i | 0 < i < |lines| :: Cut(Last(lines[i - 1]), lines[i][0])
  }

  lemma {:induction false} JoinAppend(a: seq<string>, b: seq<string>)
    ensures Join(a + b) == Join(a) + Join(b)
  {
    if a == [] {
      assert a + b == b;
    } else {
      assert (a + b)[1..] == a[1..] + b;
      JoinAppend(a[1..], b);
      assert a[0] + (Join(a[1..]) + Join(b)) == a[0] + Join(a[1..]) + Join(b);
    }
  }

  lemma JoinOne(line: string)
    ensures Join([line]) == line
  {
    assert [line][1..] == [];
  }

  lemma JoinTwo(a: string, b: string)
    ensures Join([a, b]) == a + b
  {
    assert [a, b] == [a] + [b];
    JoinAppend([a], [b]);
    JoinOne(a);
    JoinOne(b);
  }

  lemma {:induction false} SplitJoin(lines: seq<string>, m: nat)
    requires m < |lines|
    ensures Join(lines) == Join(lines[..m]) + lines[m] + Join(lines[m + 1..])
  {
    if m == 0 {
      assert [] + lines[0] == lines[0];
    } else {
      SplitJoin(lines[1..], m - 1);
      assert lines[..m][1..] == lines[1..][..m - 1] && lines[m + 1..] == lines[1..][m..];
      Regroup(lines[0], Join(lines[1..][..m - 1]), lines[m], Join(lines[m + 1..]));
    }
  }

  lemma Regroup(a: string, b: string, c: string, d: string)
    ensures a + (b + c + d) == a + b + c + d
  {
  }

  lemma JoinGlue(first: string, lines: seq<string>)
    requires lines != []
    ensures Join(Glue(first, lines)) == first + Join(lines)
  {
    assert Glue(first, lines)[1..] == lines[1..];
    assert first + lines[0] + Join(lines[1..]) == first + (lines[0] + Join(lines[1..]));
  }

  /** Splitting loses nothing. */
  lemma {:induction false} JoinOfLines(s: string)
    ensures Join(Lines(s)) == s
  {
    if |s| > 1 {
      JoinOfLines(s[1..]);
      assert s == [s[0]] + s[1..];
      if Cut(s[0], s[1]) {
        JoinAppend([[s[0]]], Lines(s[1..]));
        JoinOne([s[0]]);
      } else {
        JoinGlue([s[0]], Lines(s[1..]));
      }
    } else if |s| == 1 {
      JoinOne(s);
    }
  }

  lemma GlueIsWellCut(c: char, lines: seq<string>)
    requires lines != [] && WellCut(lines) && !Cut(c, lines[0][0])
    ensures WellCut(Glue([c], lines))
  {
    var glued := Glue([c], lines);
    forall i | 0 <= i < |glued|
      ensures IsLine(glued[i])
    {
      assert i > 0 ==> glued[i] == lines[i];
    }
    forall i | 0 < i < |glued|
      ensures Cut(Last(glued[i - 1]), glued[i][0])
    {
      assert glued[i] == lines[i] && Last(glued[i - 1]) == Last(lines[i - 1]);
    }
  }

  lemma {:induction false} LinesAreWellCut(s: string)
    ensures WellCut(Lines(s))
    ensures s != [] ==> Lines(s)[0] != [] && Lines(s)[0][0] == s[0]
  {
    if |s| > 1 {
      LinesAreWellCut(s[1..]);
      if !Cut(s[0], s[1]) {
        GlueIsWellCut(s[0], Lines(s[1..]));
      }
    }
  }

  /** A line in front of a text is cut off, or glued to the text's first line. */
  lemma {:induction false} LinesPrepend(line: string, s: string)
    requires IsLine(line) && s != []
    ensures Lines(line + s) == if Cut(Last(line), s[0]) then [line] + Lines(s) else Glue(line, Lines(s))
  {
    var whole := line + s;
    if |line| == 1 {
      assert whole[1..] == s && [whole[0]] == line;
    } else {
      assert whole[1..] == line[1..] + s && IsLine(line[1..]);
      LinesPrepend(line[1..], s);
      assert !Cut(whole[0], whole[1]);
      assert [line[0]] + line[1..] == line;
      if Cut(Last(line), s[0]) {
        assert Glue([line[0]], [line[1..]] + Lines(s)) == [line] + Lines(s);
      } else {
        GlueTwice([line[0]], line[1..], Lines(s));
      }
    }
  }

  lemma GlueTwice(a: string, b: string, lines: seq<string>)
    requires lines != []
    ensures Glue(a, Glue(b, lines)) == Glue(a + b, lines)
  {
    assert a + (b + lines[0]) == a + b + lines[0];
  }

  lemma {:induction false} LinesOfLine(line: string)
    requires IsLine(line)
    ensures Lines(line) == [line]
  {
    if |line| > 1 {
      assert IsLine(line[1..]);
      LinesOfLine(line[1..]);
      assert [line[0]] + line[1..] == line;
    }
  }

  lemma JoinStarts(lines: seq<string>)
    requires lines != [] && lines[0] != []
    ensures Join(lines) != [] && Join(lines)[0] == lines[0][0]
  {
  }

  lemma {:induction false} LinesOfJoin(lines: seq<string>)
    requires WellCut(lines)
    ensures Lines(Join(lines)) == lines
  {
    if |lines| == 1 {
      JoinOne(lines[0]);
      LinesOfLine(lines[0]);
    } else if lines != [] {
      var rest := lines[1..];
      assert forall i | 0 <= i < |rest| :: rest[i] == lines[i + 1];
      assert WellCut(rest);
      LinesOfJoin(rest);
      JoinStarts(rest);
      LinesPrepend(lines[0], Join(rest));
    }
  }

  /** Joining and splitting gives a list back exactly when the list is well cut. */
  lemma LinesOfJoinIff(lines: seq<string>)
    ensures Lines(Join(lines)) == lines <==> WellCut(lines)
  {
    LinesAreWellCut(Join(lines));
    if WellCut(lines) {
      LinesOfJoin(lines);
    }
  }

  // ----- Where a badly cut list goes wrong -----

  /** A line, or nothing. */
  predicate IsPiece(s: string) {
    s == [] || IsLine(s)
  }

  /** Up to `i` the split of the joined pieces is the pieces; there it holds a longer line, or the piece is empty. */
  ghost predicate Departs(pieces: seq<string>, lines: seq<string>, i: nat) {
    && i < |pieces| && i <= |lines| && lines[..i] == pieces[..i]
    && (pieces[i] == [] || (i < |lines| && pieces[i] < lines[i]))
  }

  lemma DepartsLater(piece: string, pieces: seq<string>, lines: seq<string>, i: nat)
    requires Departs(pieces, lines, i)
    ensures Departs([piece] + pieces, [piece] + lines, i + 1)
  {
    var p, l := [piece] + pieces, [piece] + lines;
    assert l[..i + 1] == [piece] + lines[..i] && p[..i + 1] == [piece] + pieces[..i];
  }

  lemma {:induction false} FirstBadCut(pieces: seq<string>) returns (i: nat)
    requires (forall k | 0 <= k < |pieces| :: IsPiece(pieces[k])) && !WellCut(pieces)
    ensures Departs(pieces, Lines(Join(pieces)), i)
  {
    var first, rest := pieces[0], pieces[1..];
    if first == [] {
      return 0;
    }
    var s := Join(rest);
    if s == [] {
      assert rest != [] && rest[0] == [];
      JoinAppend([first], rest);
      JoinOne(first);
      LinesOfLine(first);
      assert Departs(pieces, [first], 1);
      return 1;
    }
    LinesPrepend(first, s);
    if !Cut(Last(first), s[0]) {
      LinesAreWellCut(s);
      return 0;
    }
    assert pieces == [first] + rest;
    BadRest(first, rest);
    var j := FirstBadCut(rest);
    DepartsLater(first, rest, Lines(s), j);
    return j + 1;
  }

  lemma ConsIsWellCut(first: string, rest: seq<string>)
    requires IsLine(first) && WellCut(rest) && (rest != [] ==> Cut(Last(first), rest[0][0]))
    ensures WellCut([first] + rest)
  {
    var all := [first] + rest;
    forall i | 0 < i < |all|
      ensures Cut(Last(all[i - 1]), all[i][0])
    {
      if i > 1 {
        assert all[i] == rest[i - 1] && all[i - 1] == rest[i - 2];
      }
    }
  }

  /** A list is well cut when its rest is and the first line is cut off from the rest. */
  lemma BadRest(first: string, rest: seq<string>)
    requires IsLine(first) && Join(rest) != [] && Cut(Last(first), Join(rest)[0])
    ensures WellCut(rest) ==> WellCut([first] + rest)
  {
    if WellCut(rest) {
      JoinStarts(rest);
      ConsIsWellCut(first, rest);
    }
  }

  // ----- Size -----

  function Utf8(c: char): nat {
    if c < '\U{80}' then 1 else if c < '\U{800}' then 2 else if c < '\U{10000}' then 3 else 4
  }

  /** `len(s.encode())` */
  function Bytes(s: string): (n: nat)
    ensures n >= |s|
  {
    if s == [] then 0 else Utf8(s[0]) + Bytes(s[1..])
  }

  lemma {:induction false} BytesAppend(a: string, b: string)
    ensures Bytes(a + b) == Bytes(a) + Bytes(b)
  {
    if a == [] {
      assert a + b == b;
    } else {
      assert (a + b)[1..] == a[1..] + b;
      BytesAppend(a[1..], b);
    }
  }
}
