/** Patch texts as they may be spelled: both file names, every header of the grammar, and the lines of a body. */
module PatchSpelling {
  import opened Wrappers
  import opened EditScript
  import opened HunkHeader
  import opened HeaderGrammar
  import opened TextLines
  import opened Patch
  import opened PatchLaws
  import opened PatchTexts
  import Decimal
  import Utf8

  // ----- What one line is -----

  /** A line is an operation exactly when it is one of the three marks and the text. */
  lemma ReadOpIff(line: string, text: string)
    ensures Patch.Read(line) == OpLine(Keep(text)) <==> line == " " + text
    ensures Patch.Read(line) == OpLine(Delete(text)) <==> line == "-" + text
    ensures Patch.Read(line) == OpLine(Insert(text)) <==> line == "+" + text
  {
    assert line != [] ==> line == [line[0]] + line[1..];
    assert (" " + text)[1..] == text && ("-" + text)[1..] == text && ("+" + text)[1..] == text;
    assert "@@ "[0] == '@';
  }

  /** A line is a header exactly when the grammar spells it. */
  lemma ReadHeaderIff(line: string, h: Header)
    ensures Patch.Read(line) == HunkLine(h) <==>
            exists removed, added, heading, feeds ::
              Spells(line, removed, added, heading, feeds) && Numbers(h, removed, added)
  {
    if Patch.Read(line) == HunkLine(h) {
      var removed, added, heading, feeds := ParsedIsSpelled(line);
      assert Spells(line, removed, added, heading, feeds);
    }
    forall removed, added, heading, feeds | Spells(line, removed, added, heading, feeds) && Numbers(h, removed, added)
      ensures Patch.Read(line) == HunkLine(h)
    {
      SpelledIsParsed(line, removed, added, heading, feeds);
      StripPrefix(line, "@@ ");
    }
  }

  // ----- The two names -----

  /** Only the last character of a line is a line feed. */
  lemma OneFeed(name: string, feeds: string)
    requires AllFeeds(feeds)
    ensures IsLine(name + feeds) ==> |feeds| <= 1
  {
    var line, n := name + feeds, |name|;
    if |feeds| > 1 {
      assert line[n] == feeds[0] && line[n + 1] == feeds[1];
      assert Cut(line[n + 1 - 1], line[n + 1]);
    }
  }

  /** The line is `name` with its line feed. */
  lemma NamedLine(line: string, name: string)
    requires IsLine(line) && Break(Last(line)) && StripNewlines(line) == name && name != [] && !Break(Last(name))
    ensures line == name + ['\n']
  {
    var feeds := StripSplits(line);
    OneFeed(name, feeds);
    assert feeds != [];
    assert feeds == ['\n'];
  }

  predicate NamesOneFixture(first: string, second: string) {
    || (first == "--- a/fixture.py\n" && second == "+++ b/fixture.py\n")
    || (first == "--- a/note.txt\n" && second == "+++ b/note.txt\n")
  }

  lemma NamesAreUnended(name: string)
    requires name in ["--- a/fixture.py", "+++ b/fixture.py", "--- a/note.txt", "+++ b/note.txt"]
    ensures name != [] && !Break(Last(name))
  {
  }

  /** Lines that are allowed names name one fixture. */
  lemma AllowedIsOneFixture(first: string, second: string)
    requires IsLine(first) && IsLine(second) && Break(Last(first)) && Break(Last(second))
    requires AllowedNames(StripNewlines(first), StripNewlines(second))
    ensures NamesOneFixture(first, second)
  {
    NamesAreUnended(StripNewlines(first));
    NamesAreUnended(StripNewlines(second));
    NamedLine(first, StripNewlines(first));
    NamedLine(second, StripNewlines(second));
  }

  /** A line with another behind it ends in a line break. */
  lemma InnerLineEnds(lines: seq<string>, i: nat)
    requires WellCut(lines) && i + 1 < |lines|
    ensures IsLine(lines[i]) && Break(Last(lines[i]))
  {
    assert Cut(Last(lines[i + 1 - 1]), lines[i + 1][0]);
  }

  lemma PatchedIsAllowed(fixture: string, p: string)
    requires Patched(fixture, p).Ok?
    ensures |Lines(p)| >= 3 && AllowedNames(StripNewlines(Lines(p)[0]), StripNewlines(Lines(p)[1]))
  {
  }

  /** An accepted patch names one of the two fixtures, in full lines, and nothing else. */
  lemma AcceptedNamesOneFixture(fixture: string, p: string)
    requires Patched(fixture, p).Ok?
    ensures |Lines(p)| >= 3 && NamesOneFixture(Lines(p)[0], Lines(p)[1])
  {
    PatchedIsAllowed(fixture, p);
    LinesAreWellCut(p);
    InnerLineEnds(Lines(p), 0);
    InnerLineEnds(Lines(p), 1);
    AllowedIsOneFixture(Lines(p)[0], Lines(p)[1]);
  }

  lemma OneFixtureIsAllowed(first: string, second: string)
    requires NamesOneFixture(first, second)
    ensures AllowedNames(StripNewlines(first), StripNewlines(second))
  {
    if first == "--- a/fixture.py\n" {
      StripOneNewline("--- a/fixture.py");
      StripOneNewline("+++ b/fixture.py");
    } else {
      StripOneNewline("--- a/note.txt");
      StripOneNewline("+++ b/note.txt");
    }
  }

  // ----- Whole texts -----

  /** A patch is applied exactly when its encoding has at most 16384 bytes and its hunks mean something. */
  lemma AppliedIff(fixture: string, p: string, target: string)
    ensures Applied(fixture, p) == Ok(target) <==>
            |Utf8.EncodeAll(p)| <= 16384 && Patched(fixture, p) == Ok(target)
  {
    Utf8.BytesAreEncoded(p);
  }

  /** Any text that names a fixture and whose other lines read as the hunks gives what the hunks mean. */
  lemma SpelledTextApplies(fixture: string, lines: seq<string>, hunks: seq<Hunk>)
    requires WellCut(lines) && |lines| >= 3 && NamesOneFixture(lines[0], lines[1])
    requires ReadAll(lines[2..]) == HunkTokens(hunks)
    ensures Patched(fixture, Join(lines)) == Joined(Meaning(Lines(fixture), hunks, 0, 0))
  {
    LinesOfJoin(lines);
    OneFixtureIsAllowed(lines[0], lines[1]);
    ParseHunkTokens(hunks);
  }

  /** A header may leave out its counts and carry a heading: one line is replaced by another. */
  lemma HeadingIsIgnored(heading: string)
    requires '\n' !in heading
    ensures Patch.Read("@@ -1 +1 @@" + heading + "\n") == HunkLine(Header(1, 1, 1, 1))
  {
    var line, one := "@@ -1 +1 @@" + heading + "\n", Range("1", None);
    assert RangeText(one) == "1";
    assert line == "@@ -" + RangeText(one) + " +" + RangeText(one) + " @@" + heading + "\n";
    assert Spells(line, one, one, heading, "\n");
    OneIsOne();
    ReadHeaderIff(line, Header(1, 1, 1, 1));
  }

  lemma OneIsOne()
    ensures HeaderGrammar.IsNumber("1") && Decimal.Value("1") == 1
  {
  }

  lemma UnbrokenLines(lines: seq<string>)
    requires forall i | 0 <= i < |lines| ::
               |lines[i]| > 1 && Last(lines[i]) == '\n' && Unbroken(lines[i][..|lines[i]| - 1])
    ensures WellCut(lines)
  {
    forall i | 0 <= i < |lines|
      ensures IsLine(lines[i]) && !Break(lines[i][0])
    {
      var text := lines[i][..|lines[i]| - 1];
      UnbrokenIsLine(text, '\n');
      assert lines[i] == text + ['\n'] && lines[i][0] == text[0];
    }
  }

  /** A range with one count left out and one spelled. */
  lemma ReadOneTwo(line: string)
    requires line == "@@ -1 +1,2 @@\n"
    ensures Patch.Read(line) == HunkLine(Header(1, 1, 1, 2))
  {
    var one, two := Range("1", None), Range("1", Some("2"));
    assert RangeText(one) == "1" && RangeText(two) == "1,2";
    assert line == "@@ -" + RangeText(one) + " +" + RangeText(two) + " @@" + "" + "\n";
    assert HeaderGrammar.IsNumber("2") && Decimal.Value("2") == 2;
    OneIsOne();
    assert Spells(line, one, two, "", "\n");
    ReadHeaderIff(line, Header(1, 1, 1, 2));
  }

  /** The hunk of a patch that adds the line `b` behind the line `a`. */
  lemma AddingReads(lines: seq<string>, a: string, b: string)
    requires lines == ["@@ -1 +1,2 @@\n", " " + a, "+" + b]
    ensures ReadAll(lines) == HunkTokens([Hunk(Header(1, 1, 1, 2), [Keep(a), Insert(b)])])
  {
    var hunk := Hunk(Header(1, 1, 1, 2), [Keep(a), Insert(b)]);
    ReadOneTwo(lines[0]);
    ReadOpIff(lines[1], a);
    ReadOpIff(lines[2], b);
    assert [hunk][1..] == [];
    OpTokensAre(hunk.ops);
    assert HunkTokens([hunk]) == [HunkLine(hunk.header)] + (OpTokens(hunk.ops) + []);
  }

  lemma AddingMeans(source: seq<string>, hunks: seq<Hunk>, a: string, b: string)
    requires source == [a] && hunks == [Hunk(Header(1, 1, 1, 2), [Keep(a), Insert(b)])]
    ensures Meaning(source, hunks, 0, 0) == Ok([a, b])
  {
    var ops, rest := hunks[0].ops, [Insert(b)];
    WalkIsMeaning(source, hunks, 0, 0);
    assert hunks[1..] == [] && ops[1..] == rest && rest[1..] == [];
    assert Old(rest) == [] && New(rest) == [b];
    assert Old(ops) == [a] + Old(rest) && New(ops) == [a] + New(rest);
    assert Consumes(source, 1, rest);
    assert HunkFits(source, hunks[0].header, ops, 0, 0);
    assert Walk(source, [], 1, 1) == Ok(source[1..]);
    assert source[0..0] + New(ops) + source[1..] == [a, b];
  }

  lemma JoinFive(a: string, b: string, c: string, d: string, e: string)
    ensures Join([a, b, c, d, e]) == a + b + c + d + e
  {
    JoinAppend([a, b, c], [d, e]);
    JoinAppend([a], [b, c]);
    JoinTwo(b, c);
    JoinTwo(d, e);
    JoinOne(a);
    assert [a, b, c, d, e] == [a, b, c] + [d, e] && [a, b, c] == [a] + [b, c];
    assert a + (b + c) + (d + e) == a + b + c + d + e;
  }

  /** One full line. */
  predicate FullLine(a: string) {
    |a| > 1 && Last(a) == '\n' && Unbroken(a[..|a| - 1])
  }

  lemma FullLineIsLine(a: string)
    requires FullLine(a)
    ensures Lines(a) == [a]
  {
    assert a == a[..|a| - 1] + ['\n'];
    UnbrokenIsLine(a[..|a| - 1], '\n');
    LinesOfLine(a);
  }

  lemma AddedLines(a: string, b: string, lines: seq<string>)
    requires FullLine(a) && FullLine(b)
    requires lines == ["--- a/note.txt\n", "+++ b/note.txt\n", "@@ -1 +1,2 @@\n", " " + a, "+" + b]
    ensures WellCut(lines) && NamesOneFixture(lines[0], lines[1])
    ensures lines[2..] == ["@@ -1 +1,2 @@\n", " " + a, "+" + b]
  {
    assert lines[3][..|a|] == " " + a[..|a| - 1] && lines[4][..|b|] == "+" + b[..|b| - 1];
    UnbrokenLines(lines);
  }

  lemma AddingApplies(a: string, b: string, lines: seq<string>, body: seq<string>, hunks: seq<Hunk>)
    requires WellCut(lines) && |lines| >= 3 && NamesOneFixture(lines[0], lines[1]) && lines[2..] == body
    requires ReadAll(body) == HunkTokens(hunks) && Lines(a) == [a] && Meaning([a], hunks, 0, 0) == Ok([a, b])
    ensures Patched(a, Join(lines)) == Ok(a + b)
  {
    SpelledTextApplies(a, lines, hunks);
    JoinTwo(a, b);
  }

  /** A patch of `note.txt`, for any two lines: the second is added behind the first. */
  lemma LineIsAdded(a: string, b: string, lines: seq<string>)
    requires FullLine(a) && FullLine(b)
    requires lines == ["--- a/note.txt\n", "+++ b/note.txt\n", "@@ -1 +1,2 @@\n", " " + a, "+" + b]
    ensures Patched(a, Join(lines)) == Ok(a + b)
  {
    var hunks := [Hunk(Header(1, 1, 1, 2), [Keep(a), Insert(b)])];
    AddedLines(a, b, lines);
    AddingReads(lines[2..], a, b);
    FullLineIsLine(a);
    AddingMeans([a], hunks, a, b);
    AddingApplies(a, b, lines, lines[2..], hunks);
  }

  /** The patch the evaluation's own example answers with. */
  lemma NoteIsPatched(fixture: string, p: string)
    requires fixture == "hello\n"
    requires p == "--- a/note.txt\n" + "+++ b/note.txt\n" + "@@ -1 +1,2 @@\n" + " hello\n" + "+coire-eval\n"
    ensures Patched(fixture, p) == Ok(fixture + "coire-eval\n")
  {
    var a, b := "hello\n", "coire-eval\n";
    assert " " + a == " hello\n" && "+" + b == "+coire-eval\n";
    JoinFive("--- a/note.txt\n", "+++ b/note.txt\n", "@@ -1 +1,2 @@\n", " hello\n", "+coire-eval\n");
    LineIsAdded(a, b, ["--- a/note.txt\n", "+++ b/note.txt\n", "@@ -1 +1,2 @@\n", " hello\n", "+coire-eval\n"]);
  }
}
