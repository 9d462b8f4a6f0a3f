/** The patch laws for texts: which hunks can be written as a text, and when a patch text can be undone. */
module PatchTexts {
  import opened Wrappers
  import opened EditScript
  import opened HunkHeader
  import opened TextLines
  import opened Patch
  import opened PatchLaws
  import Decimal

  // ----- Hunks as a text -----

  /** Nothing but the end of the text may follow a line that does not end in a line break. */
  predicate Ended(text: string) {
    text != [] && Break(Last(text))
  }

  /** The line is an operation on a piece of text that ends in a line break, unless it is the last. */
  predicate FitsLine(tokens: seq<Token>, i: nat)
    requires i < |tokens|
  {
    tokens[i].OpLine? ==> IsPiece(tokens[i].op.text) && (i + 1 < |tokens| ==> Ended(tokens[i].op.text))
  }

  /** The hunks can be written as a text. */
  ghost predicate Printable(hunks: seq<Hunk>) {
    forall i: nat | i < |HunkTokens(hunks)| :: FitsLine(HunkTokens(hunks), i)
  }

  function PatchText(hunks: seq<Hunk>): string {
    Join(PrintPatch(hunks))
  }

  function PrintToken(t: Token): string {
    match t
    case HunkLine(h) => HunkHeader.Print(h)
    case OpLine(op) => PrintOp(op)
    case BadLine => []
  }

  function PrintTokens(tokens: seq<Token>): (lines: seq<string>)
    ensures |lines| == |tokens|
    ensures forall i | 0 <= i < |tokens| :: lines[i] == PrintToken(tokens[i])
  {
    if tokens == [] then [] else [PrintToken(tokens[0])] + PrintTokens(tokens[1..])
  }

  lemma {:induction false} PrintTokensAppend(a: seq<Token>, b: seq<Token>)
    ensures PrintTokens(a + b) == PrintTokens(a) + PrintTokens(b)
  {
    if a == [] {
      assert a + b == b;
    } else {
      assert (a + b)[1..] == a[1..] + b;
      PrintTokensAppend(a[1..], b);
    }
  }

  lemma {:induction false} PrintOpTokens(ops: seq<Op>)
    ensures PrintTokens(OpTokens(ops)) == PrintOps(ops)
  {
    if ops != [] {
      PrintOpTokens(ops[1..]);
      assert OpTokens(ops)[1..] == OpTokens(ops[1..]);
    }
  }

  lemma {:induction false} PrintHunkTokens(hunks: seq<Hunk>)
    ensures PrintTokens(HunkTokens(hunks)) == PrintHunks(hunks)
  {
    if hunks != [] {
      PrintHunkTokens(hunks[1..]);
      PrintOpTokens(hunks[0].ops);
      PrintTokensAppend(OpTokens(hunks[0].ops), HunkTokens(hunks[1..]));
      assert HunkTokens(hunks)[1..] == OpTokens(hunks[0].ops) + HunkTokens(hunks[1..]);
    }
  }

  predicate Unbroken(s: string) {
    forall i | 0 <= i < |s| :: !Break(s[i])
  }

  lemma DigitsAreUnbroken(s: string)
    requires Decimal.AllDigits(s)
    ensures Unbroken(s)
  {
  }

  lemma PrintRangeIsUnbroken(prefix: string, start: nat, total: nat, rest: string)
    requires Unbroken(prefix) && Unbroken(rest)
    ensures Unbroken(PrintRange(prefix, start, total, rest))
  {
    DigitsAreUnbroken(Decimal.Print(start));
    DigitsAreUnbroken(Decimal.Print(total));
  }

  lemma UnbrokenIsLine(s: string, end: char)
    requires Unbroken(s)
    ensures IsLine(s + [end])
  {
  }

  lemma HeaderIsLine(h: Header)
    ensures IsLine(HunkHeader.Print(h)) && Last(HunkHeader.Print(h)) == '\n' && HunkHeader.Print(h)[0] == '@'
  {
    PrintRangeIsUnbroken(" +", h.newStart, h.newTotal, " @@");
    PrintRangeIsUnbroken("@@ -", h.oldStart, h.oldTotal, PrintRange(" +", h.newStart, h.newTotal, " @@"));
    UnbrokenIsLine(PrintText(h), '\n');
  }

  lemma OpIsLineIff(op: Op)
    ensures PrintOp(op)[0] in " -+"
    ensures IsLine(PrintOp(op)) <==> IsPiece(op.text)
    ensures Break(Last(PrintOp(op))) <==> Ended(op.text)
  {
    var line := PrintOp(op);
    assert line[1..] == op.text && !Break(line[0]);
    if IsLine(line) && op.text != [] {
      forall i | 0 < i < |op.text|
        ensures !Cut(op.text[i - 1], op.text[i])
      {
        assert op.text[i - 1] == line[i] && op.text[i] == line[i + 1];
      }
    }
    if IsPiece(op.text) {
      forall i | 0 < i < |line|
        ensures !Cut(line[i - 1], line[i])
      {
        if i > 1 {
          assert line[i - 1] == op.text[i - 2] && line[i] == op.text[i - 1];
        }
      }
    }
  }

  /** A printed line is a line that may stand where it stands exactly when its token fits there. */
  lemma TokenFitsIff(tokens: seq<Token>, i: nat)
    requires i < |tokens| && !tokens[i].BadLine?
    ensures var line := PrintToken(tokens[i]);
            && line != [] && !Break(line[0])
            && (FitsLine(tokens, i) <==> IsLine(line) && (i + 1 < |tokens| ==> Break(Last(line))))
  {
    match tokens[i]
    case HunkLine(h) => HeaderIsLine(h);
    case OpLine(op) => OpIsLineIff(op);
    case BadLine =>
  }

  lemma {:induction false} NoBadTokens(hunks: seq<Hunk>)
    ensures forall i | 0 <= i < |HunkTokens(hunks)| :: !HunkTokens(hunks)[i].BadLine?
  {
    if hunks != [] {
      NoBadTokens(hunks[1..]);
      OpTokensAre(hunks[0].ops);
    }
  }

  lemma {:induction false} OpTokensAre(ops: seq<Op>)
    ensures |OpTokens(ops)| == |ops|
    ensures forall i | 0 <= i < |ops| :: OpTokens(ops)[i] == OpLine(ops[i])
  {
    if ops != [] {
      OpTokensAre(ops[1..]);
    }
  }

  lemma NamesAreLines(i: nat)
    requires i < 2
    ensures IsLine(FILE_NAMES[i]) && Last(FILE_NAMES[i]) == '\n' && FILE_NAMES[i][0] in "-+"
  {
    UnbrokenIsLine("--- a/fixture.py", '\n');
    UnbrokenIsLine("+++ b/fixture.py", '\n');
    assert FILE_NAMES[0] == "--- a/fixture.py" + ['\n'] && FILE_NAMES[1] == "+++ b/fixture.py" + ['\n'];
  }

  /** What a printed line says about its place. */
  lemma PrintedLine(hunks: seq<Hunk>, i: nat)
    requires i < |PrintPatch(hunks)|
    ensures |PrintPatch(hunks)| == 2 + |HunkTokens(hunks)|
    ensures var line := PrintPatch(hunks)[i];
            && line != [] && !Break(line[0])
            && (i < 2 ==> IsLine(line) && Break(Last(line)))
            && (i >= 2 ==>
                  (FitsLine(HunkTokens(hunks), i - 2) <==>
                   IsLine(line) && (i + 1 < |PrintPatch(hunks)| ==> Break(Last(line)))))
  {
    PrintHunkTokens(hunks);
    if i < 2 {
      NamesAreLines(i);
    } else {
      NoBadTokens(hunks);
      TokenFitsIff(HunkTokens(hunks), i - 2);
      assert PrintPatch(hunks)[i] == PrintHunks(hunks)[i - 2];
    }
  }

  /** Printed hunks are the lines of a text exactly when they are printable. */
  lemma PrintedIsWellCutIff(hunks: seq<Hunk>)
    ensures WellCut(PrintPatch(hunks)) <==> Printable(hunks)
  {
    var lines, tokens := PrintPatch(hunks), HunkTokens(hunks);
    PrintHunkTokens(hunks);
    if WellCut(lines) {
      forall i: nat | i < |tokens|
        ensures FitsLine(tokens, i)
      {
        PrintedLine(hunks, i + 2);
        if i + 3 < |lines| {
          assert Cut(Last(lines[i + 3 - 1]), lines[i + 3][0]);
        }
      }
    }
    if Printable(hunks) {
      forall i | 0 <= i < |lines|
        ensures IsLine(lines[i]) && (i + 1 < |lines| ==> Break(Last(lines[i])))
      {
        PrintedLine(hunks, i);
        assert i >= 2 ==> FitsLine(tokens, i - 2);
      }
      forall i | 0 < i < |lines|
        ensures Cut(Last(lines[i - 1]), lines[i][0])
      {
        PrintedLine(hunks, i);
      }
    }
  }

  /** Some text splits into the printed hunks exactly when they are printable; it is their patch text. */
  lemma PrintableIff(hunks: seq<Hunk>)
    ensures Printable(hunks) <==> exists p :: Lines(p) == PrintPatch(hunks)
    ensures Printable(hunks) ==> Lines(PatchText(hunks)) == PrintPatch(hunks)
  {
    PrintedIsWellCutIff(hunks);
    LinesOfJoinIff(PrintPatch(hunks));
    forall p | Lines(p) == PrintPatch(hunks)
      ensures WellCut(PrintPatch(hunks))
    {
      LinesAreWellCut(p);
    }
  }

  function Joined(r: Result<seq<string>>): Result<string> {
    match r
    case Ok(lines) => Ok(Join(lines))
    case Err => Err
  }

  /** Writing printable hunks as a text and applying the text gives what the hunks mean. */
  lemma PatchTextApplies(fixture: string, hunks: seq<Hunk>)
    requires hunks != [] && Printable(hunks)
    ensures ParsePatch(Lines(PatchText(hunks))) == Some(hunks)
    ensures Patched(fixture, PatchText(hunks)) == Joined(Meaning(Lines(fixture), hunks, 0, 0))
  {
    PrintableIff(hunks);
    ParseOfPrintPatch(hunks);
  }

  /** Writing any placed script with printable lines as a patch text and applying it gives the script's meaning. */
  lemma ScriptTextApplies(fixture: string, script: seq<Edit>)
    requires script != [] && Placed(Lines(fixture), script, 0)
    requires InOrder(script, 0) && Printable(HunksOf(script, 0, 0))
    ensures Patched(fixture, PatchText(HunksOf(script, 0, 0))) == Ok(Join(Denote(Lines(fixture), script, 0)))
  {
    PatchTextApplies(fixture, HunksOf(script, 0, 0));
    StatedScriptMeans(Lines(fixture), script);
  }

  lemma ParsedTokenFits(lines: seq<string>, tokens: seq<Token>, i: nat)
    requires WellCut(lines) && |lines| == |tokens| + 2 && i < |tokens| && tokens[i] == Patch.Read(lines[i + 2])
    requires forall k | 0 <= k < |tokens| :: tokens[k] == Patch.Read(lines[k + 2])
    requires forall k | 0 <= k < |tokens| :: !tokens[k].BadLine?
    ensures FitsLine(tokens, i)
  {
    if tokens[i].OpLine? {
      var line := lines[i + 2];
      assert line == PrintOp(tokens[i].op);
      OpIsLineIff(tokens[i].op);
      if i + 1 < |tokens| {
        assert Cut(Last(lines[i + 3 - 1]), lines[i + 3][0]);
      }
    }
  }

  /** The hunks of a patch text are printable. */
  lemma ParsedIsPrintable(p: string)
    requires ParsePatch(Lines(p)).Some?
    ensures Printable(ParsePatch(Lines(p)).value) && ParsePatch(Lines(p)).value != []
  {
    var lines := Lines(p);
    var tokens, hunks := ReadAll(lines[2..]), ParsePatch(lines).value;
    LinesAreWellCut(p);
    ParseHunksInverse(tokens);
    NoBadTokens(hunks);
    forall k | 0 <= k < |tokens|
      ensures tokens[k] == Patch.Read(lines[k + 2])
    {
      assert lines[2..][k] == lines[k + 2];
    }
    forall i: nat | i < |tokens|
      ensures FitsLine(tokens, i)
    {
      ParsedTokenFits(lines, tokens, i);
    }
  }
}
