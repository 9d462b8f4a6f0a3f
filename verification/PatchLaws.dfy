/** Laws of the patch applier: printing, meaning, drift, conservation and reversal. */
module PatchLaws {
  import opened Wrappers
  import opened EditScript
  import opened HunkHeader
  import opened Patch

  // ----- Printing -----

  function PrintOp(op: Op): string {
    [if op.Keep? then ' ' else if op.Delete? then '-' else '+'] + op.text
  }

  function PrintOps(ops: seq<Op>): seq<string> {
    if ops == [] then [] else [PrintOp(ops[0])] + PrintOps(ops[1..])
  }

  function PrintHunks(hunks: seq<Hunk>): seq<string> {
    if hunks == [] then [] else
    [HunkHeader.Print(hunks[0].header)] + (PrintOps(hunks[0].ops) + PrintHunks(hunks[1..]))
  }

  const FILE_NAMES := ["--- a/fixture.py\n", "+++ b/fixture.py\n"]

  function PrintPatch(hunks: seq<Hunk>): seq<string> {
    FILE_NAMES + PrintHunks(hunks)
  }

  function OpTokens(ops: seq<Op>): seq<Token> {
    if ops == [] then [] else [OpLine(ops[0])] + OpTokens(ops[1..])
  }

  function HunkTokens(hunks: seq<Hunk>): seq<Token> {
    if hunks == [] then [] else
    [HunkLine(hunks[0].header)] + (OpTokens(hunks[0].ops) + HunkTokens(hunks[1..]))
  }

  lemma {:induction false} ReadAllAppend(a: seq<string>, b: seq<string>)
    ensures ReadAll(a + b) == ReadAll(a) + ReadAll(b)
  {
    if a == [] {
      assert a + b == b;
    } else {
      assert (a + b)[1..] == a[1..] + b;
      ReadAllAppend(a[1..], b);
    }
  }

  lemma ReadPrintedOp(op: Op)
    ensures Patch.Read(PrintOp(op)) == OpLine(op)
  {
    assert PrintOp(op)[1..] == op.text;
    assert PrintOp(op)[0] != "@@ "[0];
  }

  lemma {:induction false} ReadPrintedOps(ops: seq<Op>)
    ensures ReadAll(PrintOps(ops)) == OpTokens(ops)
  {
    if ops != [] {
      ReadPrintedOp(ops[0]);
      assert PrintOps(ops)[1..] == PrintOps(ops[1..]);
      ReadPrintedOps(ops[1..]);
    }
  }

  lemma ReadPrintedHeader(h: Header)
    ensures Patch.Read(HunkHeader.Print(h)) == HunkLine(h)
  {
    ParseOfPrint(h);
    PrintStartsHunk(h);
  }

  lemma {:induction false} ReadPrintedHunks(hunks: seq<Hunk>)
    ensures ReadAll(PrintHunks(hunks)) == HunkTokens(hunks)
  {
    if hunks != [] {
      var rest := PrintOps(hunks[0].ops) + PrintHunks(hunks[1..]);
      ReadPrintedHeader(hunks[0].header);
      ReadPrintedOps(hunks[0].ops);
      ReadPrintedHunks(hunks[1..]);
      ReadAllAppend(PrintOps(hunks[0].ops), PrintHunks(hunks[1..]));
      assert PrintHunks(hunks)[1..] == rest;
    }
  }

  lemma {:induction false} SpanPrintedOps(ops: seq<Op>, rest: seq<Token>)
    requires rest == [] || !rest[0].OpLine?
    ensures SpanOps(OpTokens(ops) + rest) == (ops, rest)
  {
    if ops == [] {
      assert OpTokens(ops) + rest == rest;
    } else {
      assert (OpTokens(ops) + rest)[1..] == OpTokens(ops[1..]) + rest;
      SpanPrintedOps(ops[1..], rest);
      assert [ops[0]] + ops[1..] == ops;
    }
  }

  lemma {:induction false} ParseHunkTokens(hunks: seq<Hunk>)
    ensures ParseHunks(HunkTokens(hunks)) == Some(hunks)
  {
    if hunks != [] {
      var tokens := HunkTokens(hunks);
      assert tokens[1..] == OpTokens(hunks[0].ops) + HunkTokens(hunks[1..]);
      SpanPrintedOps(hunks[0].ops, HunkTokens(hunks[1..]));
      ParseHunkTokens(hunks[1..]);
      assert [hunks[0]] + hunks[1..] == hunks;
    }
  }

  lemma NamesAreAllowed()
    ensures AllowedNames(StripNewlines(FILE_NAMES[0]), StripNewlines(FILE_NAMES[1]))
  {
    StripOneNewline("--- a/fixture.py");
    StripOneNewline("+++ b/fixture.py");
  }

  /** Hunks survive the round trip through the lines of a patch. */
  lemma ParseOfPrintPatch(hunks: seq<Hunk>)
    requires hunks != []
    ensures ParsePatch(PrintPatch(hunks)) == Some(hunks)
  {
    var lines := PrintPatch(hunks);
    assert lines[2..] == PrintHunks(hunks) && lines[0] == FILE_NAMES[0] && lines[1] == FILE_NAMES[1];
    NamesAreAllowed();
    ReadPrintedHunks(hunks);
    ParseHunkTokens(hunks);
  }

  lemma OpTokensCons(op: Op, ops: seq<Op>)
    ensures OpTokens([op] + ops) == [OpLine(op)] + OpTokens(ops)
  {
    assert ([op] + ops)[1..] == ops;
  }

  lemma {:induction false} SpanOpsInverse(tokens: seq<Token>)
    ensures tokens == OpTokens(SpanOps(tokens).0) + SpanOps(tokens).1
  {
    if tokens != [] && tokens[0].OpLine? {
      SpanOpsInverse(tokens[1..]);
      var (ops, rest) := SpanOps(tokens[1..]);
      OpTokensCons(tokens[0].op, ops);
      assert tokens == [tokens[0]] + tokens[1..];
      assert [tokens[0]] + (OpTokens(ops) + rest) == [tokens[0]] + OpTokens(ops) + rest;
    }
  }

  /** Parsing loses nothing but the spelling of the headers. */
  lemma {:induction false} ParseHunksInverse(tokens: seq<Token>)
    requires ParseHunks(tokens).Some?
    ensures HunkTokens(ParseHunks(tokens).value) == tokens
    decreases |tokens|
  {
    if tokens != [] {
      var (ops, rest) := SpanOps(tokens[1..]);
      SpanOpsInverse(tokens[1..]);
      ParseHunksInverse(rest);
      var hunks := ParseHunks(tokens).value;
      assert hunks[1..] == ParseHunks(rest).value;
      assert tokens == [tokens[0]] + tokens[1..];
    }
  }

  // ----- Scripts and patches -----

  /** The edits come in order, without overlap, from `cursor` on. */
  predicate InOrder(script: seq<Edit>, cursor: nat) {
    script == [] || (cursor <= script[0].start && InOrder(script[1..], End(script[0])))
  }

  lemma {:induction false} PlacedInOrder(source: seq<string>, script: seq<Edit>, cursor: nat)
    requires Placed(source, script, cursor)
    ensures InOrder(script, cursor)
  {
    if script != [] {
      PlacedInOrder(source, script[1..], End(script[0]));
    }
  }

  /** The hunks that state a script: every start and count as the script and the text so far fix it. */
  function HunksOf(script: seq<Edit>, cursor: nat, produced: nat): (hunks: seq<Hunk>)
    requires InOrder(script, cursor)
    ensures |hunks| == |script|
  {
    if script == [] then [] else
    var e := script[0];
    var at := produced + (e.start - cursor);
    [Hunk(Header(e.start + 1, |Old(e.ops)|, at + 1, |New(e.ops)|), e.ops)]
    + HunksOf(script[1..], End(e), at + |New(e.ops)|)
  }

  lemma ScriptOfCons(hunks: seq<Hunk>, e: Edit, rest: seq<Edit>)
    requires hunks != [] && Start(hunks[0].header) == e.start && hunks[0].ops == e.ops && ScriptOf(hunks[1..]) == rest
    ensures ScriptOf(hunks) == [e] + rest
  {
  }

  lemma {:induction false} ScriptOfHunksOf(script: seq<Edit>, cursor: nat, produced: nat)
    requires InOrder(script, cursor)
    ensures ScriptOf(HunksOf(script, cursor, produced)) == script
  {
    if script != [] {
      var e := script[0];
      ScriptOfHunksOf(script[1..], End(e), produced + (e.start - cursor) + |New(e.ops)|);
      ScriptOfCons(HunksOf(script, cursor, produced), e, script[1..]);
      assert script == [e] + script[1..];
    }
  }

  lemma {:induction false} HunksOfAgree(script: seq<Edit>, cursor: nat, produced: nat)
    requires InOrder(script, cursor)
    ensures HeadersAgree(HunksOf(script, cursor, produced), produced - cursor)
  {
    if script != [] {
      var e := script[0];
      HunksOfAgree(script[1..], End(e), produced + (e.start - cursor) + |New(e.ops)|);
    }
  }

  /** The hunks that state a script mean what the script means. */
  lemma StatedScriptMeans(source: seq<string>, script: seq<Edit>)
    requires Placed(source, script, 0)
    ensures InOrder(script, 0) && Meaning(source, HunksOf(script, 0, 0), 0, 0) == Ok(Denote(source, script, 0))
  {
    PlacedInOrder(source, script, 0);
    ScriptOfHunksOf(script, 0, 0);
    HunksOfAgree(script, 0, 0);
  }

  /** The same header with a stated start of zero written as the one the code reads. */
  function Normal(h: Header): Header {
    h.(oldStart := Start(h) + 1)
  }

  /** The hunks state themselves, up to the two ways to write the first line. */
  predicate Normalizes(stated: seq<Hunk>, hunks: seq<Hunk>) {
    |stated| == |hunks| && forall k | 0 <= k < |hunks| :: stated[k] == Hunk(Normal(hunks[k].header), hunks[k].ops)
  }

  lemma NormalizesCons(stated: seq<Hunk>, hunks: seq<Hunk>)
    requires |stated| == |hunks| > 0 && Normalizes(stated[1..], hunks[1..])
    requires stated[0] == Hunk(Normal(hunks[0].header), hunks[0].ops)
    ensures Normalizes(stated, hunks)
  {
    forall k | 0 < k < |hunks|
      ensures stated[k] == Hunk(Normal(hunks[k].header), hunks[k].ops)
    {
      assert stated[k] == stated[1..][k - 1] && hunks[k] == hunks[1..][k - 1];
    }
  }

  lemma {:induction false} HunksOfScript(hunks: seq<Hunk>, cursor: nat, produced: nat)
    requires InOrder(ScriptOf(hunks), cursor) && HeadersAgree(hunks, produced - cursor)
    ensures Normalizes(HunksOf(ScriptOf(hunks), cursor, produced), hunks)
  {
    if hunks != [] {
      var e := ScriptOf(hunks)[0];
      assert ScriptOf(hunks)[1..] == ScriptOf(hunks[1..]);
      HunksOfScript(hunks[1..], End(e), produced + (e.start - cursor) + |New(e.ops)|);
      NormalizesCons(HunksOf(ScriptOf(hunks), cursor, produced), hunks);
    }
  }

  /** `script` is what `hunks` say about `source`, up to the two ways to write the first line. */
  ghost predicate States(source: seq<string>, script: seq<Edit>, hunks: seq<Hunk>) {
    Placed(source, script, 0) && InOrder(script, 0) && Normalizes(HunksOf(script, 0, 0), hunks)
  }

  /** Hunks are accepted exactly when they state a script; that script is the only one they state,
      and it is what applying them does. */
  lemma AcceptedHunksStateOneScript(source: seq<string>, hunks: seq<Hunk>)
    ensures Meaning(source, hunks, 0, 0).Ok? <==> exists script :: States(source, script, hunks)
    ensures forall script :: States(source, script, hunks) ==>
                               && script == ScriptOf(hunks)
                               && Meaning(source, hunks, 0, 0) == Ok(Denote(source, script, 0))
  {
    if Meaning(source, hunks, 0, 0).Ok? {
      PlacedInOrder(source, ScriptOf(hunks), 0);
      HunksOfScript(hunks, 0, 0);
      assert States(source, ScriptOf(hunks), hunks);
    }
    forall script | States(source, script, hunks)
      ensures script == ScriptOf(hunks) && Meaning(source, hunks, 0, 0) == Ok(Denote(source, script, 0))
    {
      StatedScript(source, script, hunks);
    }
  }

  lemma StatedScript(source: seq<string>, script: seq<Edit>, hunks: seq<Hunk>)
    requires States(source, script, hunks)
    ensures script == ScriptOf(hunks) && HeadersAgree(hunks, 0)
  {
    var stated := HunksOf(script, 0, 0);
    ScriptOfHunksOf(script, 0, 0);
    HunksOfAgree(script, 0, 0);
    assert ScriptOf(stated) == ScriptOf(hunks);
    NormalAgrees(stated, hunks, 0);
  }

  lemma {:induction false} NormalAgrees(stated: seq<Hunk>, hunks: seq<Hunk>, drift: int)
    requires HeadersAgree(stated, drift) && Normalizes(stated, hunks)
    ensures HeadersAgree(hunks, drift)
  {
    if hunks != [] {
      NormalAgrees(stated[1..], hunks[1..], drift + |New(hunks[0].ops)| - |Old(hunks[0].ops)|);
    }
  }

  // ----- Drift and conservation -----

  predicate HeaderStates(hunk: Hunk, drift: int) {
    && hunk.header.newStart == Start(hunk.header) + 1 + drift
    && hunk.header.oldTotal == |Old(hunk.ops)|
    && hunk.header.newTotal == |New(hunk.ops)|
  }

  predicate StatedAt(hunks: seq<Hunk>, drift: int, k: nat)
    requires k < |hunks|
  {
    HeaderStates(hunks[k], drift + Drift(ScriptOf(hunks), k))
  }

  lemma StatedAtTail(hunks: seq<Hunk>, drift: int, k: nat)
    requires k + 1 < |hunks|
    ensures StatedAt(hunks, drift, k + 1) ==
            StatedAt(hunks[1..], drift + |New(hunks[0].ops)| - |Old(hunks[0].ops)|, k)
  {
    assert ScriptOf(hunks)[1..] == ScriptOf(hunks[1..]);
  }

  lemma FirstHeader(hunks: seq<Hunk>, drift: int)
    requires hunks != []
    ensures StatedAt(hunks, drift, 0) == HeaderStates(hunks[0], drift)
  {
  }

  lemma HeadersOfTail(hunks: seq<Hunk>, drift: int)
    requires hunks != []
    ensures HeadersAgree(hunks, drift) <==>
            && HeaderStates(hunks[0], drift)
            && HeadersAgree(hunks[1..], drift + |New(hunks[0].ops)| - |Old(hunks[0].ops)|)
  {
  }

  lemma {:induction false} HeaderAt(hunks: seq<Hunk>, drift: int, k: nat)
    requires HeadersAgree(hunks, drift) && k < |hunks|
    ensures StatedAt(hunks, drift, k)
  {
    HeadersOfTail(hunks, drift);
    if k == 0 {
      FirstHeader(hunks, drift);
    } else {
      StatedAtTail(hunks, drift, k - 1);
      HeaderAt(hunks[1..], drift + |New(hunks[0].ops)| - |Old(hunks[0].ops)|, k - 1);
    }
  }

  lemma {:induction false} HeadersFrom(hunks: seq<Hunk>, drift: int)
    requires forall k: nat | k < |hunks| :: StatedAt(hunks, drift, k)
    ensures HeadersAgree(hunks, drift)
  {
    if hunks != [] {
      var tail, moved := hunks[1..], drift + |New(hunks[0].ops)| - |Old(hunks[0].ops)|;
      FirstHeader(hunks, drift);
      assert StatedAt(hunks, drift, 0);
      forall k: nat | k < |tail|
        ensures StatedAt(tail, moved, k)
      {
        StatedAtTail(hunks, drift, k);
      }
      HeadersFrom(tail, moved);
    }
  }

  /** The headers agree exactly when each states its own counts and its old start plus all growth before it. */
  lemma HeadersAgreeIffDrift(hunks: seq<Hunk>, drift: int)
    ensures HeadersAgree(hunks, drift) <==> forall k: nat | k < |hunks| :: StatedAt(hunks, drift, k)
  {
    if HeadersAgree(hunks, drift) {
      forall k: nat | k < |hunks| {
        HeaderAt(hunks, drift, k);
      }
    } else if forall k: nat | k < |hunks| :: StatedAt(hunks, drift, k) {
      HeadersFrom(hunks, drift);
    }
  }

  /** Accepted hunks keep every line outside them, grow the text by the sum of their growth, and
      state every new start as the old start plus the growth of the hunks before it. */
  lemma AcceptedHunksConserve(source: seq<string>, hunks: seq<Hunk>)
    requires Meaning(source, hunks, 0, 0).Ok?
    ensures |Meaning(source, hunks, 0, 0).value| == |source| + Drift(ScriptOf(hunks), |hunks|)
    ensures Rewrites(source, ScriptOf(hunks), 0, Meaning(source, hunks, 0, 0).value)
    ensures forall k: nat | k < |hunks| ::
              hunks[k].header.newStart ==
              (if hunks[k].header.oldStart == 0 then 1 else hunks[k].header.oldStart) + Drift(ScriptOf(hunks), k)
  {
    DenoteRewrites(source, ScriptOf(hunks), 0);
    forall k: nat | k < |hunks|
      ensures hunks[k].header.newStart ==
              (if hunks[k].header.oldStart == 0 then 1 else hunks[k].header.oldStart) + Drift(ScriptOf(hunks), k)
    {
      HeaderAt(hunks, 0, k);
    }
  }

  // ----- Reversal -----

  function Flip(op: Op): Op {
    match op
    case Keep(text) => Keep(text)
    case Delete(text) => Insert(text)
    case Insert(text) => Delete(text)
  }

  function FlipAll(ops: seq<Op>): seq<Op> {
    if ops == [] then [] else [Flip(ops[0])] + FlipAll(ops[1..])
  }

  function ReverseHunk(hunk: Hunk): Hunk {
    var h := hunk.header;
    Hunk(Header(h.newStart, h.newTotal, h.oldStart, h.oldTotal), FlipAll(hunk.ops))
  }

  /** The patch with `+` and `-` exchanged and the two ranges of every header swapped. */
  function Reverse(hunks: seq<Hunk>): (r: seq<Hunk>)
    ensures |r| == |hunks|
    ensures forall k :: 0 <= k < |hunks| ==> r[k] == ReverseHunk(hunks[k])
  {
    if hunks == [] then [] else
    [ReverseHunk(hunks[0])] + Reverse(hunks[1..])
  }

  lemma {:induction false} FlipSwaps(ops: seq<Op>)
    ensures Old(FlipAll(ops)) == New(ops) && New(FlipAll(ops)) == Old(ops)
  {
    if ops != [] {
      assert FlipAll(ops)[1..] == FlipAll(ops[1..]);
      FlipSwaps(ops[1..]);
    }
  }

  lemma SliceStep(t: seq<string>, cursor: nat, text: string, lines: seq<string>)
    requires cursor + 1 + |lines| <= |t|
    ensures t[cursor..cursor + 1 + |lines|] == [text] + lines <==>
            t[cursor] == text && t[cursor + 1..cursor + 1 + |lines|] == lines
  {
    var slice := t[cursor..cursor + 1 + |lines|];
    assert slice == [t[cursor]] + t[cursor + 1..cursor + 1 + |lines|];
    assert slice[0] == t[cursor] && slice[1..] == t[cursor + 1..cursor + 1 + |lines|];
    assert ([text] + lines)[0] == text && ([text] + lines)[1..] == lines;
  }

  lemma {:induction false} ConsumesIsSlice(t: seq<string>, cursor: nat, ops: seq<Op>)
    ensures Consumes(t, cursor, ops) <==>
            cursor + |Old(ops)| <= |t| && t[cursor..cursor + |Old(ops)|] == Old(ops)
    decreases ops
  {
    if ops != [] {
      if ops[0].Insert? {
        ConsumesIsSlice(t, cursor, ops[1..]);
      } else {
        ConsumesIsSlice(t, cursor + 1, ops[1..]);
        if cursor + |Old(ops)| <= |t| {
          SliceStep(t, cursor, ops[0].text, Old(ops[1..]));
        }
      }
    }
  }

  ghost predicate AllStartsPositive(hunks: seq<Hunk>) {
    forall k :: 0 <= k < |hunks| ==> hunks[k].header.oldStart >= 1
  }

  lemma SliceOfMiddle(a: seq<string>, b: seq<string>, c: seq<string>)
    ensures (a + b + c)[|a|..|a| + |b|] == b
  {
  }

  lemma ThreeParts(source: seq<string>, a: nat, b: nat, c: nat)
    requires a <= b <= c <= |source|
    ensures source[a..b] + source[b..c] + source[c..] == source[a..]
  {
  }

  /** The source from `cursor` on, split at the end of a hunk. */
  lemma SplitSource(source: seq<string>, start: nat, ops: seq<Op>, cursor: nat)
    requires cursor <= start && Consumes(source, start, ops)
    ensures source[cursor..start] + Old(ops) + source[start + |Old(ops)|..] == source[cursor..]
  {
    ConsumesIsSlice(source, start, ops);
    ThreeParts(source, cursor, start, start + |Old(ops)|);
  }

  /** The reversed hunk finds the lines the hunk produced, after the same gap. */
  lemma ReverseHunkFits(
    source: seq<string>, hunk: Hunk, cursor: nat, prefix: seq<string>, gap: seq<string>, tail: seq<string>)
    requires HunkFits(source, hunk.header, hunk.ops, cursor, |prefix| - cursor) && hunk.header.oldStart >= 1
    requires gap == source[cursor..Start(hunk.header)]
    ensures HunkFits(prefix + gap + New(hunk.ops) + tail, ReverseHunk(hunk).header, ReverseHunk(hunk).ops,
                     |prefix|, cursor - |prefix|)
    ensures Start(ReverseHunk(hunk).header) == |prefix + gap|
  {
    FlipSwaps(hunk.ops);
    SliceOfMiddle(prefix + gap, New(hunk.ops), tail);
    ConsumesIsSlice(prefix + gap + New(hunk.ops) + tail, |prefix + gap|, FlipAll(hunk.ops));
  }

  lemma ReverseStep(source: seq<string>, hunk: Hunk, rest: seq<Hunk>, cursor: nat, prefix: seq<string>,
                    gap: seq<string>, tail: seq<string>, t: seq<string>)
    requires HunkFits(source, hunk.header, hunk.ops, cursor, |prefix| - cursor) && hunk.header.oldStart >= 1
    requires gap == source[cursor..Start(hunk.header)] && t == prefix + gap + New(hunk.ops) + tail
    requires var end, next := Start(hunk.header) + |Old(hunk.ops)|, prefix + gap + New(hunk.ops);
             Walk(t, rest, |next|, end - |next|) == Ok(source[end..])
    ensures WalkHunk(t, ReverseHunk(hunk).header, ReverseHunk(hunk).ops, rest, |prefix|, cursor - |prefix|) ==
            Ok(source[cursor..])
  {
    ReverseHunkFits(source, hunk, cursor, prefix, gap, tail);
    FlipSwaps(hunk.ops);
    assert t[|prefix|..|prefix + gap|] == gap;
    SplitSource(source, Start(hunk.header), hunk.ops, cursor);
  }

  /** The parts of a walk that starts with a hunk. */
  lemma SplitWalk(source: seq<string>, hunks: seq<Hunk>, cursor: nat, drift: int) returns (tail: seq<string>)
    requires hunks != [] && Walk(source, hunks, cursor, drift).Ok?
    ensures var h, ops := hunks[0].header, hunks[0].ops;
            && HunkFits(source, h, ops, cursor, drift)
            && Walk(source, hunks[1..], Start(h) + |Old(ops)|, drift + |New(ops)| - |Old(ops)|) == Ok(tail)
            && Walk(source, hunks, cursor, drift).value == source[cursor..Start(h)] + New(ops) + tail
  {
    var h, ops := hunks[0].header, hunks[0].ops;
    tail := Walk(source, hunks[1..], Start(h) + |Old(ops)|, drift + |New(ops)| - |Old(ops)|).value;
  }

  lemma ReverseNone(source: seq<string>, cursor: nat, prefix: seq<string>)
    requires cursor <= |source|
    ensures Walk(prefix + source[cursor..], [], |prefix|, cursor - |prefix|) == Ok(source[cursor..])
  {
    assert (prefix + source[cursor..])[|prefix|..] == source[cursor..];
  }

  /** The reversed hunks, applied to the text produced from `cursor` on, give back the source from `cursor` on. */
  lemma {:induction false} ReverseFrom(
    source: seq<string>, hunks: seq<Hunk>, cursor: nat, prefix: seq<string>, t: seq<string>)
    requires cursor <= |source| && Walk(source, hunks, cursor, |prefix| - cursor).Ok?
    requires AllStartsPositive(hunks)
    requires t == prefix + Walk(source, hunks, cursor, |prefix| - cursor).value
    ensures Walk(t, Reverse(hunks), |prefix|, cursor - |prefix|) == Ok(source[cursor..])
  {
    if hunks == [] {
      ReverseNone(source, cursor, prefix);
    } else {
      var hunk, rest := hunks[0], hunks[1..];
      var gap := source[cursor..Start(hunk.header)];
      var tail := SplitWalk(source, hunks, cursor, |prefix| - cursor);
      var next := prefix + gap + New(hunk.ops);
      Regroup(prefix, gap, New(hunk.ops), tail);
      ReverseFrom(source, rest, Start(hunk.header) + |Old(hunk.ops)|, next, t);
      ReverseStep(source, hunk, Reverse(rest), cursor, prefix, gap, tail, t);
      assert Reverse(hunks)[1..] == Reverse(rest);
    }
  }

  lemma Regroup(a: seq<string>, b: seq<string>, c: seq<string>, d: seq<string>)
    ensures a + (b + c + d) == a + b + c + d
  {
  }

  /** A header whose new start is zero never agrees with a placed script. */
  lemma ZeroNewStartRefused(source: seq<string>, hunks: seq<Hunk>, k: nat)
    requires k < |hunks| && hunks[k].header.newStart == 0
    ensures Meaning(source, hunks, 0, 0) == Err
  {
    if Placed(source, ScriptOf(hunks), 0) {
      DenoteHolds(source, ScriptOf(hunks), 0, k);
      if HeadersAgree(hunks, 0) {
        HeaderAt(hunks, 0, k);
      }
    }
  }

  /** Reversal: the reversed hunks give the source back exactly when no hunk states an old start of
      zero; otherwise they are refused. */
  lemma ReversalIff(source: seq<string>, hunks: seq<Hunk>, target: seq<string>)
    requires Meaning(source, hunks, 0, 0) == Ok(target)
    ensures Meaning(target, Reverse(hunks), 0, 0) == if AllStartsPositive(hunks) then Ok(source) else Err
  {
    if AllStartsPositive(hunks) {
      WalkIsMeaning(source, hunks, 0, 0);
      assert [] + target == target;
      ReverseFrom(source, hunks, 0, [], target);
      WalkIsMeaning(target, Reverse(hunks), 0, 0);
      assert source[0..] == source;
    } else {
      var k: nat :| k < |hunks| && hunks[k].header.oldStart < 1;
      ZeroNewStartRefused(target, Reverse(hunks), k);
    }
  }
}
