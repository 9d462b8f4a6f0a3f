/**
  The unified-diff applier of `evaluation_tasks.py`. Fixture and patch are texts, split into lines that
  keep their line ends; the result is joined from lines.
  */
module Patch {
  import opened Wrappers
  import opened EditScript
  import opened HunkHeader
  import opened TextLines

  const MAX_CASE_BYTES := 16 * 1024

  datatype Hunk = Hunk(header: Header, ops: seq<Op>)

  // ----- Reading a patch -----

  predicate AllowedNames(oldName: string, newName: string) {
    || (oldName == "--- a/fixture.py" && newName == "+++ b/fixture.py")
    || (oldName == "--- a/note.txt" && newName == "+++ b/note.txt")
  }

  predicate StartsHunk(line: string) {
    "@@ " <= line
  }

  function ParseOp(line: string): Option<Op> {
    if line == [] then None
    else if line[0] == ' ' then Some(Keep(line[1..]))
    else if line[0] == '-' then Some(Delete(line[1..]))
    else if line[0] == '+' then Some(Insert(line[1..]))
    else None
  }

  /** What one line of a patch body is; a bad line is an error wherever it stands. */
  datatype Token = HunkLine(header: Header) | OpLine(op: Op) | BadLine

  function Read(line: string): Token {
    if StartsHunk(line) then
      match HunkHeader.Parse(line)
      case Some(h) => HunkLine(h)
      case None => BadLine
    else
      match ParseOp(line)
      case Some(op) => OpLine(op)
      case None => BadLine
  }

  function ReadAll(lines: seq<string>): (tokens: seq<Token>)
    ensures |tokens| == |lines|
    ensures forall i :: 0 <= i < |lines| ==> tokens[i] == Read(lines[i])
  {
    if lines == [] then [] else [Read(lines[0])] + ReadAll(lines[1..])
  }

  /** The operations up to the next line of another kind, and the lines from there on. */
  function SpanOps(tokens: seq<Token>): (r: (seq<Op>, seq<Token>))
    ensures |r.1| <= |tokens|
  {
    if tokens == [] || !tokens[0].OpLine? then ([], tokens) else
    var (ops, rest) := SpanOps(tokens[1..]);
    ([tokens[0].op] + ops, rest)
  }

  function ParseHunks(tokens: seq<Token>): Option<seq<Hunk>>
    decreases |tokens|
  {
    if tokens == [] then Some([])
    else if !tokens[0].HunkLine? then None
    else
      var (ops, rest) := SpanOps(tokens[1..]);
      var hunks :- ParseHunks(rest);
      Some([Hunk(tokens[0].header, ops)] + hunks)
  }

  function ParsePatch(lines: seq<string>): Option<seq<Hunk>> {
    if |lines| < 3 || !AllowedNames(StripNewlines(lines[0]), StripNewlines(lines[1])) then None
    else ParseHunks(ReadAll(lines[2..]))
  }

  // ----- Meaning -----

  /** Zero-based first source line of a hunk; the code reads a stated start of zero as one. */
  function Start(h: Header): nat {
    if h.oldStart == 0 then 0 else h.oldStart - 1
  }

  function ScriptOf(hunks: seq<Hunk>): (script: seq<Edit>)
    ensures |script| == |hunks|
    ensures forall k :: 0 <= k < |hunks| ==> script[k] == Edit(Start(hunks[k].header), hunks[k].ops)
  {
    if hunks == [] then [] else [Edit(Start(hunks[0].header), hunks[0].ops)] + ScriptOf(hunks[1..])
  }

  /** Every header states its counts and its place in the new text, given the growth so far. */
  predicate HeadersAgree(hunks: seq<Hunk>, drift: int) {
    hunks == [] ||
    (&& hunks[0].header.newStart == Start(hunks[0].header) + drift + 1
     && hunks[0].header.oldTotal == |Old(hunks[0].ops)|
     && hunks[0].header.newTotal == |New(hunks[0].ops)|
     && HeadersAgree(hunks[1..], drift + |New(hunks[0].ops)| - |Old(hunks[0].ops)|))
  }

  /** What applying parsed hunks from source line `cursor` on must give. */
  function Meaning(source: seq<string>, hunks: seq<Hunk>, cursor: nat, drift: int): Result<seq<string>> {
    if Placed(source, ScriptOf(hunks), cursor) && HeadersAgree(hunks, drift)
    then Ok(Denote(source, ScriptOf(hunks), cursor)) else Err
  }

  function Apply(source: seq<string>, lines: seq<string>): Result<seq<string>> {
    match ParsePatch(lines)
    case None => Err
    case Some(hunks) => Meaning(source, hunks, 0, 0)
  }

  /** Applying a patch text to a fixture text, whatever their size. */
  function Patched(fixture: string, patch: string): Result<string> {
    match Apply(Lines(fixture), Lines(patch))
    case Ok(lines) => Ok(Join(lines))
    case Err => Err
  }

  /** `apply_fixture_patch` */
  function Applied(fixture: string, patch: string): Result<string> {
    if Bytes(patch) > MAX_CASE_BYTES then Err else Patched(fixture, patch)
  }

  // ----- The loops -----

  /** Outcome still owed at the head of the outer loop, as the code goes on from there. */
  function ReplayHunks(source: seq<string>, tokens: seq<Token>, cursor: nat, result: seq<string>): Result<seq<string>>
    requires cursor <= |source|
    decreases |tokens|, 0
  {
    if tokens == [] then Ok(result + source[cursor..])
    else if !tokens[0].HunkLine? then Err
    else
      var h := tokens[0].header;
      var start := Start(h);
      if cursor <= start <= |source| && h.newStart == |result| + (start - cursor) + 1
      then ReplayOps(source, tokens[1..], start, result + source[cursor..start], h.oldTotal, h.newTotal)
      else Err
  }

  /** Outcome still owed at the head of the inner loop, with the counts still to be met. */
  function ReplayOps(source: seq<string>, tokens: seq<Token>, cursor: nat, result: seq<string>,
                     oldLeft: int, newLeft: int): Result<seq<string>>
    requires cursor <= |source|
    decreases |tokens|, 1
  {
    if tokens == [] || !tokens[0].OpLine? then
      if oldLeft == 0 && newLeft == 0 then ReplayHunks(source, tokens, cursor, result) else Err
    else
      var op := tokens[0].op;
      if !op.Insert? && !(cursor < |source| && source[cursor] == op.text) then Err else
      ReplayOps(source, tokens[1..],
                if op.Insert? then cursor else cursor + 1,
                if op.Delete? then result else result + [op.text],
                if op.Insert? then oldLeft else oldLeft - 1,
                if op.Delete? then newLeft else newLeft - 1)
  }

  /** The inner loop: replays the operations of one hunk and checks its counts. */
  method ReplayHunk(source: seq<string>, lines: seq<string>, ghost tokens: seq<Token>, first: nat, header: Header,
                    start: nat, before: seq<string>)
      returns (ok: bool, index: nat, cursor: nat, result: seq<string>)
    requires |tokens| == |lines| && forall i :: 0 <= i < |lines| ==> tokens[i] == Read(lines[i])
    requires first <= |lines| && start <= |source|
    ensures first <= index <= |lines| && cursor <= |source|
    ensures ReplayOps(source, tokens[first..], start, before, header.oldTotal, header.newTotal) ==
            if ok then ReplayHunks(source, tokens[index..], cursor, result) else Err
  {
    index, cursor, result := first, start, before;
    var removed, added := 0, 0;
    while index < |lines| && !StartsHunk(lines[index])
      invariant first <= index <= |lines| && cursor <= |source|
      invariant ReplayOps(source, tokens[first..], start, before, header.oldTotal, header.newTotal) ==
                ReplayOps(source, tokens[index..], cursor, result, header.oldTotal - removed, header.newTotal - added)
    {
      var line := lines[index];
      assert tokens[index..][1..] == tokens[index + 1..];
      if line == [] || line[0] !in " +-" {
        return false, index, cursor, result;
      }
      var operation, content := line[0], line[1..];
      if operation in " -" {
        if cursor >= |source| || source[cursor] != content {
          return false, index, cursor, result;
        }
        cursor := cursor + 1;
        removed := removed + 1;
      }
      if operation in " +" {
        result := result + [content];
        added := added + 1;
      }
      index := index + 1;
    }
    ok := removed == header.oldTotal && added == header.newTotal;
  }

  /** `_HUNK.fullmatch`; the token of the line is a hunk line exactly when it matches. */
  method MatchHeader(line: string, ghost token: Token) returns (header: Option<Header>)
    requires token == Read(line)
    ensures header == if token.HunkLine? then Some(token.header) else None
  {
    header := HunkHeader.Parse(line);
    if header.Some? {
      StripPrefix(line, "@@ ");
    }
  }

  lemma ReplayStep(source: seq<string>, tokens: seq<Token>, index: nat, cursor: nat, result: seq<string>)
    requires index < |tokens| && cursor <= |source|
    ensures ReplayHunks(source, tokens[index..], cursor, result) ==
            if !tokens[index].HunkLine? then Err else
            var h := tokens[index].header;
            if cursor <= Start(h) <= |source| && h.newStart == |result| + (Start(h) - cursor) + 1
            then ReplayOps(source, tokens[index + 1..], Start(h), result + source[cursor..Start(h)],
                           h.oldTotal, h.newTotal)
            else Err
  {
    assert tokens[index..][1..] == tokens[index + 1..];
  }

  /** One turn of the outer loop: checks a header and replays its hunk. */
  method ReplayOne(source: seq<string>, body: seq<string>, ghost tokens: seq<Token>, first: nat, from: nat,
                   before: seq<string>)
      returns (ok: bool, index: nat, cursor: nat, result: seq<string>)
    requires |tokens| == |body| && forall i :: 0 <= i < |body| ==> tokens[i] == Read(body[i])
    requires first < |body| && from <= |source|
    ensures first < index <= |body| && cursor <= |source|
    ensures ReplayHunks(source, tokens[first..], from, before) ==
            if ok then ReplayHunks(source, tokens[index..], cursor, result) else Err
  {
    index, cursor, result := first + 1, from, before;
    var header := MatchHeader(body[first], tokens[first]);
    ReplayStep(source, tokens, first, from, before);
    if header.None? {
      return false, index, cursor, result;
    }
    var start := if header.value.oldStart != 0 then header.value.oldStart - 1 else 0;
    if start < cursor || start > |source| {
      return false, index, cursor, result;
    }
    result := result + source[cursor..start];
    cursor := start;
    if header.value.newStart != |result| + 1 {
      return false, index, cursor, result;
    }
    ok, index, cursor, result := ReplayHunk(source, body, tokens, index, header.value, cursor, result);
  }

  /** The outer loop, over the lines after the two file names. */
  method ReplayBody(source: seq<string>, body: seq<string>, ghost tokens: seq<Token>) returns (r: Result<seq<string>>)
    requires |tokens| == |body| && forall i :: 0 <= i < |body| ==> tokens[i] == Read(body[i])
    ensures r == ReplayHunks(source, tokens, 0, [])
  {
    ghost var goal := ReplayHunks(source, tokens, 0, []);
    var result: seq<string> := [];
    var cursor := 0;
    var index := 0;
    assert tokens[0..] == tokens;
    while index < |body|
      invariant 0 <= index <= |body| && 0 <= cursor <= |source|
      invariant ReplayHunks(source, tokens[index..], cursor, result) == goal
    {
      var ok;
      ok, index, cursor, result := ReplayOne(source, body, tokens, index, cursor, result);
      if !ok {
        return Err;
      }
    }
    result := result + source[cursor..];
    return Ok(result);
  }

  method ApplyFixturePatch(fixture: string, patch: string) returns (r: Result<string>)
    ensures r == Applied(fixture, patch)
  {
    if Bytes(patch) > MAX_CASE_BYTES {
      return Err;
    }
    var lines := Lines(patch);
    if |lines| < 3 || !AllowedNames(StripNewlines(lines[0]), StripNewlines(lines[1])) {
      return Err;
    }
    var source := Lines(fixture);
    ghost var tokens := ReadAll(lines[2..]);
    var result := ReplayBody(source, lines[2..], tokens);
    ReplayIsMeaning(source, tokens);
    match result
    case Ok(text) => return Ok(Join(text));
    case Err => return Err;
  }

  lemma {:induction false} StripPrefix(line: string, prefix: string)
    requires prefix <= StripNewlines(line)
    ensures prefix <= line
  {
    if line != [] && line[|line| - 1] == '\n' {
      StripPrefix(line[..|line| - 1], prefix);
    }
  }

  // ----- The loops refine the meaning -----

  lemma FirstOp(op: Op, ops: seq<Op>, result: seq<string>)
    ensures ([op] + ops)[0] == op && ([op] + ops)[1..] == ops
    ensures |Old([op] + ops)| == |Old(ops)| + if op.Insert? then 0 else 1
    ensures |New([op] + ops)| == |New(ops)| + if op.Delete? then 0 else 1
    ensures result + New([op] + ops) == (if op.Delete? then result else result + [op.text]) + New(ops)
  {
    assert ([op] + ops)[1..] == ops;
  }

  /** The inner loop reads the operations of one hunk, checks them all and hands over. */
  lemma {:induction false} ReplayOpsReads(source: seq<string>, tokens: seq<Token>, cursor: nat, result: seq<string>,
                                          oldLeft: int, newLeft: int)
    requires cursor <= |source|
    ensures ReplayOps(source, tokens, cursor, result, oldLeft, newLeft) ==
            var (ops, rest) := SpanOps(tokens);
            if Consumes(source, cursor, ops) && |Old(ops)| == oldLeft && |New(ops)| == newLeft
            then ReplayHunks(source, rest, cursor + |Old(ops)|, result + New(ops))
            else Err
    decreases |tokens|
  {
    if tokens == [] || !tokens[0].OpLine? {
      assert result + New([]) == result;
    } else {
      var op := tokens[0].op;
      if op.Insert? || (cursor < |source| && source[cursor] == op.text) {
        ReplayOpsReads(source, tokens[1..], if op.Insert? then cursor else cursor + 1,
                       if op.Delete? then result else result + [op.text],
                       if op.Insert? then oldLeft else oldLeft - 1,
                       if op.Delete? then newLeft else newLeft - 1);
      }
      FirstOp(op, SpanOps(tokens[1..]).0, result);
    }
  }

  function Prepend(result: seq<string>, r: Result<seq<string>>): Result<seq<string>> {
    match r
    case Ok(text) => Ok(result + text)
    case Err => Err
  }

  lemma PrependTwice(a: seq<string>, b: seq<string>, c: seq<string>, r: Result<seq<string>>)
    ensures Prepend(a, Prepend(b + c, r)) == Prepend(a + b + c, r)
  {
    if r.Ok? {
      assert a + (b + c + r.value) == a + b + c + r.value;
    }
  }

  predicate HunkFits(source: seq<string>, h: Header, ops: seq<Op>, cursor: nat, drift: int) {
    && cursor <= Start(h)
    && Consumes(source, Start(h), ops)
    && h.newStart == Start(h) + drift + 1
    && h.oldTotal == |Old(ops)|
    && h.newTotal == |New(ops)|
  }

  lemma MeaningOfHunk(source: seq<string>, h: Header, ops: seq<Op>, hunks: seq<Hunk>, cursor: nat, drift: int)
    ensures
      Meaning(source, [Hunk(h, ops)] + hunks, cursor, drift) ==
      if HunkFits(source, h, ops, cursor, drift)
      then Prepend(source[cursor..Start(h)] + New(ops),
                   Meaning(source, hunks, Start(h) + |Old(ops)|, drift + |New(ops)| - |Old(ops)|))
      else Err
  {
    var all := [Hunk(h, ops)] + hunks;
    assert all[1..] == hunks;
    assert ScriptOf(all)[1..] == ScriptOf(hunks);
  }

  /** The meaning of hunks, one hunk after the other. */
  function Walk(source: seq<string>, hunks: seq<Hunk>, cursor: nat, drift: int): Result<seq<string>>
    decreases hunks, 0
  {
    if hunks == [] then (if cursor <= |source| then Ok(source[cursor..]) else Err)
    else WalkHunk(source, hunks[0].header, hunks[0].ops, hunks[1..], cursor, drift)
  }

  function WalkHunk(source: seq<string>, h: Header, ops: seq<Op>, rest: seq<Hunk>, cursor: nat, drift: int)
    : Result<seq<string>>
    decreases rest, 1
  {
    if HunkFits(source, h, ops, cursor, drift)
    then Prepend(source[cursor..Start(h)] + New(ops),
                 Walk(source, rest, Start(h) + |Old(ops)|, drift + |New(ops)| - |Old(ops)|))
    else Err
  }

  /** Walking hunk by hunk gives the meaning of the whole script. */
  lemma {:induction false} WalkIsMeaning(source: seq<string>, hunks: seq<Hunk>, cursor: nat, drift: int)
    ensures Walk(source, hunks, cursor, drift) == Meaning(source, hunks, cursor, drift)
  {
    if hunks != [] {
      var h, ops, rest := hunks[0].header, hunks[0].ops, hunks[1..];
      WalkIsMeaning(source, rest, Start(h) + |Old(ops)|, drift + |New(ops)| - |Old(ops)|);
      MeaningOfHunk(source, h, ops, rest, cursor, drift);
      assert hunks == [Hunk(h, ops)] + rest;
    }
  }

  /** What the parsed hunks mean after `result`, or the error of a patch that does not parse. */
  function Owed(source: seq<string>, parsed: Option<seq<Hunk>>, cursor: nat, result: seq<string>): Result<seq<string>> {
    match parsed
    case None => Err
    case Some(hunks) => Prepend(result, Walk(source, hunks, cursor, |result| - cursor))
  }

  lemma OwedHunk(source: seq<string>, h: Header, ops: seq<Op>, hunks: seq<Hunk>, cursor: nat, result: seq<string>)
    ensures Owed(source, Some([Hunk(h, ops)] + hunks), cursor, result) ==
            if HunkFits(source, h, ops, cursor, |result| - cursor)
            then Owed(source, Some(hunks), Start(h) + |Old(ops)|, result + source[cursor..Start(h)] + New(ops))
            else Err
  {
    assert ([Hunk(h, ops)] + hunks)[1..] == hunks;
    assert Walk(source, [Hunk(h, ops)] + hunks, cursor, |result| - cursor) ==
           WalkHunk(source, h, ops, hunks, cursor, |result| - cursor);
    if HunkFits(source, h, ops, cursor, |result| - cursor) {
      var gap := source[cursor..Start(h)];
      assert |result + gap + New(ops)| - (Start(h) + |Old(ops)|) == |result| - cursor + |New(ops)| - |Old(ops)|;
      PrependTwice(result, gap, New(ops),
                   Walk(source, hunks, Start(h) + |Old(ops)|, |result + gap + New(ops)| - (Start(h) + |Old(ops)|)));
    }
  }

  lemma ReplayOneHunk(source: seq<string>, tokens: seq<Token>, cursor: nat, result: seq<string>)
    requires cursor <= |source| && tokens != [] && tokens[0].HunkLine?
    ensures ReplayHunks(source, tokens, cursor, result) ==
            var h := tokens[0].header;
            var (ops, rest) := SpanOps(tokens[1..]);
            if HunkFits(source, h, ops, cursor, |result| - cursor)
            then ReplayHunks(source, rest, Start(h) + |Old(ops)|, result + source[cursor..Start(h)] + New(ops))
            else Err
  {
    var h := tokens[0].header;
    if cursor <= Start(h) <= |source| {
      ReplayOpsReads(source, tokens[1..], Start(h), result + source[cursor..Start(h)], h.oldTotal, h.newTotal);
    }
  }

  /** From any cursor, with any text produced so far, the loops give what the parsed hunks mean. */
  lemma {:induction false} ReplayMeans(source: seq<string>, tokens: seq<Token>, cursor: nat, result: seq<string>)
    requires cursor <= |source|
    ensures ReplayHunks(source, tokens, cursor, result) == Owed(source, ParseHunks(tokens), cursor, result)
    decreases |tokens|
  {
    if tokens != [] && tokens[0].HunkLine? {
      var h := tokens[0].header;
      var (ops, rest) := SpanOps(tokens[1..]);
      ReplayOneHunk(source, tokens, cursor, result);
      if HunkFits(source, h, ops, cursor, |result| - cursor) {
        ReplayMeans(source, rest, Start(h) + |Old(ops)|, result + source[cursor..Start(h)] + New(ops));
      }
      if ParseHunks(rest).Some? {
        OwedHunk(source, h, ops, ParseHunks(rest).value, cursor, result);
      }
    }
  }

  lemma ReplayIsMeaning(source: seq<string>, tokens: seq<Token>)
    ensures ReplayHunks(source, tokens, 0, []) ==
            match ParseHunks(tokens)
            case None => Err
            case Some(hunks) => Meaning(source, hunks, 0, 0)
  {
    ReplayMeans(source, tokens, 0, []);
    if ParseHunks(tokens).Some? {
      var r := Walk(source, ParseHunks(tokens).value, 0, 0);
      WalkIsMeaning(source, ParseHunks(tokens).value, 0, 0);
      assert r.Ok? ==> [] + r.value == r.value;
    }
  }
}
