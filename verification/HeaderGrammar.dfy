/** The hunk headers by a grammar of their own: what the pattern matches, and what it reads. */
module HeaderGrammar {
  import opened Wrappers
  import opened HunkHeader
  import Decimal

  /** The digits of a range; the count may be left out. */
  datatype Range = Range(start: string, count: Option<string>)

  predicate IsNumber(s: string) {
    s != [] && Decimal.AllDigits(s)
  }

  predicate Numeric(r: Range) {
    IsNumber(r.start) && (r.count.Some? ==> IsNumber(r.count.value))
  }

  function CountText(count: Option<string>): string {
    if count.Some? then "," + count.value else ""
  }

  function RangeText(r: Range): string {
    r.start + CountText(r.count)
  }

  predicate AllFeeds(s: string) {
    forall i | 0 <= i < |s| :: s[i] == '\n'
  }

  /** A header line: two ranges, free text without a line feed after the closing marker, and line feeds. */
  ghost predicate Spells(line: string, removed: Range, added: Range, heading: string, feeds: string) {
    && Numeric(removed) && Numeric(added) && '\n' !in heading && AllFeeds(feeds)
    && line == "@@ -" + RangeText(removed) + " +" + RangeText(added) + " @@" + heading + feeds
  }

  /** The header states the numbers of the two ranges. */
  predicate Numbers(h: Header, removed: Range, added: Range)
    requires Numeric(removed) && Numeric(added)
  {
    && h.oldStart == Decimal.Value(removed.start) && h.newStart == Decimal.Value(added.start)
    && h.oldTotal == Total(removed) && h.newTotal == Total(added)
  }

  function Total(r: Range): nat
    requires Numeric(r)
  {
    if r.count.Some? then Decimal.Value(r.count.value) else 1
  }

  // ----- Line feeds -----

  lemma {:induction false} StripFeeds(text: string, feeds: string)
    requires (text == [] || text[|text| - 1] != '\n') && AllFeeds(feeds)
    ensures StripNewlines(text + feeds) == text
  {
    if feeds == [] {
      assert text + feeds == text;
    } else {
      var n := |feeds| - 1;
      assert (text + feeds)[..|text| + n] == text + feeds[..n];
      StripFeeds(text, feeds[..n]);
    }
  }

  lemma {:induction false} StripSplits(s: string) returns (feeds: string)
    ensures s == StripNewlines(s) + feeds && AllFeeds(feeds)
  {
    if s != [] && s[|s| - 1] == '\n' {
      var before := StripSplits(s[..|s| - 1]);
      feeds := before + ['\n'];
      assert s == s[..|s| - 1] + ['\n'];
      assert StripNewlines(s) + feeds == StripNewlines(s[..|s| - 1]) + before + ['\n'];
    } else {
      feeds := [];
    }
  }

  // ----- One range -----

  /** The next character ends a number, and begins no count. */
  predicate Ends(rest: string) {
    rest == [] || (!Decimal.IsDigit(rest[0]) && rest[0] != ',')
  }

  lemma ReadNumber(digits: string, rest: string)
    requires IsNumber(digits) && (rest == [] || !Decimal.IsDigit(rest[0]))
    ensures Decimal.Read(digits + rest) == Some((Decimal.Value(digits), rest))
  {
    Decimal.SpanOfDigits(digits, rest);
    assert (digits + rest)[..|digits|] == digits && (digits + rest)[|digits|..] == rest;
  }

  lemma ReadSpelled(prefix: string, r: Range, rest: string)
    requires Numeric(r) && Ends(rest)
    ensures ReadRange(prefix + (RangeText(r) + rest), prefix) == Some((Decimal.Value(r.start), Total(r), rest))
  {
    assert (prefix + (RangeText(r) + rest))[|prefix|..] == RangeText(r) + rest;
    if r.count.Some? {
      var counted := r.count.value + rest;
      assert RangeText(r) + rest == r.start + ([','] + counted);
      ReadNumber(r.start, [','] + counted);
      assert ([','] + counted)[1..] == counted;
      ReadNumber(r.count.value, rest);
    } else {
      assert RangeText(r) + rest == r.start + rest;
      ReadNumber(r.start, rest);
    }
  }

  lemma NumberRead(s: string) returns (digits: string)
    requires Decimal.Read(s).Some?
    ensures IsNumber(digits) && s == digits + Decimal.Read(s).value.1
    ensures Decimal.Value(digits) == Decimal.Read(s).value.0
  {
    digits := s[..Decimal.Span(s)];
  }

  lemma CountRead(s: string) returns (count: Option<string>)
    requires ReadCount(s).Some?
    ensures count.Some? ==> IsNumber(count.value)
    ensures s == CountText(count) + ReadCount(s).value.1
    ensures ReadCount(s).value.0 == if count.Some? then Decimal.Value(count.value) else 1
  {
    if s != [] && s[0] == ',' {
      var digits := NumberRead(s[1..]);
      count := Some(digits);
      assert s == [','] + s[1..];
      Regroup([','], digits, ReadCount(s).value.1);
    } else {
      count := None;
    }
  }

  lemma Regroup(a: string, b: string, c: string)
    ensures a + (b + c) == a + b + c
  {
  }

  lemma RangeRead(text: string, prefix: string) returns (r: Range)
    requires ReadRange(text, prefix).Some?
    ensures Numeric(r)
    ensures ReadRange(text, prefix) == Some((Decimal.Value(r.start), Total(r), ReadRange(text, prefix).value.2))
    ensures text == prefix + (RangeText(r) + ReadRange(text, prefix).value.2)
  {
    var after := text[|prefix|..];
    var start := NumberRead(after);
    var counted := Decimal.Read(after).value.1;
    var count := CountRead(counted);
    r := Range(start, count);
    assert text == prefix + after;
    Regroup(start, CountText(count), ReadCount(counted).value.1);
  }

  // ----- The whole header -----

  function NewText(added: Range, heading: string): string {
    " +" + (RangeText(added) + (" @@" + heading))
  }

  function HeaderText(removed: Range, added: Range, heading: string): string {
    "@@ -" + (RangeText(removed) + NewText(added, heading))
  }

  lemma HeaderTextIs(removed: Range, added: Range, heading: string, feeds: string)
    ensures HeaderText(removed, added, heading) + feeds ==
            "@@ -" + RangeText(removed) + " +" + RangeText(added) + " @@" + heading + feeds
  {
  }

  lemma ReadNewText(oldStart: nat, oldTotal: nat, added: Range, heading: string, text: string)
    requires Numeric(added) && '\n' !in heading && text == NewText(added, heading)
    ensures ParseNewRange(oldStart, oldTotal, text) ==
            Some(Header(oldStart, oldTotal, Decimal.Value(added.start), Total(added)))
  {
    var rest := " @@" + heading;
    assert rest[0] == ' ';
    ReadSpelled(" +", added, rest);
    assert ReadRange(text, " +") == Some((Decimal.Value(added.start), Total(added), rest));
  }

  lemma HeaderTextEnds(removed: Range, added: Range, heading: string)
    requires '\n' !in heading
    ensures var text := HeaderText(removed, added, heading); text != [] && text[|text| - 1] != '\n'
  {
    var text := HeaderText(removed, added, heading);
    if heading != [] {
      assert text[|text| - 1] == heading[|heading| - 1];
    } else {
      assert text[|text| - 1] == " @@"[2];
    }
  }

  lemma SpelledIsParsed(line: string, removed: Range, added: Range, heading: string, feeds: string)
    requires Spells(line, removed, added, heading, feeds)
    ensures Parse(line).Some? && Numbers(Parse(line).value, removed, added)
  {
    var rest := NewText(added, heading);
    HeaderTextIs(removed, added, heading, feeds);
    HeaderTextEnds(removed, added, heading);
    StripFeeds(HeaderText(removed, added, heading), feeds);
    assert rest[0] == ' ';
    ReadSpelled("@@ -", removed, rest);
    ReadNewText(Decimal.Value(removed.start), Total(removed), added, heading, rest);
    assert ParseText(HeaderText(removed, added, heading)).Some?;
  }

  /** What stands behind the second range. */
  lemma HeadingRead(oldStart: nat, oldTotal: nat, text: string) returns (added: Range, heading: string)
    requires ParseNewRange(oldStart, oldTotal, text).Some?
    ensures Numeric(added) && '\n' !in heading && text == NewText(added, heading)
    ensures ParseNewRange(oldStart, oldTotal, text) ==
            Some(Header(oldStart, oldTotal, Decimal.Value(added.start), Total(added)))
  {
    added := RangeRead(text, " +");
    var last := ReadRange(text, " +").value.2;
    heading := BehindMarker(last, " @@");
  }

  lemma BehindMarker(text: string, marker: string) returns (rest: string)
    requires marker <= text
    ensures text == marker + rest && forall c | c in rest :: c in text
  {
    rest := text[|marker|..];
  }

  lemma ParsedIsSpelled(line: string) returns (removed: Range, added: Range, heading: string, feeds: string)
    requires Parse(line).Some?
    ensures Spells(line, removed, added, heading, feeds) && Numbers(Parse(line).value, removed, added)
  {
    var text := StripNewlines(line);
    feeds := StripSplits(line);
    removed := RangeRead(text, "@@ -");
    added, heading := HeadingRead(Decimal.Value(removed.start), Total(removed), ReadRange(text, "@@ -").value.2);
    HeaderTextIs(removed, added, heading, feeds);
  }

  /** A line is read as a header exactly when it is spelled as one: digits for both starts, digits after a comma for
      each count or neither, in which case the count is one, and any text without a line feed behind the marker. */
  lemma HeaderIff(line: string, h: Header)
    ensures Parse(line) == Some(h) <==>
            exists removed, added, heading, feeds ::
              && Spells(line, removed, added, heading, feeds)
              && h.oldStart == Decimal.Value(removed.start) && h.newStart == Decimal.Value(added.start)
              && h.oldTotal == (if removed.count.Some? then Decimal.Value(removed.count.value) else 1)
              && h.newTotal == (if added.count.Some? then Decimal.Value(added.count.value) else 1)
  {
    if Parse(line) == Some(h) {
      var removed, added, heading, feeds := ParsedIsSpelled(line);
      assert Spells(line, removed, added, heading, feeds);
    }
    forall removed, added, heading, feeds | Spells(line, removed, added, heading, feeds)
      ensures Parse(line).Some? && Numbers(Parse(line).value, removed, added)
    {
      SpelledIsParsed(line, removed, added, heading, feeds);
    }
  }
}
