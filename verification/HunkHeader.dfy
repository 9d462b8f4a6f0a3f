/** The text of one hunk header, as `evaluation_tasks.py` matches it with a regular expression. */
module HunkHeader {
  import opened Wrappers
  import Decimal

  datatype Header = Header(oldStart: nat, oldTotal: nat, newStart: nat, newTotal: nat)

  /** `rstrip("\n")` */
  function StripNewlines(s: string): string {
    if s != [] && s[|s| - 1] == '\n' then StripNewlines(s[..|s| - 1]) else s
  }

  /** The optional `,count` of a range; an omitted count is one. */
  function ReadCount(s: string): Option<(nat, string)> {
    if s != [] && s[0] == ',' then Decimal.Read(s[1..]) else Some((1, s))
  }

  function ReadRange(s: string, prefix: string): Option<(nat, nat, string)> {
    if !(prefix <= s) then None else
    var (start, afterStart) :- Decimal.Read(s[|prefix|..]);
    var (total, rest) :- ReadCount(afterStart);
    Some((start, total, rest))
  }

  function ParseNewRange(oldStart: nat, oldTotal: nat, text: string): Option<Header> {
    var (newStart, newTotal, rest) :- ReadRange(text, " +");
    if " @@" <= rest && '\n' !in rest then Some(Header(oldStart, oldTotal, newStart, newTotal)) else None
  }

  function ParseText(text: string): Option<Header> {
    var (oldStart, oldTotal, rest) :- ReadRange(text, "@@ -");
    ParseNewRange(oldStart, oldTotal, rest)
  }

  /** The full match of the header pattern: free text may follow the closing marker. */
  function Parse(line: string): Option<Header> {
    ParseText(StripNewlines(line))
  }

  function PrintRange(prefix: string, start: nat, total: nat, rest: string): string {
    prefix + (Decimal.Print(start) + ([','] + (Decimal.Print(total) + rest)))
  }

  /** The header without its line end. */
  function PrintText(h: Header): string {
    PrintRange("@@ -", h.oldStart, h.oldTotal, PrintRange(" +", h.newStart, h.newTotal, " @@"))
  }

  function Print(h: Header): string {
    PrintText(h) + ['\n']
  }

  lemma ReadOfPrintRange(prefix: string, start: nat, total: nat, rest: string)
    requires rest == [] || !Decimal.IsDigit(rest[0])
    ensures ReadRange(PrintRange(prefix, start, total, rest), prefix) == Some((start, total, rest))
  {
    var counted := Decimal.Print(total) + rest;
    var numbers := Decimal.Print(start) + ([','] + counted);
    assert (prefix + numbers)[|prefix|..] == numbers;
    Decimal.ReadOfPrint(start, [','] + counted);
    assert ([','] + counted)[1..] == counted;
    Decimal.ReadOfPrint(total, rest);
  }

  lemma PrintRangeEnds(prefix: string, start: nat, total: nat, rest: string)
    requires rest != []
    ensures PrintRange(prefix, start, total, rest) != []
    ensures PrintRange(prefix, start, total, rest)[|PrintRange(prefix, start, total, rest)| - 1] == rest[|rest| - 1]
  {
  }

  lemma StripOneNewline(text: string)
    requires text != [] && text[|text| - 1] != '\n'
    ensures StripNewlines(text + ['\n']) == text
  {
    assert (text + ['\n'])[..|text|] == text;
  }

  lemma ParseNewOfPrint(h: Header, text: string)
    requires text == PrintRange(" +", h.newStart, h.newTotal, " @@")
    ensures ParseNewRange(h.oldStart, h.oldTotal, text) == Some(h)
  {
    ReadOfPrintRange(" +", h.newStart, h.newTotal, " @@");
  }

  lemma ReadOldRange(h: Header, rest: string)
    requires rest == PrintRange(" +", h.newStart, h.newTotal, " @@")
    ensures ReadRange(PrintText(h), "@@ -") == Some((h.oldStart, h.oldTotal, rest))
  {
    assert rest[0] == ' ';
    ReadOfPrintRange("@@ -", h.oldStart, h.oldTotal, rest);
  }

  lemma ParseTextInSteps(text: string, h: Header, rest: string)
    requires ReadRange(text, "@@ -") == Some((h.oldStart, h.oldTotal, rest))
    requires ParseNewRange(h.oldStart, h.oldTotal, rest) == Some(h)
    ensures ParseText(text) == Some(h)
  {
  }

  lemma StripPrinted(h: Header)
    ensures StripNewlines(Print(h)) == PrintText(h)
  {
    PrintRangeEnds(" +", h.newStart, h.newTotal, " @@");
    PrintRangeEnds("@@ -", h.oldStart, h.oldTotal, PrintRange(" +", h.newStart, h.newTotal, " @@"));
    StripOneNewline(PrintText(h));
  }

  lemma ParseTextOfPrint(h: Header)
    ensures ParseText(PrintText(h)) == Some(h)
  {
    var rest := PrintRange(" +", h.newStart, h.newTotal, " @@");
    ReadOldRange(h, rest);
    ParseNewOfPrint(h, rest);
    ParseTextInSteps(PrintText(h), h, rest);
  }

  /** Headers survive the round trip through their text, for all numbers. */
  lemma ParseOfPrint(h: Header)
    ensures Parse(Print(h)) == Some(h)
  {
    StripPrinted(h);
    ParseTextOfPrint(h);
  }

  lemma PrintStartsHunk(h: Header)
    ensures "@@ " <= Print(h)
  {
  }
}
