/** Repository search and the citations it returns: `search` and `validate_citation` in `coding.py`. */
module Search {
  import opened Wrappers

  /** A file that can be read, as the lines it splits into, or one that is refused: too large, unsafe or not text. */
  datatype File = Readable(lines: seq<string>) | Refused

  /** `tree` is what can be read by path, `names` the order in which the walk lists the files. */
  datatype Workspace = Workspace(tree: map<string, File>, names: seq<string>)

  datatype Citation = Citation(path: string, line: nat, excerpt: Option<string>)

  const MAX_SEARCH_HITS := 128
  const MAX_NEEDLE := 256
  const MAX_EXCERPT := 2000
  const MAX_PATH := 1024

  function Lookup(w: Workspace, path: string): File {
    if path in w.tree then w.tree[path] else Refused
  }

  /** What `strip` removes. */
  predicate Space(c: char) {
    || c == ' ' || '\t' <= c <= '\r' || '\U{1c}' <= c <= '\U{1f}' || c == '\U{85}' || c == '\U{a0}'
    || c == '\U{1680}' || '\U{2000}' <= c <= '\U{200a}' || c == '\U{2028}' || c == '\U{2029}'
    || c == '\U{202f}' || c == '\U{205f}' || c == '\U{3000}'
  }

  function TrimLeft(s: string): string {
    if s != [] && Space(s[0]) then TrimLeft(s[1..]) else s
  }

  function TrimRight(s: string): string {
    if s != [] && Space(s[|s| - 1]) then TrimRight(s[..|s| - 1]) else s
  }

  function Strip(s: string): string {
    TrimRight(TrimLeft(s))
  }

  predicate Contains(s: string, part: string) {
    exists k | 0 <= k <= |s| :: part <= s[k..]
  }

  function Take<T>(s: seq<T>, n: nat): seq<T> {
    if |s| <= n then s else s[..n]
  }

  /** `validate_citation` accepts. */
  predicate Valid(w: Workspace, c: Citation) {
    var file := Lookup(w, c.path);
    && file.Readable? && 1 <= c.line <= |file.lines|
    && (c.excerpt.Some? ==> Contains(file.lines[c.line - 1], Strip(c.excerpt.value)))
  }

  /** A citation is valid exactly when its file can be read, has the line, and the line holds the stripped excerpt. */
  lemma ValidIff(w: Workspace, c: Citation)
    ensures Valid(w, c) <==>
            && c.path in w.tree && w.tree[c.path].Readable? && c.line > 0 && c.line <= |w.tree[c.path].lines|
            && (c.excerpt.None? || Contains(w.tree[c.path].lines[c.line - 1], Strip(c.excerpt.value)))
  {
  }

  // ----- The hits, without the cap -----

  function Cite(path: string, line: nat, text: string): Citation {
    Citation(path, line, Some(Take(text, MAX_EXCERPT)))
  }

  /** The hits among the lines from `from` on; `fold` is Python's `casefold`. */
  function LineHits(fold: string -> string, needle: string, path: string, lines: seq<string>, from: nat): seq<Citation>
    requires from <= |lines|
    decreases |lines| - from
  {
    if from == |lines| then []
    else
      (if Contains(fold(lines[from]), needle) then [Cite(path, from + 1, lines[from])] else [])
      + LineHits(fold, needle, path, lines, from + 1)
  }

  /** The hits in the file the walk lists at `k`. */
  function FileHits(fold: string -> string, needle: string, w: Workspace, k: nat): seq<Citation>
    requires k < |w.names|
  {
    var file := Lookup(w, w.names[k]);
    if file.Refused? then [] else LineHits(fold, needle, w.names[k], file.lines, 0)
  }

  /** Every hit in the files from `from` on, in walk order. */
  function AllHits(fold: string -> string, needle: string, w: Workspace, from: nat): seq<Citation>
    requires from <= |w.names|
    decreases |w.names| - from
  {
    if from == |w.names| then []
    else FileHits(fold, needle, w, from) + AllHits(fold, needle, w, from + 1)
  }

  predicate AllShort(hits: seq<Citation>) {
    forall c | c in hits :: |c.path| <= MAX_PATH
  }

  /** What `search` answers: the first hits up to the cap, unless one of them has a path too long to cite. */
  function Found(fold: string -> string, query: string, w: Workspace): Result<seq<Citation>> {
    var needle := Strip(fold(query));
    if needle == [] || |needle| > MAX_NEEDLE then Err
    else
      var hits := Take(AllHits(fold, needle, w, 0), MAX_SEARCH_HITS);
      if AllShort(hits) then Ok(hits) else Err
  }

  // ----- The two loops -----

  /** The cap is reached, or a hit cannot be cited: the answer is known whatever follows. */
  datatype Outcome = More(hits: seq<Citation>) | Done(answer: Result<seq<Citation>>)

  function Capped(hits: seq<Citation>): Result<seq<Citation>> {
    var first := Take(hits, MAX_SEARCH_HITS);
    if AllShort(first) then Ok(first) else Err
  }

  /** The state after exactly `seen` has been met. */
  ghost predicate Reached(o: Outcome, seen: seq<Citation>, all: seq<Citation>) {
    match o
    case More(hits) => hits == seen && |hits| < MAX_SEARCH_HITS && AllShort(hits)
    case Done(answer) => answer == Capped(all)
  }

  /** One hit: build the citation, append it, stop at the cap. */
  method Append(hits: seq<Citation>, c: Citation, ghost rest: seq<Citation>) returns (o: Outcome)
    requires |hits| < MAX_SEARCH_HITS && AllShort(hits)
    ensures Reached(o, hits + [c], hits + [c] + rest)
  {
    ghost var all := hits + [c] + rest;
    if |c.path| > MAX_PATH {
      TakeHas(all, |hits|);
      return Done(Err);
    }
    var grown := hits + [c];
    if |grown| >= MAX_SEARCH_HITS {
      assert Take(all, MAX_SEARCH_HITS) == grown;
      return Done(Ok(grown));
    }
    return More(grown);
  }

  lemma TakeHas(all: seq<Citation>, i: nat)
    requires i < |all| && i < MAX_SEARCH_HITS
    ensures all[i] in Take(all, MAX_SEARCH_HITS)
  {
    assert Take(all, MAX_SEARCH_HITS)[i] == all[i];
  }

  lemma Regroup(a: seq<Citation>, b: seq<Citation>, c: seq<Citation>)
    ensures a + (b + c) == a + b + c
  {
  }

  method SearchLines(
    fold: string -> string, needle: string, path: string, lines: seq<string>, before: seq<Citation>,
    ghost rest: seq<Citation>)
    returns (o: Outcome)
    requires |before| < MAX_SEARCH_HITS && AllShort(before)
    ensures var found := LineHits(fold, needle, path, lines, 0);
            Reached(o, before + found, before + found + rest)
  {
    o := More(before);
    ghost var all := before + LineHits(fold, needle, path, lines, 0) + rest;
    var i := 0;
    while i < |lines| && o.More?
      invariant i <= |lines|
      invariant o.More? ==> |o.hits| < MAX_SEARCH_HITS && AllShort(o.hits)
      invariant o.More? ==>
                  o.hits + LineHits(fold, needle, path, lines, i) == before + LineHits(fold, needle, path, lines, 0)
      invariant o.Done? ==> o.answer == Capped(all)
    {
      ghost var later := LineHits(fold, needle, path, lines, i + 1);
      if Contains(fold(lines[i]), needle) {
        var c := Cite(path, i + 1, lines[i]);
        Regroup(o.hits, [c], later);
        Regroup(o.hits + [c], later, rest);
        o := Append(o.hits, c, later + rest);
      } else {
        assert [] + later == later;
      }
      i := i + 1;
    }
    if o.More? {
      assert o.hits + [] == o.hits;
    }
  }

  /** A file that cannot be read is skipped. */
  method SearchFile(
    fold: string -> string, needle: string, w: Workspace, k: nat, before: seq<Citation>, ghost rest: seq<Citation>)
    returns (o: Outcome)
    requires k < |w.names| && |before| < MAX_SEARCH_HITS && AllShort(before)
    ensures Reached(o, before + FileHits(fold, needle, w, k), before + FileHits(fold, needle, w, k) + rest)
  {
    var file := Lookup(w, w.names[k]);
    if file.Readable? {
      o := SearchLines(fold, needle, w.names[k], file.lines, before, rest);
    } else {
      assert before + [] == before;
      o := More(before);
    }
  }

  /** `search` */
  method SearchWorkspace(fold: string -> string, query: string, w: Workspace) returns (r: Result<seq<Citation>>)
    ensures r == Found(fold, query, w)
  {
    var needle := Strip(fold(query));
    if needle == [] || |needle| > MAX_NEEDLE {
      return Err;
    }
    var o := More([]);
    ghost var all := AllHits(fold, needle, w, 0);
    var i := 0;
    assert [] + all == all;
    while i < |w.names| && o.More?
      invariant i <= |w.names|
      invariant o.More? ==> |o.hits| < MAX_SEARCH_HITS && AllShort(o.hits)
      invariant o.More? ==> o.hits + AllHits(fold, needle, w, i) == all
      invariant o.Done? ==> o.answer == Capped(all)
    {
      ghost var later := AllHits(fold, needle, w, i + 1);
      Regroup(o.hits, FileHits(fold, needle, w, i), later);
      o := SearchFile(fold, needle, w, i, o.hits, later);
      i := i + 1;
    }
    if o.More? {
      assert o.hits + [] == o.hits;
      return Ok(o.hits);
    }
    return o.answer;
  }

  // ----- Where the hits stand -----

  /** Line `i` of the file at `f` matches. */
  predicate Matches(fold: string -> string, needle: string, w: Workspace, f: nat, i: nat) {
    && f < |w.names| && Lookup(w, w.names[f]).Readable? && i < |Lookup(w, w.names[f]).lines|
    && Contains(fold(Lookup(w, w.names[f]).lines[i]), needle)
  }

  /** The citation of a line: its file, its number from one, and its first 2000 characters. */
  predicate Cites(w: Workspace, c: Citation, f: nat, i: nat) {
    && f < |w.names| && Lookup(w, w.names[f]).Readable? && i < |Lookup(w, w.names[f]).lines|
    && var text := Lookup(w, w.names[f]).lines[i];
    c == Citation(w.names[f], i + 1, Some(if |text| > 2000 then text[..2000] else text))
  }

  predicate Before(a: (nat, nat), b: (nat, nat)) {
    a.0 < b.0 || (a.0 == b.0 && a.1 < b.1)
  }

  /** The places are in walk order, and the citation at each number is that of the place. */
  predicate Lists(w: Workspace, places: seq<(nat, nat)>, hits: seq<Citation>) {
    && |places| == |hits|
    && (forall j, k | 0 <= j < k < |places| :: Before(places[j], places[k]))
    && (forall j | 0 <= j < |places| :: Cites(w, hits[j], places[j].0, places[j].1))
  }

  lemma ListsCons(w: Workspace, p: (nat, nat), c: Citation, places: seq<(nat, nat)>, hits: seq<Citation>)
    requires Lists(w, places, hits) && Cites(w, c, p.0, p.1) && forall q | q in places :: Before(p, q)
    ensures Lists(w, [p] + places, [c] + hits)
  {
    forall j | 0 <= j < |places|
      ensures Before(p, places[j])
    {
      assert places[j] in places;
    }
  }

  /** The places are those of the matching lines of one file from `from` on. */
  ghost predicate Covers(
    fold: string -> string, needle: string, w: Workspace, f: nat, from: nat, places: seq<(nat, nat)>)
  {
    && (forall p | p in places :: p.0 == f && p.1 >= from && Matches(fold, needle, w, p.0, p.1))
    && (forall i: nat | i >= from && Matches(fold, needle, w, f, i) :: (f, i) in places)
  }

  lemma CoversLine(
    fold: string -> string, needle: string, w: Workspace, f: nat, from: nat, places: seq<(nat, nat)>)
    requires Covers(fold, needle, w, f, from + 1, places)
    ensures Covers(fold, needle, w, f, from,
                   if Matches(fold, needle, w, f, from) then [(f, from)] + places else places)
  {
  }

  lemma {:induction false} LinePlaces(
    fold: string -> string, needle: string, w: Workspace, f: nat, lines: seq<string>, from: nat)
    returns (places: seq<(nat, nat)>)
    requires f < |w.names| && Lookup(w, w.names[f]) == Readable(lines) && from <= |lines|
    ensures Lists(w, places, LineHits(fold, needle, w.names[f], lines, from))
    ensures Covers(fold, needle, w, f, from, places)
    decreases |lines| - from
  {
    if from == |lines| {
      places := [];
    } else {
      var hits := LineHits(fold, needle, w.names[f], lines, from + 1);
      var later := LinePlaces(fold, needle, w, f, lines, from + 1);
      CoversLine(fold, needle, w, f, from, later);
      if Contains(fold(lines[from]), needle) {
        ListsCons(w, (f, from), Cite(w.names[f], from + 1, lines[from]), later, hits);
        places := [(f, from)] + later;
      } else {
        assert [] + hits == hits;
        places := later;
      }
    }
  }

  lemma ListsAppend(
    w: Workspace, a: seq<(nat, nat)>, x: seq<Citation>, b: seq<(nat, nat)>, y: seq<Citation>, f: nat)
    requires Lists(w, a, x) && Lists(w, b, y)
    requires (forall p | p in a :: p.0 == f) && (forall p | p in b :: p.0 > f)
    ensures Lists(w, a + b, x + y)
  {
    var places := a + b;
    forall j, k | 0 <= j < k < |places|
      ensures Before(places[j], places[k])
    {
      assert j < |a| ==> a[j] in a;
      assert k >= |a| ==> b[k - |a|] in b;
    }
  }

  /** Every hit is listed once, in walk order, and every listed line is a hit. */
  lemma {:induction false} AllPlaces(fold: string -> string, needle: string, w: Workspace, from: nat)
    returns (places: seq<(nat, nat)>)
    requires from <= |w.names|
    ensures Lists(w, places, AllHits(fold, needle, w, from))
    ensures forall p | p in places :: p.0 >= from && Matches(fold, needle, w, p.0, p.1)
    ensures forall f: nat, i: nat | f >= from && Matches(fold, needle, w, f, i) :: (f, i) in places
    decreases |w.names| - from
  {
    if from == |w.names| {
      places := [];
    } else {
      var here := [];
      if Lookup(w, w.names[from]).Readable? {
        here := LinePlaces(fold, needle, w, from, Lookup(w, w.names[from]).lines, 0);
      }
      var later := AllPlaces(fold, needle, w, from + 1);
      ListsAppend(w, here, FileHits(fold, needle, w, from), later, AllHits(fold, needle, w, from + 1), from);
      places := here + later;
    }
  }

  /** What a search returns: the first 128 matching lines in walk order, if its stripped and folded query has between
      one and 256 characters and no path among them has more than 1024. */
  lemma FoundIs(fold: string -> string, query: string, w: Workspace) returns (places: seq<(nat, nat)>)
    ensures Lists(w, places, AllHits(fold, Strip(fold(query)), w, 0))
    ensures forall p | p in places :: Matches(fold, Strip(fold(query)), w, p.0, p.1)
    ensures forall f: nat, i: nat | Matches(fold, Strip(fold(query)), w, f, i) :: (f, i) in places
    ensures var hits := AllHits(fold, Strip(fold(query)), w, 0);
            var first := if |hits| > 128 then hits[..128] else hits;
            Found(fold, query, w) ==
            if 1 <= |Strip(fold(query))| <= 256 && forall c | c in first :: |c.path| <= 1024 then Ok(first) else Err
  {
    places := AllPlaces(fold, Strip(fold(query)), w, 0);
  }

  // ----- Stripping -----

  predicate Blank(s: string) {
    forall i | 0 <= i < |s| :: Space(s[i])
  }

  lemma {:induction false} TrimLeftSplits(s: string) returns (k: nat)
    ensures k <= |s| && Blank(s[..k]) && TrimLeft(s) == s[k..] && (k < |s| ==> !Space(s[k]))
  {
    if s != [] && Space(s[0]) {
      k := TrimLeftSplits(s[1..]);
      k := k + 1;
      assert s[1..][k - 1..] == s[k..] && s[..k] == [s[0]] + s[1..][..k - 1];
    } else {
      k := 0;
    }
  }

  lemma BlankAppend(a: string, c: char)
    requires Blank(a) && Space(c)
    ensures Blank(a + [c])
  {
  }

  lemma {:induction false} TrimRightSplits(s: string)
    ensures TrimRight(s) <= s && Blank(s[|TrimRight(s)|..])
    ensures TrimRight(s) != [] ==> !Space(TrimRight(s)[|TrimRight(s)| - 1])
  {
    if s != [] && Space(s[|s| - 1]) {
      var rest, last, k := s[..|s| - 1], s[|s| - 1], |TrimRight(s)|;
      TrimRightSplits(rest);
      BlankAppend(rest[k..], last);
      assert s[k..] == rest[k..] + [last];
    } else {
      assert s[|s|..] == [];
    }
  }

  /** Stripping takes blanks off both ends, as many as there are. */
  lemma StripSplits(s: string) returns (before: string, after: string)
    ensures s == before + Strip(s) + after && Blank(before) && Blank(after)
    ensures Strip(s) != [] ==> !Space(Strip(s)[0]) && !Space(Strip(s)[|Strip(s)| - 1])
  {
    var k := TrimLeftSplits(s);
    TrimRightSplits(TrimLeft(s));
    before, after := s[..k], TrimLeft(s)[|Strip(s)|..];
  }

  /** The blanks of `strip`, by code points. */
  lemma SpaceIff(c: char)
    ensures Space(c) <==>
            var n := c as int;
            || 9 <= n <= 13 || 28 <= n <= 32 || 0x2000 <= n <= 0x200A
            || n in {0x85, 0xA0, 0x1680, 0x2028, 0x2029, 0x202F, 0x205F, 0x3000}
  {
  }

  // ----- Every hit validates, and none is missed -----

  /** A stripped excerpt of a line is part of that line. */
  lemma ExcerptIsPart(text: string, n: nat)
    ensures Contains(text, Strip(Take(text, n)))
  {
    var taken := Take(text, n);
    var before, after := StripSplits(taken);
    assert text == taken + text[|taken|..];
    assert Strip(taken) <= text[|before|..];
  }

  /** Every citation a search returns passes validation on the same workspace. */
  lemma FoundIsValid(fold: string -> string, query: string, w: Workspace, c: Citation)
    requires Found(fold, query, w).Ok? && c in Found(fold, query, w).value
    ensures Valid(w, c)
  {
    var places := FoundIs(fold, query, w);
    var j :| 0 <= j < |Found(fold, query, w).value| && Found(fold, query, w).value[j] == c;
    assert Cites(w, c, places[j].0, places[j].1);
    ExcerptIsPart(Lookup(w, c.path).lines[c.line - 1], MAX_EXCERPT);
  }

  /** A search that stayed below its cap cites every matching line of every readable file. */
  lemma FoundIsComplete(fold: string -> string, query: string, w: Workspace, f: nat, i: nat)
    requires Found(fold, query, w).Ok? && |Found(fold, query, w).value| < 128
    requires f < |w.names| && Lookup(w, w.names[f]).Readable? && i < |Lookup(w, w.names[f]).lines|
    requires Contains(fold(Lookup(w, w.names[f]).lines[i]), Strip(fold(query)))
    ensures exists c | c in Found(fold, query, w).value :: Cites(w, c, f, i)
  {
    var places := FoundIs(fold, query, w);
    assert Matches(fold, Strip(fold(query)), w, f, i);
    var j :| 0 <= j < |places| && places[j] == (f, i);
    assert Cites(w, Found(fold, query, w).value[j], f, i);
  }
}
