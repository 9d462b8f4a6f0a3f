/** Links and `resolve(strict=True)`, as `activate-training-node.py` uses it on the `current` link. */
module Paths {
  import opened Wrappers

  type Path = seq<nat>

  /** One component of a link's text: a name, `..`, or one that stays where it is. */
  datatype Part = Name(name: nat) | Dots | Dot

  datatype Target = Target(absolute: bool, parts: seq<Part>)

  /** The links of a host, each at the place where it really lies. */
  type Links = map<Path, Target>

  function Parent(at: Path): Path {
    if at == [] then [] else at[..|at| - 1]
  }

  /** `realpath`: walks the parts from `at`, and follows every link on the way; `open` holds the links it is
      following, and meeting one of them again raises. */
  function Walk(links: Links, at: Path, parts: seq<Part>, open: set<Path>): Option<Path>
    requires open <= links.Keys
    decreases links.Keys - open, |parts|
  {
    if parts == [] then Some(at) else
    match parts[0]
    case Dot => Walk(links, at, parts[1..], open)
    case Dots => Walk(links, Parent(at), parts[1..], open)
    case Name(n) =>
      var next := at + [n];
      if next !in links then Walk(links, next, parts[1..], open)
      else if next in open then None
      else
        var end :- Walk(links, Base(links[next], at), links[next].parts, open + {next});
        Walk(links, end, parts[1..], open)
  }

  /** Where a link's text starts, for a link in the directory `at`. */
  function Base(text: Target, at: Path): Path {
    if text.absolute then [] else at
  }

  /** `resolve(strict=True)` of the link at `home + [name]`. */
  function Resolve(links: Links, home: Path, name: nat): Option<Path>
    requires home + [name] in links
  {
    var text := links[home + [name]];
    Walk(links, Base(text, home), text.parts, {home + [name]})
  }

  /** Neither the path nor a directory on the way to it is a link. */
  predicate Real(links: Links, path: Path) {
    forall n | 0 < n <= |path| :: path[..n] !in links
  }

  function Names(path: Path): (parts: seq<Part>)
    ensures |parts| == |path| && forall i | 0 <= i < |path| :: parts[i] == Name(path[i])
  {
    if path == [] then [] else [Name(path[0])] + Names(path[1..])
  }

  /** The text of a link made to a resolved path. */
  function Absolute(path: Path): Target {
    Target(true, Names(path))
  }

  lemma RealNext(links: Links, at: Path, n: nat)
    requires Real(links, at) && at + [n] !in links
    ensures Real(links, at + [n])
  {
    var next := at + [n];
    forall k | 0 < k <= |next|
      ensures next[..k] !in links
    {
      assert next[..k] == if k <= |at| then at[..k] else next;
    }
  }

  lemma RealParent(links: Links, at: Path)
    requires Real(links, at)
    ensures Real(links, Parent(at))
  {
    forall k | 0 < k <= |Parent(at)|
      ensures Parent(at)[..k] !in links
    {
      assert Parent(at)[..k] == at[..k];
    }
  }

  /** What a walk ends at is real. */
  lemma {:induction false} WalkIsReal(links: Links, at: Path, parts: seq<Part>, open: set<Path>)
    requires open <= links.Keys && Real(links, at)
    ensures Walk(links, at, parts, open).Some? ==> Real(links, Walk(links, at, parts, open).value)
    decreases links.Keys - open, |parts|
  {
    if parts != [] {
      match parts[0]
      case Dot => WalkIsReal(links, at, parts[1..], open);
      case Dots =>
        RealParent(links, at);
        WalkIsReal(links, Parent(at), parts[1..], open);
      case Name(n) =>
        var next := at + [n];
        if next !in links {
          RealNext(links, at, n);
          WalkIsReal(links, next, parts[1..], open);
        } else if next !in open {
          var end := Walk(links, Base(links[next], at), links[next].parts, open + {next});
          WalkIsReal(links, Base(links[next], at), links[next].parts, open + {next});
          if end.Some? {
            WalkIsReal(links, end.value, parts[1..], open);
          }
        }
    }
  }

  /** A real path is walked to itself. */
  lemma {:induction false} RealIsWalked(links: Links, at: Path, rest: Path, open: set<Path>)
    requires open <= links.Keys && Real(links, at + rest)
    ensures Walk(links, at, Names(rest), open) == Some(at + rest)
    decreases |rest|
  {
    if rest == [] {
      assert at + rest == at;
    } else {
      var next := at + [rest[0]];
      assert next == (at + rest)[..|at| + 1];
      assert next + rest[1..] == at + rest;
      assert Names(rest)[1..] == Names(rest[1..]);
      RealIsWalked(links, next, rest[1..], open);
    }
  }

  /** The text is an absolute path of names, and that path is real. */
  predicate NamesReal(links: Links, text: Target) {
    text.absolute && text == Absolute(PathOf(text.parts)) && Real(links, PathOf(text.parts))
  }

  /** The names among the parts. */
  function PathOf(parts: seq<Part>): Path {
    if parts == [] then [] else (if parts[0].Name? then [parts[0].name] else []) + PathOf(parts[1..])
  }

  lemma {:induction false} PathOfNames(path: Path)
    ensures PathOf(Names(path)) == path
  {
    if path != [] {
      PathOfNames(path[1..]);
      assert Names(path)[1..] == Names(path[1..]);
    }
  }

  /** A link's text is the text of a link to its resolved end exactly when it is an absolute path of names and
      neither that path nor a directory on the way to it is a link. */
  lemma NamesItsEndIff(links: Links, home: Path, name: nat)
    requires home + [name] in links && Real(links, home)
    ensures var end, text := Resolve(links, home, name), links[home + [name]];
            (end.Some? && text == Absolute(end.value)) <==> NamesReal(links, text)
  {
    var end, text, open := Resolve(links, home, name), links[home + [name]], {home + [name]};
    WalkIsReal(links, Base(text, home), text.parts, open);
    if end.Some? {
      PathOfNames(end.value);
    }
    if NamesReal(links, text) {
      assert [] + PathOf(text.parts) == PathOf(text.parts);
      RealIsWalked(links, [], PathOf(text.parts), open);
    }
  }

  // ----- Following links step by step -----

  /** One step of following a path with `todo` still to go: a link is replaced by its text. */
  function Next(links: Links, at: Path, todo: seq<Part>): (Path, seq<Part>)
    requires todo != []
  {
    match todo[0]
    case Dot => (at, todo[1..])
    case Dots => (if at == [] then [] else at[..|at| - 1], todo[1..])
    case Name(n) =>
      if at + [n] !in links then (at + [n], todo[1..])
      else if links[at + [n]].absolute then ([], links[at + [n]].parts + todo[1..])
      else (at, links[at + [n]].parts + todo[1..])
  }

  /** In `n` steps the path with `todo` to go becomes the path `end` with `left` to go. */
  predicate Leads(links: Links, at: Path, todo: seq<Part>, end: Path, left: seq<Part>, n: nat)
    decreases n
  {
    if n == 0 then at == end && todo == left
    else todo != [] && var (next, rest) := Next(links, at, todo); Leads(links, next, rest, end, left, n - 1)
  }

  lemma {:induction false} LeadsOn(
    links: Links, a: Path, x: seq<Part>, b: Path, y: seq<Part>, c: Path, z: seq<Part>, n: nat, m: nat)
    requires Leads(links, a, x, b, y, n) && Leads(links, b, y, c, z, m)
    ensures Leads(links, a, x, c, z, n + m)
    decreases n
  {
    if n > 0 {
      var (next, rest) := Next(links, a, x);
      LeadsOn(links, next, rest, b, y, c, z, n - 1, m);
    }
  }

  lemma OneStep(links: Links, at: Path, parts: seq<Part>, rest: seq<Part>, next: Path, todo: seq<Part>)
    requires parts != [] && (next, todo) == Next(links, at, parts + rest)
    ensures Leads(links, at, parts + rest, next, todo, 1)
  {
  }

  /** A walk ends where following the links step by step does, whatever is left to go behind it. */
  lemma {:induction false} WalkFollows(links: Links, at: Path, parts: seq<Part>, open: set<Path>, rest: seq<Part>)
    returns (n: nat)
    requires open <= links.Keys && Walk(links, at, parts, open).Some?
    ensures Leads(links, at, parts + rest, Walk(links, at, parts, open).value, rest, n)
    decreases links.Keys - open, |parts|
  {
    if parts == [] {
      assert parts + rest == rest;
      return 0;
    }
    var all, later, end := parts + rest, parts[1..] + rest, Walk(links, at, parts, open).value;
    assert all[1..] == later && all[0] == parts[0];
    var (next, todo) := Next(links, at, all);
    OneStep(links, at, parts, rest, next, todo);
    if parts[0].Name? && at + [parts[0].name] in links {
      var link := at + [parts[0].name];
      var k := WalkFollows(links, next, links[link].parts, open + {link}, later);
      var reached := Walk(links, next, links[link].parts, open + {link}).value;
      n := WalkFollows(links, reached, parts[1..], open, rest);
      LeadsOn(links, next, todo, reached, later, end, rest, k, n);
      n := k + n;
    } else {
      n := WalkFollows(links, next, parts[1..], open, rest);
    }
    LeadsOn(links, at, all, next, todo, end, rest, 1, n);
    n := 1 + n;
  }

  /** The resolved end of a link is where its text leads. */
  lemma ResolveFollows(links: Links, home: Path, name: nat) returns (n: nat)
    requires home + [name] in links && Resolve(links, home, name).Some?
    ensures Leads(links, home, [Name(name)], Resolve(links, home, name).value, [], n)
  {
    var text, link := links[home + [name]], [Name(name)];
    n := WalkFollows(links, Base(text, home), text.parts, {home + [name]}, []);
    assert link + [] == link && link[1..] == [];
    OneStep(links, home, link, [], Base(text, home), text.parts + []);
    LeadsOn(links, home, link, Base(text, home), text.parts + [], Resolve(links, home, name).value, [], 1, n);
    n := 1 + n;
  }

  // ----- Links that do not name their own end -----

  /** A link to a link. */
  lemma LinkToLink(links: Links, home: Path, first: Path, second: Path)
    requires home == [0] && first == [1] && second == [2]
    requires links == map[home + [9] := Absolute(first), first := Absolute(second)]
    ensures Resolve(links, home, 9) == Some(second)
  {
    OneLink(links, home, first, second, [Name(1)]);
    NamesOf(first, links[home + [9]].parts);
  }

  /** A path through a linked directory. */
  lemma LinkedDirectory(links: Links, home: Path, first: Path, second: Path)
    requires home == [0] && first == [1] && second == [2]
    requires links == map[home + [9] := Absolute(first + [5]), first := Absolute(second)]
    ensures Resolve(links, home, 9) == Some(second + [5])
  {
    var parts := links[home + [9]].parts;
    OneLink(links, home, first, second, parts);
    NamesOf(first + [5], parts);
    assert |second + [5]| == 2 && (second + [5])[0] == 2;
    StepInto(links, second, 5, parts[1..], {home + [9]});
  }

  /** A relative text. */
  lemma RelativeLink(links: Links, home: Path)
    requires home == [0] && links == map[home + [9] := Target(false, [Name(5)])]
    ensures Resolve(links, home, 9) == Some(home + [5])
  {
    assert (home + [9])[1] == 9 && (home + [5])[1] == 5;
    StepInto(links, home, 5, [Name(5)], {home + [9]});
  }

  /** The first part is a link to `second`. */
  lemma OneLink(links: Links, home: Path, first: Path, second: Path, parts: seq<Part>)
    requires home == [0] && first == [1] && second == [2] && parts != [] && parts[0] == Name(1)
    requires links.Keys == {home + [9], first} && links[first] == Absolute(second)
    ensures Walk(links, [], parts, {home + [9]}) == Walk(links, second, parts[1..], {home + [9]})
  {
    assert [] + [1] == first && [] + [2] == second && |home + [9]| == 2;
    NamesOf(second, links[first].parts);
    StepInto(links, [], 2, links[first].parts, {home + [9], first});
    assert {home + [9]} + {first} == {home + [9], first};
    StepOver(links, [], 1, parts, {home + [9]}, second);
  }

  lemma NamesOf(path: Path, parts: seq<Part>)
    requires parts == Names(path)
    ensures |path| == 1 ==> parts == [Name(path[0])]
    ensures |path| == 2 ==> parts == [Name(path[0]), Name(path[1])]
  {
  }

  lemma StepInto(links: Links, at: Path, n: nat, parts: seq<Part>, open: set<Path>)
    requires open <= links.Keys && parts == [Name(n)] && at + [n] !in links
    ensures Walk(links, at, parts, open) == Some(at + [n])
  {
  }

  lemma StepOver(links: Links, at: Path, n: nat, parts: seq<Part>, open: set<Path>, end: Path)
    requires open <= links.Keys && parts != [] && parts[0] == Name(n) && at + [n] in links && at + [n] !in open
    requires Walk(links, Base(links[at + [n]], at), links[at + [n]].parts, open + {at + [n]}) == Some(end)
    ensures Walk(links, at, parts, open) == Walk(links, end, parts[1..], open)
  {
  }
}
