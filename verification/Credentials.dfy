/** The credential pattern of `audit.py`, its substitution, and the truncation that follows it. */
module Credentials {
  import opened Wrappers

  const MAX_VALUE_CHARS := 500
  const REDACTED := "[redacted]"
  const ELLIPSIS: char := '\U{2026}'

  /** The characters of a token part. */
  predicate Word(c: char) {
    'A' <= c <= 'Z' || 'a' <= c <= 'z' || '0' <= c <= '9' || c == '_' || c == '-'
  }

  /** Characters any match is made of. */
  predicate Inside(c: char) {
    Word(c) || c == '.'
  }

  /** Where the run of word characters that starts at `i` ends. */
  function RunEnd(s: string, i: nat): (e: nat)
    requires i <= |s|
    ensures i <= e <= |s|
    decreases |s| - i
  {
    if i == |s| || !Word(s[i]) then i else RunEnd(s, i + 1)
  }

  /** `coire_`, twelve word characters, `_`, and twenty or more. */
  function KeyLength(s: string): (n: Option<nat>)
    ensures n.Some? ==> 0 < n.value <= |s|
  {
    if "coire_" <= s && |s| > 18 && RunEnd(s, 6) >= 18 && s[18] == '_' && RunEnd(s, 19) >= 39
    then Some(RunEnd(s, 19)) else None
  }

  /** Where dotted runs of word characters end that start at `i`, each at least as long as its minimum. */
  function DottedEnd(s: string, i: nat, minima: seq<nat>): (e: Option<nat>)
    requires i <= |s|
    ensures e.Some? ==> i <= e.value <= |s|
    decreases |minima|
  {
    if minima == [] then None else
    var r := RunEnd(s, i);
    if r < i + minima[0] then None
    else if |minima| == 1 then Some(r)
    else if r == |s| || s[r] != '.' then None
    else DottedEnd(s, r + 1, minima[1..])
  }

  /** `eyJ` and three dotted parts of at least twenty, ten and ten word characters. */
  function JwtLength(s: string): (n: Option<nat>)
    ensures n.Some? ==> 0 < n.value <= |s|
  {
    if "eyJ" <= s then DottedEnd(s, 3, [20, 10, 10]) else None
  }

  /** The match of the pattern at the start of `s`; the runs are greedy and nothing makes them backtrack. */
  function Match(s: string): (n: Option<nat>)
    ensures n.Some? ==> 0 < n.value <= |s|
  {
    if KeyLength(s).Some? then KeyLength(s) else JwtLength(s)
  }

  /** `sub`: every match, from the left, becomes the mark. */
  function Substitute(s: string): string
    decreases |s|
  {
    if s == [] then []
    else if Match(s).Some? then REDACTED + Substitute(s[Match(s).value..])
    else [s[0]] + Substitute(s[1..])
  }

  /** `_safe_string` */
  function Safe(s: string): string {
    var redacted := Substitute(s);
    if |redacted| > MAX_VALUE_CHARS then redacted[..MAX_VALUE_CHARS] + [ELLIPSIS] else redacted
  }

  /** Nothing in `s` looks like a credential. */
  ghost predicate Free(s: string) {
    forall i: nat | i < |s| :: Match(s[i..]).None?
  }

  // ----- Matches -----

  lemma {:induction false} RunIsWords(s: string, i: nat, k: nat)
    requires i <= k < |s| && k < RunEnd(s, i)
    ensures Word(s[k])
    decreases |s| - i
  {
    if i < k {
      RunIsWords(s, i + 1, k);
    }
  }

  lemma KeyIsInside(s: string, k: nat)
    requires KeyLength(s).Some? && k < KeyLength(s).value
    ensures Inside(s[k])
  {
    if k < 6 {
      assert s[k] == "coire_"[k];
    } else if k < 18 {
      RunIsWords(s, 6, k);
    } else if k > 18 {
      RunIsWords(s, 19, k);
    }
  }

  lemma {:induction false} DottedIsInside(s: string, i: nat, minima: seq<nat>, k: nat)
    requires i <= |s| && DottedEnd(s, i, minima).Some? && i <= k < DottedEnd(s, i, minima).value
    ensures Inside(s[k])
    decreases |minima|
  {
    var r := RunEnd(s, i);
    if k < r {
      RunIsWords(s, i, k);
    } else if k > r {
      DottedIsInside(s, r + 1, minima[1..], k);
    }
  }

  /** A match is made of inside characters only. */
  lemma MatchIsInside(s: string, k: nat)
    requires Match(s).Some? && k < Match(s).value
    ensures Inside(s[k])
  {
    if KeyLength(s).Some? {
      KeyIsInside(s, k);
    } else if k < 3 {
      assert s[k] == "eyJ"[k];
    } else {
      DottedIsInside(s, 3, [20, 10, 10], k);
    }
  }

  /** The two strings start with the same `n` characters. */
  predicate Agree(s: string, t: string, n: nat) {
    n <= |s| && n <= |t| && forall k | 0 <= k < n :: s[k] == t[k]
  }

  /** A run goes as far in a string that agrees up to its end, and no further when the next character agrees too. */
  lemma {:induction false} RunTransfers(s: string, t: string, i: nat)
    requires i <= |s| && Agree(s, t, RunEnd(s, i))
    ensures RunEnd(t, i) >= RunEnd(s, i)
    ensures RunEnd(s, i) < |s| && Agree(s, t, RunEnd(s, i) + 1) ==> RunEnd(t, i) == RunEnd(s, i)
    decreases |s| - i
  {
    if i < RunEnd(s, i) {
      RunTransfers(s, t, i + 1);
    }
  }

  lemma KeyTransfers(s: string, t: string)
    requires KeyLength(s).Some? && Agree(s, t, KeyLength(s).value)
    ensures KeyLength(t).Some?
  {
    RunTransfers(s, t, 19);
    assert "coire_" <= t;
    FirstWordsTransfer(s, t, 6, 18);
  }

  lemma {:induction false} FirstWordsTransfer(s: string, t: string, i: nat, m: nat)
    requires i <= |s| && i <= m <= RunEnd(s, i) && Agree(s, t, m)
    ensures RunEnd(t, i) >= m
    decreases m - i
  {
    if i < m {
      FirstWordsTransfer(s, t, i + 1, m);
    }
  }

  lemma {:induction false} DottedTransfers(s: string, t: string, i: nat, minima: seq<nat>)
    requires i <= |s| && DottedEnd(s, i, minima).Some? && Agree(s, t, DottedEnd(s, i, minima).value)
    ensures DottedEnd(t, i, minima).Some?
    decreases |minima|
  {
    RunTransfers(s, t, i);
    if |minima| > 1 {
      DottedTransfers(s, t, RunEnd(s, i) + 1, minima[1..]);
    }
  }

  /** A match of one string is a match of every string that shares the matched text. */
  lemma MatchTransfers(s: string, t: string)
    requires Match(s).Some? && Agree(s, t, Match(s).value)
    ensures Match(t).Some?
  {
    if KeyLength(s).Some? {
      KeyTransfers(s, t);
    } else {
      assert "eyJ" <= t;
      DottedTransfers(s, t, 3, [20, 10, 10]);
    }
  }

  lemma NotInMatch(s: string, c: char)
    requires Match(s).Some? && !Inside(c)
    ensures forall k | 0 <= k < Match(s).value :: s[k] != c
  {
    forall k: nat | k < Match(s).value
      ensures s[k] != c
    {
      MatchIsInside(s, k);
    }
  }

  // ----- Substitution -----

  lemma SubstituteStep(s: string)
    requires s != [] && Substitute(s) != [] && Substitute(s)[0] != '['
    ensures Match(s).None? && Substitute(s) == [s[0]] + Substitute(s[1..])
  {
  }

  lemma {:induction false} SubstituteKeepsPrefix(s: string, n: nat)
    requires n <= |Substitute(s)| && forall k | 0 <= k < n :: Substitute(s)[k] != '['
    ensures Agree(Substitute(s), s, n)
    decreases |s|
  {
    if n > 0 {
      SubstituteStep(s);
      var out, rest := Substitute(s), Substitute(s[1..]);
      assert forall k | 0 <= k < n - 1 :: rest[k] == out[k + 1];
      SubstituteKeepsPrefix(s[1..], n - 1);
      AgreeCons(s[0], rest, s[1..], n - 1);
      assert [s[0]] + s[1..] == s;
    }
  }

  lemma AgreeCons(c: char, s: string, t: string, n: nat)
    requires Agree(s, t, n)
    ensures Agree([c] + s, [c] + t, n + 1)
  {
  }

  lemma MatchStarts(s: string)
    requires Match(s).Some?
    ensures |s| >= 2 && ((s[0] == 'c' && s[1] == 'o') || (s[0] == 'e' && s[1] == 'y'))
  {
    if "coire_" <= s {
      assert s[0] == "coire_"[0] && s[1] == "coire_"[1];
    } else {
      assert s[0] == "eyJ"[0] && s[1] == "eyJ"[1];
    }
  }

  /** No place in the mark starts like a credential, whatever comes after it. */
  lemma MarkStartsNothing(mark: string, i: nat)
    requires mark == REDACTED && i < |mark|
    ensures mark[i] in "ce" ==> i + 1 < |mark| && mark[i + 1] in "dt"
  {
  }

  lemma NoMatchInMark(mark: string, rest: string, i: nat)
    requires mark == REDACTED && i < |mark|
    ensures Match((mark + rest)[i..]).None?
  {
    var t := (mark + rest)[i..];
    MarkStartsNothing(mark, i);
    assert t[0] == mark[i];
    assert i + 1 < |mark| ==> t[1] == mark[i + 1];
    if Match(t).Some? {
      MatchStarts(t);
    }
  }

  /** Substitution leaves nothing that looks like a credential: no match survives and none is created. */
  lemma {:induction false} SubstituteIsFree(s: string)
    ensures Free(Substitute(s))
    decreases |s|
  {
    if s != [] {
      var out := Substitute(s);
      var n := if Match(s).Some? then Match(s).value else 1;
      var head := if Match(s).Some? then REDACTED else [s[0]];
      var rest := Substitute(s[n..]);
      SubstituteIsFree(s[n..]);
      assert out == head + rest;
      forall i: nat | i < |out|
        ensures Match(out[i..]).None?
      {
        if i >= |head| {
          assert out[i..] == rest[i - |head|..];
        } else if Match(s).Some? {
          NoMatchInMark(head, rest, i);
        } else {
          assert out[i..] == out;
          NoNewMatch(s);
        }
      }
    }
  }

  lemma NoNewMatch(s: string)
    requires s != [] && Match(s).None?
    ensures Match(Substitute(s)).None?
  {
    var out := Substitute(s);
    if Match(out).Some? {
      var n := Match(out).value;
      NotInMatch(out, '[');
      SubstituteKeepsPrefix(s, n);
      MatchTransfers(out, s);
    }
  }

  lemma {:induction false} SubstituteFixesFree(s: string)
    requires Free(s)
    ensures Substitute(s) == s
    decreases |s|
  {
    if s != [] {
      assert s[0..] == s;
      assert Match(s[0..]).None?;
      forall i: nat | i < |s[1..]|
        ensures Match(s[1..][i..]).None?
      {
        assert s[1..][i..] == s[i + 1..];
      }
      SubstituteFixesFree(s[1..]);
    }
  }

  // ----- Truncation -----

  lemma NoMatchInPrefix(s: string, n: nat)
    requires Match(s).None? && n <= |s|
    ensures Match(s[..n]).None?
  {
    if Match(s[..n]).Some? {
      MatchTransfers(s[..n], s);
    }
  }

  lemma NoMatchBeforeOutsider(s: string, x: char)
    requires Match(s).None? && !Inside(x)
    ensures Match(s + [x]).None?
  {
    var t := s + [x];
    if Match(t).Some? {
      NotInMatch(t, x);
      assert t[|s|] == x;
      assert Match(t).value <= |s|;
      MatchTransfers(t, s);
    }
  }

  lemma FreePrefix(s: string, n: nat)
    requires Free(s) && n <= |s|
    ensures Free(s[..n])
  {
    forall i: nat | i < n
      ensures Match(s[..n][i..]).None?
    {
      NoMatchInPrefix(s[i..], n - i);
      assert s[..n][i..] == s[i..][..n - i];
    }
  }

  lemma FreeEllipsis(s: string)
    requires Free(s)
    ensures Free(s + [ELLIPSIS])
  {
    forall i: nat | i < |s| + 1
      ensures Match((s + [ELLIPSIS])[i..]).None?
    {
      assert (s + [ELLIPSIS])[i..] == s[i..] + [ELLIPSIS];
      NoMatchBeforeOutsider(s[i..], ELLIPSIS);
    }
  }

  /** A safe string holds nothing that looks like a credential. */
  lemma SafeIsFree(s: string)
    ensures Free(Safe(s))
  {
    SubstituteIsFree(s);
    if |Substitute(s)| > MAX_VALUE_CHARS {
      FreePrefix(Substitute(s), MAX_VALUE_CHARS);
      FreeEllipsis(Substitute(s)[..MAX_VALUE_CHARS]);
    }
  }

  /** Making a safe string safe again changes nothing. */
  lemma SafeIsIdempotent(s: string)
    ensures Safe(Safe(s)) == Safe(s)
  {
    SafeIsFree(s);
    SubstituteFixesFree(Safe(s));
    if |Substitute(s)| > MAX_VALUE_CHARS {
      assert Safe(s)[..MAX_VALUE_CHARS] == Substitute(s)[..MAX_VALUE_CHARS];
    }
  }

  // ----- The pattern and its substitution, said independently -----

  /** The character class of the pattern, by code points. */
  lemma WordIff(c: char)
    ensures Word(c) <==> c in "_-" || 48 <= c as int < 58 || 65 <= c as int < 91 || 97 <= c as int < 123
  {
  }

  predicate Words(s: string, from: nat, to: nat) {
    from <= to <= |s| && forall k | from <= k < to :: Word(s[k])
  }

  /** The run of word characters that begins at `from` ends at `to`. */
  predicate Run(s: string, from: nat, to: nat) {
    Words(s, from, to) && (to < |s| ==> !Word(s[to]))
  }

  /** An API key of length `n` at the start of the text. */
  predicate KeyAt(s: string, n: nat) {
    && 39 <= n <= |s| && s[..6] == "coire_" && Words(s, 6, 18) && s[18] == '_' && Run(s, 19, n)
  }

  /** A web token of length `n` at the start of the text, with its dots at `a` and `b`. */
  predicate TokenAt(s: string, a: nat, b: nat, n: nat) {
    && 23 <= a && a + 11 <= b && b + 11 <= n <= |s| && s[..3] == "eyJ"
    && Run(s, 3, a) && s[a] == '.' && Run(s, a + 1, b) && s[b] == '.' && Run(s, b + 1, n)
  }

  lemma {:induction false} RunIff(s: string, i: nat, e: nat)
    requires i <= |s|
    ensures Run(s, i, e) <==> e == RunEnd(s, i)
    decreases |s| - i
  {
    if i < |s| && Word(s[i]) {
      RunIff(s, i + 1, e);
      assert Run(s, i, e) ==> e != i;
    }
  }

  lemma WordsIff(s: string, i: nat, m: nat)
    requires i <= m <= |s|
    ensures Words(s, i, m) <==> RunEnd(s, i) >= m
  {
    RunIff(s, i, RunEnd(s, i));
  }

  /** The pattern matches at the start of a text, with this length, exactly when a key or a web token stands there. */
  lemma MatchIff(s: string, n: nat)
    ensures Match(s) == Some(n) <==> KeyAt(s, n) || exists a, b :: TokenAt(s, a, b, n)
  {
    KeyIff(s, n);
    TokenIff(s, n);
    assert KeyLength(s).Some? ==> s[0] == "coire_"[0];
    assert JwtLength(s).Some? ==> s[0] == "eyJ"[0];
  }

  lemma KeyIff(s: string, n: nat)
    ensures KeyLength(s) == Some(n) <==> KeyAt(s, n)
  {
    if |s| > 18 {
      WordsIff(s, 6, 18);
      RunIff(s, 19, n);
      assert "coire_" <= s <==> s[..6] == "coire_";
    }
  }

  /** The three dotted runs, one after the other. */
  lemma ThreeRuns(s: string, minima: seq<nat>)
    requires |s| >= 3 && minima == [20, 10, 10]
    ensures var a := RunEnd(s, 3);
            DottedEnd(s, 3, minima) ==
            if a < 23 || a == |s| || s[a] != '.' then None else
            var b := RunEnd(s, a + 1);
            if b < a + 11 || b == |s| || s[b] != '.' || RunEnd(s, b + 1) < b + 11 then None else Some(RunEnd(s, b + 1))
  {
    var a, two, one := RunEnd(s, 3), [10, 10], [10];
    assert minima[1..] == two && two[1..] == one;
    if a < |s| {
      var b := RunEnd(s, a + 1);
      if b < |s| {
        assert DottedEnd(s, b + 1, one) == if RunEnd(s, b + 1) < b + 11 then None else Some(RunEnd(s, b + 1));
      }
      assert DottedEnd(s, a + 1, two) ==
             if b < a + 11 || b == |s| || s[b] != '.' then None else DottedEnd(s, b + 1, one);
    }
  }

  lemma TokenRuns(s: string, a: nat, b: nat, n: nat)
    requires TokenAt(s, a, b, n)
    ensures a == RunEnd(s, 3) && b == RunEnd(s, a + 1) && n == RunEnd(s, b + 1)
  {
    RunIff(s, 3, a);
    RunIff(s, a + 1, b);
    RunIff(s, b + 1, n);
  }

  lemma TokenIsRead(s: string, a: nat, b: nat, n: nat)
    requires TokenAt(s, a, b, n)
    ensures JwtLength(s) == Some(n)
  {
    assert "eyJ" <= s;
    ThreeRuns(s, [20, 10, 10]);
    TokenRuns(s, a, b, n);
  }

  lemma ReadIsToken(s: string) returns (a: nat, b: nat)
    requires JwtLength(s).Some?
    ensures TokenAt(s, a, b, JwtLength(s).value)
  {
    ThreeRuns(s, [20, 10, 10]);
    a := RunEnd(s, 3);
    b := RunEnd(s, a + 1);
    RunIff(s, 3, a);
    RunIff(s, a + 1, b);
    RunIff(s, b + 1, RunEnd(s, b + 1));
  }

  lemma TokenIff(s: string, n: nat)
    ensures JwtLength(s) == Some(n) <==> exists a, b :: TokenAt(s, a, b, n)
  {
    if JwtLength(s) == Some(n) {
      var a, b := ReadIsToken(s);
    }
    forall a, b | TokenAt(s, a, b, n)
      ensures JwtLength(s) == Some(n)
    {
      TokenIsRead(s, a, b, n);
    }
  }

  /** A credential of length `n` begins at `i`. */
  ghost predicate CredentialAt(s: string, i: nat, n: nat) {
    i <= |s| && (KeyAt(s[i..], n) || exists a, b :: TokenAt(s[i..], a, b, n))
  }

  predicate MatchesAt(s: string, i: nat, n: nat) {
    i <= |s| && Match(s[i..]) == Some(n)
  }

  predicate NoMatchAt(s: string, i: nat) {
    i <= |s| && Match(s[i..]).None?
  }

  /** The first match begins at `i` and has length `n`. */
  ghost predicate FirstMatch(s: string, i: nat, n: nat) {
    MatchesAt(s, i, n) && forall j: nat | j < i :: NoMatchAt(s, j)
  }

  lemma MarksFirst(s: string, n: nat, mark: string)
    requires s != [] && Match(s) == Some(n) && mark == REDACTED
    ensures n <= |s| && Substitute(s) == mark + Substitute(s[n..])
  {
  }

  lemma KeepsFirst(s: string)
    requires s != [] && Match(s).None?
    ensures Substitute(s) == [s[0]] + Substitute(s[1..])
  {
  }

  lemma SubstituteStart(s: string, i: nat, n: nat, mark: string)
    requires MatchesAt(s, i, n) && mark == REDACTED
    ensures i + n <= |s| && Substitute(s[i..]) == s[i..i] + mark + Substitute(s[i + n..])
  {
    MarksFirst(s[i..], n, mark);
    assert s[i..][n..] == s[i + n..] && s[i..i] + mark == mark;
  }

  lemma SubstituteEarlier(s: string, j: nat, i: nat, mark: string, tail: string)
    requires NoMatchAt(s, j) && j < i <= |s| && Substitute(s[j + 1..]) == s[j + 1..i] + mark + tail
    ensures Substitute(s[j..]) == s[j..i] + mark + tail
  {
    KeepsFirst(s[j..]);
    assert s[j..][1..] == s[j + 1..] && s[j..i] == [s[j]] + s[j + 1..i];
    Regroup([s[j]], s[j + 1..i], mark, tail);
  }

  lemma Regroup(a: string, b: string, c: string, d: string)
    ensures a + (b + c + d) == a + b + c + d
  {
  }

  lemma {:induction false} SubstituteFrom(s: string, j: nat, i: nat, n: nat, mark: string)
    requires FirstMatch(s, i, n) && j <= i && mark == REDACTED
    ensures i + n <= |s| && Substitute(s[j..]) == s[j..i] + mark + Substitute(s[i + n..])
    decreases i - j
  {
    if j == i {
      SubstituteStart(s, i, n, mark);
    } else {
      assert NoMatchAt(s, j);
      SubstituteFrom(s, j + 1, i, n, mark);
      SubstituteEarlier(s, j, i, mark, Substitute(s[i + n..]));
    }
  }

  /** The text before the first credential is kept, that credential becomes the mark, and so on behind it. */
  lemma SubstituteFirst(s: string, i: nat, n: nat)
    requires CredentialAt(s, i, n) && forall j: nat, m: nat | j < i :: !CredentialAt(s, j, m)
    ensures i + n <= |s| && Substitute(s) == s[..i] + "[redacted]" + Substitute(s[i + n..])
  {
    MatchIff(s[i..], n);
    forall j: nat | j < i
      ensures NoMatchAt(s, j)
    {
      NoneAt(s, j);
    }
    SubstituteFrom(s, 0, i, n, REDACTED);
    assert s[0..] == s && s[0..i] == s[..i];
  }

  lemma NoneAt(s: string, i: nat)
    requires i <= |s| && forall n: nat :: !CredentialAt(s, i, n)
    ensures NoMatchAt(s, i)
  {
    if Match(s[i..]).Some? {
      MatchIff(s[i..], Match(s[i..]).value);
      assert CredentialAt(s, i, Match(s[i..]).value);
    }
  }

  /** Nothing looks like a credential exactly when none begins anywhere. */
  lemma FreeIff(s: string)
    ensures Free(s) <==> forall i: nat, n: nat | i < |s| :: !CredentialAt(s, i, n)
  {
    forall i: nat, n: nat | i < |s| && CredentialAt(s, i, n)
      ensures !Free(s)
    {
      MatchIff(s[i..], n);
    }
    if forall i: nat, n: nat | i < |s| :: !CredentialAt(s, i, n) {
      forall i: nat | i < |s|
        ensures Match(s[i..]).None?
      {
        NoneAt(s, i);
      }
    }
  }

  /** A safe string is the substituted one, cut after 500 characters with an ellipsis when it is longer. */
  lemma SafeIsCut(s: string)
    ensures |Substitute(s)| <= 500 ==> Safe(s) == Substitute(s)
    ensures |Substitute(s)| > 500 ==> Safe(s) == Substitute(s)[..500] + ['\U{2026}']
  {
  }
}
