/** The recursive redaction of audit detail in `audit.py`. */
module Redaction {
  import opened Wrappers
  import opened Credentials

  /** A detail value; `Other` is a number, a boolean or null. */
  datatype Value =
    | Text(text: string)
    | Object(fields: seq<Field>)
    | List(items: seq<Value>)
    | Tuple(members: seq<Value>)
    | Other(code: int)

  datatype Field = Field(key: string, value: Value)

  /** `lower` as far as the hints see it: the Kelvin sign is the only other character that becomes one of theirs. */
  function Lower(c: char): char {
    if 'A' <= c <= 'Z' then (c as int + 32) as char else if c == '\U{212A}' then 'k' else c
  }

  function LowerAll(s: string): string {
    if s == [] then [] else [Lower(s[0])] + LowerAll(s[1..])
  }

  predicate Contains(s: string, part: string) {
    part <= s || (s != [] && Contains(s[1..], part))
  }

  const HINTS := ["token", "secret", "password", "credential", "authorization", "bearer", "grant"]

  predicate HasHint(lower: string, i: nat)
    requires i < |HINTS|
  {
    Contains(lower, HINTS[i])
  }

  /** The key names a secret. */
  predicate Secret(key: string) {
    exists i: nat | i < |HINTS| :: HasHint(LowerAll(key), i)
  }

  /** What a value becomes under a key that names no secret. */
  function Plain(v: Value): Value
    decreases v, 0
  {
    match v
    case Text(text) => Text(Safe(text))
    case Object(fields) => Object(Redact(fields))
    case List(items) => List(Items(items))
    case _ => v
  }

  /** Strings and objects in a list go through the single field `{"value": item}`; other items are left alone. */
  function Items(items: seq<Value>): (r: seq<Value>)
    ensures |r| == |items|
    decreases items, 1
  {
    if items == [] then [] else [Item(items[0])] + Items(items[1..])
  }

  function Item(v: Value): Value
    decreases v, 1
  {
    if v.Text? || v.Object? then Plain(v) else v
  }

  function Redact(fields: seq<Field>): (r: seq<Field>)
    ensures |r| == |fields|
    ensures forall i | 0 <= i < |fields| :: r[i].key == fields[i].key
    decreases fields, 1
  {
    if fields == [] then [] else [RedactField(fields[0])] + Redact(fields[1..])
  }

  function RedactField(field: Field): Field
    decreases field, 2
  {
    Field(field.key, if Secret(field.key) then Text(REDACTED) else Plain(field.value))
  }

  lemma {:induction false} RedactAt(fields: seq<Field>, i: nat)
    requires i < |fields|
    ensures Redact(fields)[i] == RedactField(fields[i])
  {
    if i > 0 {
      RedactAt(fields[1..], i - 1);
    }
  }

  lemma {:induction false} ItemsAt(items: seq<Value>, i: nat)
    requires i < |items|
    ensures Items(items)[i] == Item(items[i])
  {
    if i > 0 {
      ItemsAt(items[1..], i - 1);
    }
  }

  lemma TakeNext<T>(s: seq<T>, i: nat)
    requires i < |s|
    ensures s[..i + 1] == s[..i] + [s[i]]
  {
  }

  /** `redact`, filling its output field by field. */
  method RedactDetail(detail: seq<Field>) returns (out: seq<Field>)
    ensures out == Redact(detail)
    decreases detail, 1
  {
    out := [];
    var i := 0;
    while i < |detail|
      invariant 0 <= i <= |detail|
      invariant out == Redact(detail)[..i]
    {
      var field := RedactNth(detail, i);
      TakeNext(Redact(detail), i);
      out := out + [field];
      i := i + 1;
    }
  }

  method RedactNth(detail: seq<Field>, i: nat) returns (r: Field)
    requires i < |detail|
    ensures r == Redact(detail)[i]
    decreases detail, 0
  {
    r := RedactOne(detail[i]);
    RedactAt(detail, i);
  }

  method RedactOne(field: Field) returns (r: Field)
    ensures r == RedactField(field)
    decreases field, 2
  {
    if Secret(field.key) {
      return Field(field.key, Text(REDACTED));
    }
    var value := RedactValue(field.value);
    return Field(field.key, value);
  }

  method RedactValue(v: Value) returns (r: Value)
    ensures r == Plain(v)
    decreases v, 0
  {
    match v
    case Text(text) => r := Text(Safe(text));
    case Object(fields) =>
      var inner := RedactDetail(fields);
      r := Object(inner);
    case List(items) =>
      var inner := RedactItems(items);
      r := List(inner);
    case _ => r := v;
  }

  method RedactItems(items: seq<Value>) returns (out: seq<Value>)
    ensures out == Items(items)
    decreases items, 1
  {
    out := [];
    var i := 0;
    while i < |items|
      invariant 0 <= i <= |items|
      invariant out == Items(items)[..i]
    {
      var item := RedactItem(items[i]);
      ItemsAt(items, i);
      TakeNext(Items(items), i);
      out := out + [item];
      i := i + 1;
    }
  }

  method RedactItem(v: Value) returns (r: Value)
    ensures r == Item(v)
    decreases v, 1
  {
    if v.Text? || v.Object? {
      r := RedactValue(v);
    } else {
      r := v;
    }
  }

  lemma HintsAreLong(i: nat)
    requires i < |HINTS|
    ensures |HINTS[i]| >= 5
  {
  }

  /** The key under which list items are redacted names no secret. */
  lemma ItemKeyIsPlain(key: string)
    requires key == "value"
    ensures !Secret(key)
  {
    LowerFixes(key);
    forall i: nat | i < |HINTS|
      ensures !HasHint(key, i)
    {
      HintsAreLong(i);
      assert key != HINTS[i];
      ShortContains(key, HINTS[i]);
    }
  }

  /** A text or an object in a list becomes what the single field with that key would. */
  lemma ItemIsField(key: string, v: Value)
    requires key == "value" && (v.Text? || v.Object?)
    ensures Redact([Field(key, v)]) == [Field(key, Item(v))]
  {
    ItemKeyIsPlain(key);
    assert [Field(key, v)][1..] == [];
  }

  lemma {:induction false} ShortContains(s: string, part: string)
    requires |part| >= |s| && s != part
    ensures !Contains(s, part)
  {
    if s != [] {
      ShorterContains(s[1..], part);
    }
  }

  lemma {:induction false} ShorterContains(s: string, part: string)
    requires |part| > |s|
    ensures !Contains(s, part)
  {
    if s != [] {
      ShorterContains(s[1..], part);
    }
  }

  // ----- Idempotence -----

  lemma {:induction false} PlainIsIdempotent(v: Value)
    ensures Plain(Plain(v)) == Plain(v)
    decreases v, 0
  {
    match v
    case Text(text) => SafeIsIdempotent(text);
    case Object(fields) => RedactIsIdempotent(fields);
    case List(items) => ItemsIsIdempotent(items);
    case _ =>
  }

  lemma {:induction false} ItemsIsIdempotent(items: seq<Value>)
    ensures Items(Items(items)) == Items(items)
    decreases items, 1
  {
    if items != [] {
      PlainIsIdempotent(items[0]);
      ItemsIsIdempotent(items[1..]);
      assert Items(items)[1..] == Items(items[1..]);
    }
  }

  /** Redacting what is redacted changes nothing. */
  lemma {:induction false} RedactIsIdempotent(fields: seq<Field>)
    ensures Redact(Redact(fields)) == Redact(fields)
    decreases fields, 1
  {
    if fields != [] {
      PlainIsIdempotent(fields[0].value);
      RedactIsIdempotent(fields[1..]);
      assert Redact(fields)[1..] == Redact(fields[1..]);
    }
  }

  // ----- What is left -----

  /** No key and no string in the value looks like a credential, and nothing is kept under a key that names a secret. */
  ghost predicate Clean(v: Value)
    decreases v, 0
  {
    match v
    case Text(text) => Free(text)
    case Object(fields) => CleanFields(fields)
    case List(items) => CleanItems(items)
    case Tuple(members) => CleanItems(members)
    case Other(_) => true
  }

  ghost predicate CleanItems(items: seq<Value>)
    decreases items, 1
  {
    items == [] || (Clean(items[0]) && CleanItems(items[1..]))
  }

  ghost predicate CleanFields(fields: seq<Field>)
    decreases fields, 1
  {
    fields == [] || (CleanField(fields[0]) && CleanFields(fields[1..]))
  }

  ghost predicate CleanField(field: Field)
    decreases field, 2
  {
    Free(field.key) && if Secret(field.key) then field.value == Text(REDACTED) else Clean(field.value)
  }

  /** What redaction does not touch is clean as it came: keys, tuples, and lists and tuples directly inside a list.
      What stands under a key that names a secret does not count. */
  ghost predicate UntouchedClean(v: Value)
    decreases v, 0
  {
    match v
    case Object(fields) => UntouchedCleanIn(fields)
    case List(items) => UntouchedCleanOf(items)
    case Tuple(_) => Clean(v)
    case _ => true
  }

  ghost predicate UntouchedCleanOf(items: seq<Value>)
    decreases items, 1
  {
    items == [] || (UntouchedCleanItem(items[0]) && UntouchedCleanOf(items[1..]))
  }

  ghost predicate UntouchedCleanItem(v: Value)
    decreases v, 1
  {
    if v.List? then Clean(v) else UntouchedClean(v)
  }

  ghost predicate UntouchedCleanIn(fields: seq<Field>)
    decreases fields, 1
  {
    fields == [] || (UntouchedCleanField(fields[0]) && UntouchedCleanIn(fields[1..]))
  }

  ghost predicate UntouchedCleanField(field: Field)
    decreases field, 2
  {
    Free(field.key) && (Secret(field.key) || UntouchedClean(field.value))
  }

  lemma {:induction false} PlainIsCleanIff(v: Value)
    ensures Clean(Plain(v)) <==> UntouchedClean(v)
    decreases v, 0
  {
    match v
    case Text(text) => SafeIsFree(text);
    case Object(fields) => RedactIsCleanIff(fields);
    case List(items) => ItemsAreCleanIff(items);
    case _ =>
  }

  lemma {:induction false} ItemsAreCleanIff(items: seq<Value>)
    ensures CleanItems(Items(items)) <==> UntouchedCleanOf(items)
    decreases items, 1
  {
    if items != [] {
      PlainIsCleanIff(items[0]);
      ItemsAreCleanIff(items[1..]);
      assert Items(items)[1..] == Items(items[1..]);
    }
  }

  /** Redacted detail is clean exactly when everything redaction does not touch was clean as it came. */
  lemma {:induction false} RedactIsCleanIff(fields: seq<Field>)
    ensures CleanFields(Redact(fields)) <==> UntouchedCleanIn(fields)
    decreases fields, 1
  {
    if fields != [] {
      PlainIsCleanIff(fields[0].value);
      RedactIsCleanIff(fields[1..]);
      assert Redact(fields)[1..] == Redact(fields[1..]);
    }
  }

  // ----- Inputs that show each part of the condition is needed -----

  lemma RedactOneField(field: Field)
    ensures Redact([field]) == [RedactField(field)] && (CleanFields([field]) <==> CleanField(field))
  {
    assert [field][1..] == [];
  }

  lemma OneItem(v: Value)
    ensures Items([v]) == [Item(v)] && (CleanItems([v]) <==> Clean(v))
  {
    assert [v][1..] == [];
  }

  /** A value that holds a secret. */
  function Leak(): Value {
    Object([Field("token", Text("x"))])
  }

  lemma LeakIsNotClean(v: Value)
    requires v == Leak()
    ensures !Clean(v)
  {
    TokenIsSecret(v.fields[0].key);
    RedactOneField(v.fields[0]);
  }

  /** A list directly inside a list comes through unchanged, whatever it holds. */
  lemma InnerListEscapes(key: string, leak: Value)
    requires key == "a" && leak == Leak()
    ensures var detail := [Field(key, List([List([leak])]))];
            Redact(detail) == detail && !CleanFields(detail)
  {
    LetterIsPlain(key);
    LeakIsNotClean(leak);
    OneItem(leak);
    OneItem(List([leak]));
    RedactOneField(Field(key, List([List([leak])])));
  }

  /** So does a tuple. */
  lemma TupleEscapes(key: string, leak: Value)
    requires key == "a" && leak == Leak()
    ensures var detail := [Field(key, Tuple([leak]))];
            Redact(detail) == detail && !CleanFields(detail)
  {
    LetterIsPlain(key);
    LeakIsNotClean(leak);
    OneItem(leak);
    RedactOneField(Field(key, Tuple([leak])));
  }

  /** And so does every key that looks like a credential and names no secret. */
  lemma KeyEscapes(key: string)
    requires Match(key).Some? && !Secret(key)
    ensures var detail := [Field(key, Other(0))];
            Redact(detail) == detail && !CleanFields(detail)
  {
    RedactOneField(Field(key, Other(0)));
    assert key[0..] == key;
    assert !Free(key);
  }

  /** Such a key: the prefix, twelve letters `a`, and twenty letters `b`. */
  predicate KeyShape(key: string) {
    && |key| == 39 && "coire_" <= key && key[18] == '_'
    && (forall i | 0 <= i < 19 :: key[i] in "coire_a")
    && (forall i | 19 <= i < 39 :: key[i] == 'b')
  }

  lemma KeyHasShape(key: string)
    requires key == "coire_aaaaaaaaaaaa_bbbbbbbbbbbbbbbbbbbb"
    ensures KeyShape(key)
  {
  }

  lemma CredentialKey(key: string)
    requires key == "coire_aaaaaaaaaaaa_bbbbbbbbbbbbbbbbbbbb"
    ensures Match(key).Some? && !Secret(key)
  {
    KeyHasShape(key);
    ShapeMatches(key);
    KeyIsPlain(key);
  }

  lemma ShapeMatches(key: string)
    requires KeyShape(key)
    ensures Match(key).Some?
  {
    forall i | 6 <= i < |key|
      ensures Word(key[i])
    {
      assert i < 19 ==> key[i] in "coire_a";
    }
    WordsAreRun(key, 6);
    WordsAreRun(key, 19);
  }

  lemma {:induction false} WordsAreRun(s: string, i: nat)
    requires i <= |s| && forall k | i <= k < |s| :: Word(s[k])
    ensures RunEnd(s, i) == |s|
    decreases |s| - i
  {
    if i < |s| {
      WordsAreRun(s, i + 1);
    }
  }

  lemma {:induction false} LowerFixes(s: string)
    requires forall i | 0 <= i < |s| :: Lower(s[i]) == s[i]
    ensures LowerAll(s) == s
  {
    if s != [] {
      LowerFixes(s[1..]);
    }
  }

  /** A text that lacks one character of the part does not contain it. */
  lemma {:induction false} LacksContains(s: string, part: string, k: nat)
    requires k < |part| && part[k] !in s
    ensures !Contains(s, part)
  {
    if s != [] {
      LacksContains(s[1..], part, k);
    }
  }

  /** Nor does one whose first two characters never stand together. */
  lemma {:induction false} LacksPair(s: string, part: string)
    requires |part| >= 2
    requires forall i | 0 <= i < |s| && s[i] == part[0] :: i + 1 < |s| ==> s[i + 1] != part[1]
    ensures !Contains(s, part)
  {
    if s != [] {
      var rest := s[1..];
      forall i | 0 <= i < |rest| && rest[i] == part[0]
        ensures i + 1 < |rest| ==> rest[i + 1] != part[1]
      {
        assert s[i + 1] == part[0];
      }
      LacksPair(rest, part);
      if |s| > 1 && s[0] == part[0] {
        assert s[0 + 1] != part[1];
      }
    }
  }

  lemma KeyIsLower(key: string)
    requires KeyShape(key)
    ensures LowerAll(key) == key
  {
    forall i | 0 <= i < |key|
      ensures Lower(key[i]) == key[i]
    {
      assert i < 19 ==> key[i] in "coire_a";
    }
    LowerFixes(key);
  }

  lemma KeyLacks(key: string, part: string, k: nat)
    requires KeyShape(key) && k < |part| && part[k] !in "coire_ab"
    ensures !Contains(key, part)
  {
    forall i | 0 <= i < |key|
      ensures key[i] != part[k]
    {
      assert i < 19 ==> key[i] in "coire_a";
    }
    LacksContains(key, part, k);
  }

  lemma KeyLacksHint(key: string, i: nat)
    requires KeyShape(key) && i < |HINTS|
    ensures !HasHint(key, i)
  {
    if i == 5 {
      LacksPair(key, HINTS[i]);
    } else {
      var k := if i == 3 then 3 else if i == 4 then 1 else 0;
      KeyLacks(key, HINTS[i], k);
    }
  }

  lemma KeyIsPlain(key: string)
    requires KeyShape(key)
    ensures !Secret(key)
  {
    KeyIsLower(key);
    forall i: nat | i < |HINTS|
      ensures !HasHint(key, i)
    {
      KeyLacksHint(key, i);
    }
  }

  lemma TokenIsSecret(key: string)
    requires key == HINTS[0]
    ensures Secret(key)
  {
    LowerFixes(key);
    assert HasHint(key, 0);
  }

  lemma LetterIsPlain(key: string)
    requires key == "a"
    ensures !Secret(key)
  {
    LowerFixes(key);
    forall i: nat | i < |HINTS|
      ensures !HasHint(key, i)
    {
      HintsAreLong(i);
      ShorterContains(key, HINTS[i]);
    }
  }

  // ----- Shape -----

  /** Same structure and same keys; only texts differ, and whole values under keys that name a secret. */
  predicate SameShape(a: Value, b: Value)
    decreases a, 0
  {
    match (a, b)
    case (Text(_), Text(_)) => true
    case (Object(f), Object(g)) => SameFields(f, g)
    case (List(x), List(y)) => SameItems(x, y)
    case (Tuple(x), Tuple(y)) => x == y
    case (Other(x), Other(y)) => x == y
    case _ => false
  }

  predicate SameItems(a: seq<Value>, b: seq<Value>)
    decreases a, 1
  {
    |a| == |b| && (a == [] || (SameShape(a[0], b[0]) && SameItems(a[1..], b[1..])))
  }

  predicate SameFields(a: seq<Field>, b: seq<Field>)
    decreases a, 1
  {
    |a| == |b| &&
    (a == [] ||
     (&& a[0].key == b[0].key && (Secret(a[0].key) || SameShape(a[0].value, b[0].value))
      && SameFields(a[1..], b[1..])))
  }

  lemma {:induction false} SameAsItself(v: Value)
    ensures SameShape(v, v)
    decreases v, 0
  {
    match v
    case Object(fields) => SameFieldsAsThemselves(fields);
    case List(items) => SameItemsAsThemselves(items);
    case _ =>
  }

  lemma {:induction false} SameItemsAsThemselves(items: seq<Value>)
    ensures SameItems(items, items)
    decreases items, 1
  {
    if items != [] {
      SameAsItself(items[0]);
      SameItemsAsThemselves(items[1..]);
    }
  }

  lemma {:induction false} SameFieldsAsThemselves(fields: seq<Field>)
    ensures SameFields(fields, fields)
    decreases fields, 1
  {
    if fields != [] {
      SameAsItself(fields[0].value);
      SameFieldsAsThemselves(fields[1..]);
    }
  }

  lemma {:induction false} PlainKeepsShape(v: Value)
    ensures SameShape(v, Plain(v))
    decreases v, 0
  {
    match v
    case Object(fields) => RedactKeepsShape(fields);
    case List(items) => ItemsKeepShape(items);
    case _ =>
  }

  lemma {:induction false} ItemsKeepShape(items: seq<Value>)
    ensures SameItems(items, Items(items))
    decreases items, 1
  {
    if items != [] {
      SameAsItself(items[0]);
      PlainKeepsShape(items[0]);
      ItemsKeepShape(items[1..]);
      assert Items(items)[1..] == Items(items[1..]);
    }
  }

  /** Redaction keeps every key, in order, and the shape of everything not under a secret key. */
  lemma {:induction false} RedactKeepsShape(fields: seq<Field>)
    ensures SameFields(fields, Redact(fields))
    decreases fields, 1
  {
    if fields != [] {
      PlainKeepsShape(fields[0].value);
      RedactKeepsShape(fields[1..]);
      assert Redact(fields)[1..] == Redact(fields[1..]);
    }
  }

  // ----- Which keys name a secret -----

  /** The character is this small letter in either case; the Kelvin sign is a capital `k` too. */
  predicate IsLetter(c: char, small: char) {
    c == small || c as int + 32 == small as int || (c == '\U{212A}' && small == 'k')
  }

  /** The word stands in the key at `i`, in any mixture of cases. */
  predicate WordAt(key: string, word: string, i: nat) {
    i + |word| <= |key| && forall k | 0 <= k < |word| :: IsLetter(key[i + k], word[k])
  }

  predicate SmallLetters(word: string) {
    forall k | 0 <= k < |word| :: 'a' <= word[k] <= 'z'
  }

  lemma {:induction false} LowerAt(s: string, k: nat)
    requires k < |s|
    ensures |LowerAll(s)| == |s| && LowerAll(s)[k] == Lower(s[k])
  {
    if k > 0 {
      LowerAt(s[1..], k - 1);
    } else if |s| > 1 {
      LowerAt(s[1..], 0);
    }
  }

  lemma LowerIff(c: char, small: char)
    requires 'a' <= small <= 'z'
    ensures Lower(c) == small <==> IsLetter(c, small)
  {
  }

  /** A text contains a part exactly when the part stands somewhere in it. */
  lemma {:induction false} ContainsIff(s: string, part: string)
    ensures Contains(s, part) <==> exists i: nat | i <= |s| :: part <= s[i..]
  {
    assert s[0..] == s;
    if s != [] {
      ContainsIff(s[1..], part);
      if Contains(s[1..], part) {
        var i: nat :| i <= |s[1..]| && part <= s[1..][i..];
        assert s[1..][i..] == s[i + 1..];
      }
      forall i: nat | 0 < i <= |s| && part <= s[i..]
        ensures Contains(s[1..], part)
      {
        assert s[1..][i - 1..] == s[i..];
      }
    }
  }

  lemma WordAtIff(key: string, word: string, i: nat)
    requires SmallLetters(word) && i <= |key|
    ensures |LowerAll(key)| == |key| && (word <= LowerAll(key)[i..] <==> WordAt(key, word, i))
  {
    var lower := LowerAll(key);
    LowerLength(key);
    forall k | 0 <= k < |word| && i + k < |key|
      ensures lower[i..][k] == Lower(key[i + k]) && (lower[i..][k] == word[k] <==> IsLetter(key[i + k], word[k]))
    {
      LowerAt(key, i + k);
      LowerIff(key[i + k], word[k]);
    }
  }

  lemma LowerLength(s: string)
    ensures |LowerAll(s)| == |s|
  {
    if s != [] {
      LowerAt(s, 0);
    }
  }

  lemma HasWordIff(key: string, word: string)
    requires SmallLetters(word)
    ensures Contains(LowerAll(key), word) <==> exists i: nat :: WordAt(key, word, i)
  {
    ContainsIff(LowerAll(key), word);
    LowerLength(key);
    forall i: nat | i <= |key|
      ensures word <= LowerAll(key)[i..] <==> WordAt(key, word, i)
    {
      WordAtIff(key, word, i);
    }
  }

  /** A key names a secret exactly when one of the seven words stands in it, in any mixture of cases. */
  lemma SecretIff(key: string)
    ensures Secret(key) <==>
            exists word, i: nat ::
              && word in ["token", "secret", "password", "credential", "authorization", "bearer", "grant"]
              && WordAt(key, word, i)
  {
    var words := ["token", "secret", "password", "credential", "authorization", "bearer", "grant"];
    forall k: nat | k < |HINTS|
      ensures HINTS[k] == words[k] && (HasHint(LowerAll(key), k) <==> exists i: nat :: WordAt(key, words[k], i))
    {
      HintsAreSmall(k);
      HasWordIff(key, HINTS[k]);
    }
    if Secret(key) {
      var k: nat :| k < |HINTS| && HasHint(LowerAll(key), k);
      var i: nat :| WordAt(key, words[k], i);
      assert words[k] in words;
    }
    forall word, i: nat | word in words && WordAt(key, word, i)
      ensures Secret(key)
    {
      var k: nat :| k < |words| && words[k] == word;
      assert HasHint(LowerAll(key), k);
    }
  }

  lemma HintsAreSmall(k: nat)
    requires k < |HINTS|
    ensures SmallLetters(HINTS[k])
  {
  }

  // ----- What becomes of each text -----

  /** The value at a place below `v`: the numbers of the fields, items or members on the way. */
  function At(v: Value, path: seq<nat>): Option<Value>
    decreases |path|
  {
    if path == [] then Some(v)
    else if v.Object? && path[0] < |v.fields| then At(v.fields[path[0]].value, path[1..])
    else if v.List? && path[0] < |v.items| then At(v.items[path[0]], path[1..])
    else if v.Tuple? && path[0] < |v.members| then At(v.members[path[0]], path[1..])
    else None
  }

  datatype Fate = Hidden | Safened | Kept

  /** Hidden under a key that names a secret; kept inside a tuple, or inside a list or tuple that is itself an item of
      a list; otherwise made safe. */
  ghost function FateOf(v: Value, path: seq<nat>): Fate
    decreases |path|
  {
    if path == [] then Safened
    else if v.Object? && path[0] < |v.fields| then
      if Secret(v.fields[path[0]].key) then Hidden else FateOf(v.fields[path[0]].value, path[1..])
    else if v.List? && path[0] < |v.items| then
      if v.items[path[0]].Text? || v.items[path[0]].Object? then FateOf(v.items[path[0]], path[1..]) else Kept
    else Kept
  }

  /** Every text below a value is made safe, kept or hidden, as its place says, and nothing else happens to it. */
  lemma {:induction false} EveryText(v: Value, path: seq<nat>, text: string)
    requires At(v, path) == Some(Text(text))
    ensures FateOf(v, path) == Safened ==> At(Plain(v), path) == Some(Text(Safe(text)))
    ensures FateOf(v, path) == Kept ==> At(Plain(v), path) == Some(Text(text))
    ensures FateOf(v, path) == Hidden ==>
              exists n: nat | n <= |path| :: At(Plain(v), path[..n]) == Some(Text("[redacted]"))
    decreases |path|
  {
    if path != [] {
      if v.Object? {
        RedactAt(v.fields, path[0]);
        if Secret(v.fields[path[0]].key) {
          assert path[..1][1..] == [];
          assert At(Plain(v), path[..1]) == Some(Text(REDACTED));
        } else {
          EveryText(v.fields[path[0]].value, path[1..], text);
          Deeper(Plain(v), Plain(v.fields[path[0]].value), path);
        }
      } else if v.List? {
        ItemsAt(v.items, path[0]);
        if v.items[path[0]].Text? || v.items[path[0]].Object? {
          EveryText(v.items[path[0]], path[1..], text);
          Deeper(Plain(v), Plain(v.items[path[0]]), path);
        }
      }
    }
  }

  /** What is found below a child is found below its parent. */
  lemma Deeper(v: Value, child: Value, path: seq<nat>)
    requires path != [] && forall rest: seq<nat> :: At(v, [path[0]] + rest) == At(child, rest)
    ensures At(v, path) == At(child, path[1..])
    ensures forall n: nat | n <= |path[1..]| :: At(v, path[..n + 1]) == At(child, path[1..][..n])
  {
    assert path == [path[0]] + path[1..];
    forall n: nat | n <= |path[1..]|
      ensures path[..n + 1] == [path[0]] + path[1..][..n]
    {
    }
  }

  /** A field keeps its key; under a key that names a secret its value is the mark, under any other its value is
      redacted. */
  lemma FieldIs(fields: seq<Field>, i: nat)
    requires i < |fields|
    ensures Redact(fields)[i] ==
            Field(fields[i].key, if Secret(fields[i].key) then Text("[redacted]") else Plain(fields[i].value))
  {
    RedactAt(fields, i);
  }
}
