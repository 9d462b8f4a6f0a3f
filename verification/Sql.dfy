/** SQL's three-valued logic and JSON operators, as the CHECK constraints use them. */
module Sql {
  import opened Wrappers

  datatype Tri = True | False | Unknown

  function Truth(b: bool): Tri {
    if b then True else False
  }

  function Not(a: Tri): Tri {
    match a
    case True => False
    case False => True
    case Unknown => Unknown
  }

  function And(a: Tri, b: Tri): Tri {
    if a == False || b == False then False else if a == True && b == True then True else Unknown
  }

  function Or(a: Tri, b: Tri): Tri {
    if a == True || b == True then True else if a == False && b == False then False else Unknown
  }

  /** The truth values a known or unknown condition may turn out to have. */
  function Possible(a: Tri): set<bool> {
    match a
    case True => {true}
    case False => {false}
    case Unknown => {true, false}
  }

  /** The connectives answer only what holds however the unknown conditions turn out. */
  lemma NotIsSound(a: Tri)
    ensures Possible(Not(a)) == set x | x in Possible(a) :: !x
  {
    assert true in Possible(a) || false in Possible(a);
  }

  lemma AndIsSound(a: Tri, b: Tri)
    ensures And(a, b) == True <==> Possible(a) == Possible(b) == {true}
    ensures And(a, b) == False <==> Possible(a) == {false} || Possible(b) == {false}
  {
    assert true in Possible(a) || false in Possible(a);
  }

  lemma OrIsSound(a: Tri, b: Tri)
    ensures Or(a, b) == True <==> Possible(a) == {true} || Possible(b) == {true}
    ensures Or(a, b) == False <==> Possible(a) == Possible(b) == {false}
  {
    assert true in Possible(a) || false in Possible(a);
  }

  /** Equality of two truth values. */
  function Same(a: Tri, b: Tri): Tri {
    if a == Unknown || b == Unknown then Unknown else Truth(a == b)
  }

  function CoalesceFalse(a: Tri): Tri {
    if a == Unknown then False else a
  }

  /** A CHECK refuses a row only when it is false. */
  predicate Passes(check: Tri) {
    check != False
  }

  function Null<T>(column: Option<T>): Tri {
    Truth(column.None?)
  }

  function NotNull<T>(column: Option<T>): Tri {
    Truth(column.Some?)
  }

  /** `column = literal` */
  function Equals(column: Option<int>, literal: int): Tri {
    if column.None? then Unknown else Truth(column.value == literal)
  }

  datatype Json =
    | JNull
    | JBool(b: bool)
    | JNumber(n: int)
    | JString(s: string)
    | JArray(items: seq<Json>)
    | JObject(fields: map<string, Json>)

  /** `value -> key`: NULL unless `value` is an object with that key. */
  function Field(value: Option<Json>, key: string): Option<Json> {
    if value.Some? && value.value.JObject? && key in value.value.fields
    then Some(value.value.fields[key]) else None
  }

  /** `value ->> key = literal`, for literals that are the text of a JSON string only. */
  function FieldTextIs(value: Option<Json>, key: string, literal: string): Tri {
    match Field(value, key)
    case None => Unknown
    case Some(JNull) => Unknown
    case Some(JString(s)) => Truth(s == literal)
    case Some(_) => False
  }

  function JsonEquals(a: Option<Json>, b: Json): Tri {
    if a.None? then Unknown else Truth(a.value == b)
  }

  /** A field is found exactly in an object that has it. */
  lemma FieldIff(value: Option<Json>, key: string, found: Json)
    ensures Field(value, key) == Some(found) <==>
            exists fields :: value == Some(JObject(fields)) && key in fields && fields[key] == found
  {
    if Field(value, key) == Some(found) {
      assert value == Some(JObject(value.value.fields));
    }
  }

  /** A text comparison is true of that text only, and unknown exactly where there is no field or a null. */
  lemma FieldTextIff(value: Option<Json>, key: string, literal: string)
    ensures FieldTextIs(value, key, literal) == True <==> Field(value, key) == Some(JString(literal))
    ensures FieldTextIs(value, key, literal) == Unknown <==> Field(value, key) in {None, Some(JNull)}
  {
  }

  /** Comparisons are unknown exactly when a side is. */
  lemma ComparisonsAre(column: Option<int>, literal: int, a: Tri, b: Tri)
    ensures Equals(column, literal) == Unknown <==> column == None
    ensures Equals(column, literal) == True <==> column == Some(literal)
    ensures Same(a, b) == Unknown <==> Unknown in {a, b}
    ensures Same(a, b) == True <==> (a, b) in {(True, True), (False, False)}
  {
  }
}
