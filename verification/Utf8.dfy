/** UTF-8 by its encoding, against the size that the patch limit counts. */
module Utf8 {
  import opened TextLines

  /** The bytes of one character, as section 3 of RFC 3629 lays them out. */
  function Encode(c: char): seq<int> {
    var n := c as int;
    if n < 0x80 then [n]
    else if n < 0x800 then [0xC0 + n / 64, 0x80 + n % 64]
    else if n < 0x1_0000 then [0xE0 + n / 4096, 0x80 + n / 64 % 64, 0x80 + n % 64]
    else [0xF0 + n / 262144, 0x80 + n / 4096 % 64, 0x80 + n / 64 % 64, 0x80 + n % 64]
  }

  function EncodeAll(s: string): seq<int> {
    if s == [] then [] else Encode(s[0]) + EncodeAll(s[1..])
  }

  /** How many bytes a first byte announces. */
  function Announced(first: int): nat {
    if first < 0x80 then 1 else if first < 0xE0 then 2 else if first < 0xF0 then 3 else 4
  }

  /** The number that the leading byte and the six bits of each later one hold. */
  function Number(bytes: seq<int>): int {
    if |bytes| == 1 then bytes[0]
    else if |bytes| == 2 then (bytes[0] - 0xC0) * 64 + (bytes[1] - 0x80)
    else if |bytes| == 3 then (bytes[0] - 0xE0) * 4096 + (bytes[1] - 0x80) * 64 + (bytes[2] - 0x80)
    else if |bytes| == 4 then
      (bytes[0] - 0xF0) * 262144 + (bytes[1] - 0x80) * 4096 + (bytes[2] - 0x80) * 64 + (bytes[3] - 0x80)
    else 0
  }

  /** A character can be read back from its bytes: the first announces their number, the others continue it. */
  lemma EncodeIsRead(c: char)
    ensures var bytes := Encode(c);
            && bytes != [] && Announced(bytes[0]) == |bytes| && Number(bytes) == c as int
            && (forall i | 0 <= i < |bytes| :: 0 <= bytes[i] < 0x100)
            && (forall i | 0 < i < |bytes| :: 0x80 <= bytes[i] < 0xC0)
    ensures |Encode(c)| == Utf8(c)
  {
    var n := c as int;
    assert n < 0x11_0000;
    assert n == n / 64 * 64 + n % 64;
    assert n / 64 == n / 64 / 64 * 64 + n / 64 % 64 && n / 64 / 64 == n / 4096;
    assert n / 4096 == n / 4096 / 64 * 64 + n / 4096 % 64 && n / 4096 / 64 == n / 262144;
  }

  /** The size of a text is the length of its encoding. */
  lemma {:induction false} BytesAreEncoded(s: string)
    ensures |EncodeAll(s)| == Bytes(s)
  {
    if s != [] {
      BytesAreEncoded(s[1..]);
      EncodeIsRead(s[0]);
    }
  }

  /** Different texts have different encodings. */
  lemma {:induction false} EncodingIsUnique(s: string, t: string)
    requires EncodeAll(s) == EncodeAll(t)
    ensures s == t
  {
    BytesAreEncoded(s);
    BytesAreEncoded(t);
    if s != [] && t != [] {
      var a, b, x, y := Encode(s[0]), Encode(t[0]), EncodeAll(s[1..]), EncodeAll(t[1..]);
      EncodeIsRead(s[0]);
      EncodeIsRead(t[0]);
      assert (a + x)[0] == a[0] && (b + y)[0] == b[0];
      assert (a + x)[..|a|] == a && (b + y)[..|b|] == b && (a + x)[|a|..] == x && (b + y)[|b|..] == y;
      EncodingIsUnique(s[1..], t[1..]);
      assert s == [s[0]] + s[1..] && t == [t[0]] + t[1..];
    }
  }
}
