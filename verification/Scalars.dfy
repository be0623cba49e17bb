/** The byte strings taken for Rust strings are exactly the UTF-8 encodings of sequences of Unicode scalar values. */
module Scalars {
  import opened Types
  import opened Utf8

  /** A Unicode scalar value: a code point that is not a surrogate. */
  predicate IsScalar(c: int) {
    0 <= c < 0xD800 || 0xE000 <= c < 0x11_0000
  }

  /** Its encoding, by the table of section 3 of RFC 3629. */
  function Encoded(c: int): Text
    requires IsScalar(c)
  {
    if c < 0x80 then [c as char]
    else if c < 0x800 then [(0xC0 + c / 64) as char, (0x80 + c % 64) as char]
    else if c < 0x1_0000 then [(0xE0 + c / 4096) as char, (0x80 + c / 64 % 64) as char, (0x80 + c % 64) as char]
    else
      [(0xF0 + c / 262144) as char, (0x80 + c / 4096 % 64) as char, (0x80 + c / 64 % 64) as char,
       (0x80 + c % 64) as char]
  }

  function EncodedAll(cs: seq<int>): Text
    requires forall c <- cs :: IsScalar(c)
  {
    if cs == [] then [] else Encoded(cs[0]) + EncodedAll(cs[1..])
  }

  /** Every encoding is one character, whose first byte says how long it is. */
  lemma EncodedIsChar(c: int)
    requires IsScalar(c)
    ensures IsOneChar(Encoded(c)) && Width(Encoded(c)[0]) == |Encoded(c)|
  {
  }

  /** The scalar value of one character. */
  lemma CharIsEncoded(b: Text) returns (c: int)
    requires IsOneChar(b)
    ensures IsScalar(c) && Encoded(c) == b
  {
    if |b| == 1 {
      c := b[0] as int;
    } else if |b| == 2 {
      c := TwoBytes(b);
    } else if |b| == 3 {
      c := ThreeBytes(b);
    } else {
      c := FourBytes(b);
    }
  }

  lemma TwoBytes(b: Text) returns (c: int)
    requires IsOneChar(b) && |b| == 2
    ensures IsScalar(c) && Encoded(c) == b
  {
    var x, y := b[0] as int - 0xC0, b[1] as int - 0x80;
    c := 64 * x + y;
    assert c / 64 == x && c % 64 == y;
    assert (0xC0 + x) as char == b[0] && (0x80 + y) as char == b[1];
  }

  lemma ThreeBytes(b: Text) returns (c: int)
    requires IsOneChar(b) && |b| == 3
    ensures IsScalar(c) && Encoded(c) == b
  {
    var x, y, z := b[0] as int - 0xE0, b[1] as int - 0x80, b[2] as int - 0x80;
    c := 4096 * x + 64 * y + z;
    assert c / 4096 == x && c / 64 == 64 * x + y && c / 64 % 64 == y && c % 64 == z;
    assert (0xE0 + x) as char == b[0] && (0x80 + y) as char == b[1] && (0x80 + z) as char == b[2];
  }

  lemma FourBytes(b: Text) returns (c: int)
    requires IsOneChar(b) && |b| == 4
    ensures IsScalar(c) && Encoded(c) == b
  {
    var x, y, z, w := b[0] as int - 0xF0, b[1] as int - 0x80, b[2] as int - 0x80, b[3] as int - 0x80;
    c := 262144 * x + 4096 * y + 64 * z + w;
    assert c / 262144 == x && c / 4096 == 64 * x + y && c / 4096 % 64 == y;
    assert c / 64 == 4096 * x + 64 * y + z && c / 64 % 64 == z && c % 64 == w;
    assert (0xF0 + x) as char == b[0] && (0x80 + y) as char == b[1];
    assert (0x80 + z) as char == b[2] && (0x80 + w) as char == b[3];
  }

  lemma {:induction false} EncodedValid(cs: seq<int>)
    requires forall c <- cs :: IsScalar(c)
    ensures Valid(EncodedAll(cs))
  {
    if cs != [] {
      assert cs[0] in cs && forall c <- cs[1..] :: c in cs;
      EncodedValid(cs[1..]);
      EncodedIsChar(cs[0]);
      hide IsOneChar, Width, Encoded;
      var s, first := EncodedAll(cs), Encoded(cs[0]);
      assert s[0] == first[0] && s[..|first|] == first && s[|first|..] == EncodedAll(cs[1..]);
    }
  }

  lemma {:induction false} ValidEncoded(s: Text) returns (cs: seq<int>)
    requires Valid(s)
    ensures (forall c <- cs :: IsScalar(c)) && EncodedAll(cs) == s
    decreases |s|
  {
    cs := [];
    if s != [] {
      var w := Width(s[0]);
      var c := CharIsEncoded(s[..w]);
      var more := ValidEncoded(s[w..]);
      hide IsOneChar, Width, Encoded, Valid;
      cs := [c] + more;
      assert cs[1..] == more && s == s[..w] + s[w..];
    }
  }

  /** A byte string is taken for a Rust string if and only if it encodes scalar values. */
  lemma ValidIff(s: Text)
    ensures Valid(s) <==> exists cs: seq<int> :: (forall c <- cs :: IsScalar(c)) && EncodedAll(cs) == s
  {
    hide Valid, EncodedAll;
    if Valid(s) {
      var cs := ValidEncoded(s);
    }
    if cs: seq<int> :| (forall c <- cs :: IsScalar(c)) && EncodedAll(cs) == s {
      EncodedValid(cs);
    }
  }
}
