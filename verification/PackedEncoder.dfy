/** The loops of the packed codec, proved to compute what `PackedCodec` defines: the encoder writes into its vector in
    place. */
module PackedEncoder {
  import opened Types
  import opened Serialize
  import opened PackedCodec
  import PackedRecovery

  lemma SkipTwice(s: Text, i: nat)
    ensures Skip(s, 0) == s && Skip(Skip(s, 2 * i), 2) == Skip(s, 2 * (i + 1))
    ensures CharAt(Skip(s, 2 * i), 0) == CharAt(s, 2 * i) && CharAt(Skip(s, 2 * i), 1) == CharAt(s, 2 * i + 1)
  {
  }

  lemma EncodeStep(s: Text, i: nat, floats: nat)
    requires i < floats
    ensures EncodeString(Skip(s, 2 * i), floats - i)
         == [Encode2Chars(CharAt(s, 2 * i), CharAt(s, 2 * i + 1))]
            + EncodeString(Skip(s, 2 * (i + 1)), floats - (i + 1))
  {
    hide Encode2Chars;
    SkipTwice(s, i);
    hide Skip, CharAt;
  }

  lemma RealsAssociate(a: seq<real>, b: seq<real>, c: seq<real>)
    ensures a + (b + c) == a + b + c && a + [] == a && [] + a == a
  {
  }

  /** `encode_string`. */
  method WriteString(s: Text, floats: nat) returns (r: seq<real>)
    ensures r == EncodeString(s, floats)
  {
    hide Encode2Chars, Skip, CharAt, EncodeString;
    r := [];
    SkipTwice(s, 0);
    RealsAssociate(EncodeString(s, floats), [], []);
    for i := 0 to floats
      invariant r + EncodeString(Skip(s, 2 * i), floats - i) == EncodeString(s, floats)
    {
      EncodeStep(s, i, floats);
      var f := Encode2Chars(CharAt(s, 2 * i), CharAt(s, 2 * i + 1));
      RealsAssociate(r, [f], EncodeString(Skip(s, 2 * (i + 1)), floats - (i + 1)));
      r := r + [f];
    }
    RealsAssociate(r, [], []);
  }

  lemma DecodeStep(fs: seq<real>, i: nat)
    requires i < |fs|
    ensures DecodeString(fs[i..])
         == if Decode2Chars(fs[i]).0 == NUL then []
            else if Decode2Chars(fs[i]).1 == NUL then [Decode2Chars(fs[i]).0]
            else [Decode2Chars(fs[i]).0, Decode2Chars(fs[i]).1] + DecodeString(fs[i + 1..])
  {
    hide Decode2Chars;
    assert fs[i..][0] == fs[i] && fs[i..][1..] == fs[i + 1..];
  }

  lemma CharsAssociate(a: Text, c1: char, c2: char, rest: Text)
    ensures a + ([c1, c2] + rest) == a + [c1] + [c2] + rest && a + [] == a
  {
  }

  lemma NothingDecoded()
    ensures DecodeString([]) == []
  {
  }

  lemma NothingLeft(fs: seq<real>)
    ensures fs[0..] == fs && DecodeString(fs[|fs|..]) == [] && [] + DecodeString(fs) == DecodeString(fs)
  {
    hide *;
    NothingDecoded();
    assert fs[|fs|..] == [];
  }

  /** `decode_string`: stops at the first sentinel. */
  method ReadString(fs: seq<real>) returns (s: Text)
    ensures s == DecodeString(fs)
  {
    hide Decode2Chars, DecodeString, NUL;
    s := [];
    NothingLeft(fs);
    for i := 0 to |fs|
      invariant s + DecodeString(fs[i..]) == DecodeString(fs)
    {
      DecodeStep(fs, i);
      var (c1, c2) := Decode2Chars(fs[i]);
      CharsAssociate(s, c1, c2, DecodeString(fs[i + 1..]));
      if c1 == NUL {
        return;
      }
      s := s + [c1];
      if c2 == NUL {
        return;
      }
      s := s + [c2];
    }
    CharsAssociate(s, 'x', 'x', []);
  }

  /** Copies values into an array. */
  method Place(data: array<real>, offset: nat, chars: seq<real>)
    requires offset + |chars| <= data.Length
    modifies data
    ensures data[..] == old(data[..offset]) + chars + old(data[offset + |chars|..])
  {
    for j := 0 to |chars|
      invariant forall i :: 0 <= i < data.Length ==>
        data[i] == if offset <= i < offset + j then chars[i - offset] else old(data[i])
    {
      data[offset + j] := chars[j];
    }
  }

  /** A vector with its slots named. */
  ghost predicate IsLayout(
      v: seq<real>, head: real, packed: real, a: seq<real>, b: seq<real>, c: seq<real>, tail: seq<real>) {
    |a| == 6 && |b| == 6 && |c| == 6 && |tail| == 3 && v == [1.0, head] + ([packed] + (a + (b + (c + tail))))
  }

  lemma PlacedFirst(
      v: seq<real>, w: seq<real>, h: real, x: real, a: seq<real>, b: seq<real>, c: seq<real>, tail: seq<real>,
      t: seq<real>)
    requires IsLayout(v, h, x, a, b, c, tail) && |t| == 6 && |v| == 24 && w == v[..3] + t + v[9..]
    ensures IsLayout(w, h, x, t, b, c, tail)
  {
    assert v[..3] == [1.0, h] + [x] && v[9..] == b + (c + tail);
  }

  lemma PlacedSecond(
      v: seq<real>, w: seq<real>, h: real, x: real, a: seq<real>, b: seq<real>, c: seq<real>, tail: seq<real>,
      t: seq<real>)
    requires IsLayout(v, h, x, a, b, c, tail) && |t| == 6 && |v| == 24 && w == v[..9] + t + v[15..]
    ensures IsLayout(w, h, x, a, t, c, tail)
  {
    assert v[..9] == [1.0, h] + ([x] + a) && v[15..] == c + tail;
  }

  lemma PlacedThird(
      v: seq<real>, w: seq<real>, h: real, x: real, a: seq<real>, b: seq<real>, c: seq<real>, tail: seq<real>,
      t: seq<real>)
    requires IsLayout(v, h, x, a, b, c, tail) && |t| == 6 && |v| == 24 && w == v[..15] + t + v[21..]
    ensures IsLayout(w, h, x, a, b, t, tail)
  {
    assert v[..15] == [1.0, h] + ([x] + (a + b)) && v[21..] == tail;
  }

  lemma ScalarsPlaced(
      v: seq<real>, w: seq<real>, h: real, x: real, a: seq<real>, b: seq<real>, c: seq<real>, tail: seq<real>,
                      h1: real, x1: real, y0: real, y1: real, y2: real)
    requires IsLayout(v, h, x, a, b, c, tail) && |v| == 24
    requires w == v[1 := h1][2 := x1][21 := y0][22 := y1][23 := y2]
    ensures IsLayout(w, h1, x1, a, b, c, [y0, y1, y2])
  {
    assert v[3..21] == a + (b + c);
    assert w[3..21] == v[3..21];
    assert w == [1.0, h1] + ([x1] + (w[3..21] + [y0, y1, y2]));
    assert a + (b + c) + [y0, y1, y2] == a + (b + (c + [y0, y1, y2]));
  }

  lemma ZeroText(floats: nat)
    ensures EncodeString([], floats) == seq(floats, _ => 0.0)
  {
    if floats > 0 {
      ZeroText(floats - 1);
      ZeroPair();
      hide Encode2Chars;
    }
  }

  lemma ZeroPair()
    ensures Encode2Chars(NUL, NUL) == 0.0
  {
    NulHasNoIndex();
    hide CharToIdx;
  }

  lemma NulHasNoIndex()
    ensures CharToIdx(NUL) == 0
  {
    PackedRecovery.NulNotInSet();
    hide CHARSET;
  }

  lemma ZeroLayout(v: seq<real>)
    requires |v| == 24 && v[0] == 1.0 && forall i :: 1 <= i < 24 ==> v[i] == 0.0
    ensures var z := EncodeString([], 6); IsLayout(v, 0.0, 0.0, z, z, z, [0.0, 0.0, 0.0])
  {
    ZeroText(6);
    hide EncodeString;
  }

  lemma EncodeIsLayout(v: seq<real>, p: Predicate, conf: real, auth: real, registry: Registry, cal: Calendar)
    requires IsLayout(v, HeadSlot(registry, p.head), PackedSlot(p, cal), EncodeString(ArgText(p, 0, cal), 6),
                      EncodeString(ArgText(p, 1, cal), 6), EncodeString(ArgText(p, 2, cal), 6),
                      [NamedMark(p, cal), conf, auth])
    ensures v == Encode(p, conf, auth, registry, cal)
  {
    hide HeadSlot, PackedSlot, EncodeString, ArgText, NamedMark;
  }

  /** One argument's text into its slots; a missing argument leaves zeros. */
  method PlaceText(data: array<real>, offset: nat, p: Predicate, i: nat, cal: Calendar)
    requires offset + 6 <= data.Length && (i >= |p.args| ==> data[offset..offset + 6] == EncodeString([], 6))
    modifies data
    ensures data[..] == old(data[..offset]) + EncodeString(ArgText(p, i, cal), 6) + old(data[offset + 6..])
  {
    hide EncodeString, TermValue;
    if i < |p.args| {
      var chars := WriteString(TermValue(p.args[i], cal).0, 6);
      Place(data, offset, chars);
    } else {
      assert data[..] == data[..offset] + data[offset..offset + 6] + data[offset + 6..];
    }
  }

  /** `encode_predicate` on a vector that is zero but for the scale reference. */
  method EncodePredicate(p: Predicate, conf: real, auth: real, registry: Registry, cal: Calendar, data: array<real>)
    requires data.Length == 24 && data[0] == 1.0 && forall i :: 1 <= i < 24 ==> data[i] == 0.0
    modifies data
    ensures data[..] == Encode(p, conf, auth, registry, cal)
  {
    hide EncodeString, ArgText, IsLayout, Encode, HeadSlot, PackedSlot, NamedMark;
    ghost var z, tail := EncodeString([], 6), [0.0, 0.0, 0.0];
    ghost var a, b := EncodeString(ArgText(p, 0, cal), 6), EncodeString(ArgText(p, 1, cal), 6);
    ghost var c := EncodeString(ArgText(p, 2, cal), 6);
    ghost var v0 := data[..];
    ZeroLayout(v0);
    LayoutSlots(v0, 0.0, 0.0, z, z, z, tail);
    PlaceText(data, 3, p, 0, cal);
    ghost var v1 := data[..];
    PlacedFirst(v0, v1, 0.0, 0.0, z, z, z, tail, a);
    LayoutSlots(v1, 0.0, 0.0, a, z, z, tail);
    assert data[9..15] == v1[9..15];
    PlaceText(data, 9, p, 1, cal);
    ghost var v2 := data[..];
    PlacedSecond(v1, v2, 0.0, 0.0, a, z, z, tail, b);
    LayoutSlots(v2, 0.0, 0.0, a, b, z, tail);
    assert data[15..21] == v2[15..21];
    PlaceText(data, 15, p, 2, cal);
    ghost var v3 := data[..];
    PlacedThird(v2, v3, 0.0, 0.0, a, b, z, tail, c);
    data[1] := HeadSlot(registry, p.head);
    data[2] := PackedSlot(p, cal);
    data[21] := NamedMark(p, cal);
    data[22] := conf;
    data[23] := auth;
    ScalarsPlaced(v3, data[..], 0.0, 0.0, a, b, c, tail, HeadSlot(registry, p.head), PackedSlot(p, cal),
                  NamedMark(p, cal), conf, auth);
    EncodeIsLayout(data[..], p, conf, auth, registry, cal);
  }

  lemma LayoutSlots(v: seq<real>, h: real, x: real, a: seq<real>, b: seq<real>, c: seq<real>, tail: seq<real>)
    requires IsLayout(v, h, x, a, b, c, tail)
    ensures |v| == 24 && v[3..9] == a && v[9..15] == b && v[15..21] == c
  {
  }

  /** `encode_node`'s vector. */
  method EncodeNode(p: Predicate, conf: real, auth: real, registry: Registry, cal: Calendar) returns (data: array<real>)
    ensures fresh(data) && data[..] == Encode(p, conf, auth, registry, cal)
  {
    hide Encode;
    data := new real[24](_ => 0.0);
    data[0] := 1.0;
    EncodePredicate(p, conf, auth, registry, cal, data);
  }
}
