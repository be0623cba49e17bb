/** The packed vector in numbers: where everything stands, which code each character and each kind of term has, and what
    vectors that no encoder made decode to. */
module PackedLayout {
  import opened Types
  import opened Decimal
  import opened Serialize
  import opened PackedCodec

  // ----- characters -----

  /** Upper case from 1, lower case from 27, digits from 53, four signs from 63; 0 for everything else. */
  function Code(c: char): (k: nat)
    ensures k <= 66
  {
    if 'A' <= c <= 'Z' then c as int - 'A' as int + 1
    else if 'a' <= c <= 'z' then c as int - 'a' as int + 27
    else if '0' <= c <= '9' then c as int - '0' as int + 53
    else if c == '-' then 63
    else if c == '.' then 64
    else if c == '(' then 65
    else if c == ')' then 66
    else 0
  }

  lemma UpperAt(i: nat)
    requires i < 26
    ensures |UPPER| == 26 && UPPER[i] as int == 'A' as int + i
  {
  }

  lemma LowerAt(i: nat)
    requires i < 26
    ensures |LOWER| == 26 && LOWER[i] as int == 'a' as int + i
  {
  }

  lemma OtherAt(i: nat)
    requires i < 14
    ensures |OTHERS| == 14
    ensures i < 10 ==> OTHERS[i] as int == '0' as int + i
    ensures OTHERS[10] == '-' && OTHERS[11] == '.' && OTHERS[12] == '(' && OTHERS[13] == ')'
  {
  }

  lemma CharsetAt(i: nat)
    requires i < 66
    ensures |CHARSET| == 66 && Code(CHARSET[i]) == i + 1
  {
    UpperAt(0);
    LowerAt(0);
    OtherAt(0);
    hide UPPER, LOWER, OTHERS;
    if i < 26 {
      UpperAt(i);
    } else if i < 52 {
      LowerAt(i - 26);
    } else {
      OtherAt(i - 52);
    }
  }

  lemma SameCode(c: char, d: char)
    requires Code(c) == Code(d) > 0
    ensures c == d
  {
  }

  /** The code of every character. */
  lemma CharacterCodes(c: char)
    ensures CharToIdx(c) == Code(c)
  {
    hide CHARSET, Code, IndexIn;
    if Code(c) > 0 {
      CharsetAt(Code(c) - 1);
      SameCode(CHARSET[Code(c) - 1], c);
    }
    if c in CHARSET {
      CharsetAt(CharToIdx(c) - 1);
    }
  }

  // ----- the vector -----

  /** The code of the character at a place of the text, 0 past its end. */
  function CodeAt(s: Text, i: nat): nat {
    if i < |s| then CharToIdx(s[i]) else 0
  }

  lemma {:induction false} StringSlots(s: Text, floats: nat, i: nat)
    requires i < floats
    ensures EncodeString(s, floats)[i] == (67 * CodeAt(s, 2 * i) + CodeAt(s, 2 * i + 1)) as real / 4488.0
    decreases floats
  {
    hide *;
    StringCons(s, floats);
    if i == 0 {
      PairSlot(s);
    } else {
      StringSlots(Skip(s, 2), floats - 1, i - 1);
      CodeSkipped(s, 2 * (i - 1));
      CodeSkipped(s, 2 * (i - 1) + 1);
    }
  }

  lemma StringCons(s: Text, floats: nat)
    requires floats > 0
    ensures EncodeString(s, floats) == [Encode2Chars(CharAt(s, 0), CharAt(s, 1))] + EncodeString(Skip(s, 2), floats - 1)
  {
    hide Encode2Chars, CharAt, Skip;
  }

  lemma PairSlot(s: Text)
    ensures Encode2Chars(CharAt(s, 0), CharAt(s, 1)) == (67 * CodeAt(s, 0) + CodeAt(s, 1)) as real / 4488.0
  {
    NulCode();
    hide CharToIdx;
  }

  lemma CodeSkipped(s: Text, i: nat)
    ensures CodeAt(Skip(s, 2), i) == CodeAt(s, i + 2)
  {
    hide CharToIdx;
  }

  lemma NulCode()
    ensures CharToIdx(NUL) == 0
  {
    CharacterCodes(NUL);
    hide CharToIdx;
  }

  lemma Entries(p: Predicate, conf: real, auth: real, registry: Registry, cal: Calendar, i: nat, k: nat)
    requires i < 3 && k < 6
    ensures var v := Encode(p, conf, auth, registry, cal);
            && |v| == 24
            && v[0] == 1.0 && v[1] == HeadSlot(registry, p.head) && v[2] == PackedSlot(p, cal)
            && v[3 + 6 * i + k] == EncodeString(ArgText(p, i, cal), 6)[k]
            && v[21] == NamedMark(p, cal) && v[22] == conf && v[23] == auth
  {
    hide HeadSlot, PackedSlot, ArgText, NamedMark, EncodeString;
    var a, b := EncodeString(ArgText(p, 0, cal), 6), EncodeString(ArgText(p, 1, cal), 6);
    var c := EncodeString(ArgText(p, 2, cal), 6);
    var tail := [NamedMark(p, cal), conf, auth];
    EntriesOf(HeadSlot(registry, p.head), PackedSlot(p, cal), a, b, c, tail, i, k);
  }

  lemma EntriesOf(h: real, x: real, a: seq<real>, b: seq<real>, c: seq<real>, tail: seq<real>, i: nat, k: nat)
    requires i < 3 && k < 6 && |a| == |b| == |c| == 6 && |tail| == 3
    ensures var v := [1.0, h] + ([x] + (a + (b + (c + tail))));
            && |v| == 24 && v[0] == 1.0 && v[1] == h && v[2] == x
            && v[3 + 6 * i + k] == (if i == 0 then a else if i == 1 then b else c)[k]
            && v[21] == tail[0] && v[22] == tail[1] && v[23] == tail[2]
  {
  }

  /** Each of the 24 entries: the scale, the head over 300, the packed count and kinds over 5323, six pairs of
      characters for each of three arguments, the kind of the first named argument, confidence and authority. */
  lemma VectorInNumbers(p: Predicate, conf: real, auth: real, registry: Registry, cal: Calendar, i: nat, k: nat)
    requires i < 3 && k < 6
    ensures var v := Encode(p, conf, auth, registry, cal);
            && |v| == 24
            && v[0] == 1.0
            && v[1] == HeadIndex(registry, p.head) as real / 300.0
            && v[2] == (1331 * ArgCount(p) + 121 * ArgCode(p, 0, cal) + 11 * ArgCode(p, 1, cal)
                        + ArgCode(p, 2, cal)) as real / 5323.0
            && v[3 + 6 * i + k]
               == (67 * CodeAt(ArgText(p, i, cal), 2 * k) + CodeAt(ArgText(p, i, cal), 2 * k + 1)) as real / 4488.0
            && v[21] == (if p.named == [] then 0.0 else 1.0 + TermValue(p.named[0].value, cal).1 as real / 100.0)
            && v[22] == conf && v[23] == auth
  {
    Entries(p, conf, auth, registry, cal, i, k);
    StringSlots(ArgText(p, i, cal), 6, k);
    SlotsAre(p, registry, cal);
    hide *;
  }

  lemma SlotsAre(p: Predicate, registry: Registry, cal: Calendar)
    ensures HeadSlot(registry, p.head) == HeadIndex(registry, p.head) as real / 300.0
    ensures PackedSlot(p, cal) == (1331 * ArgCount(p) + 121 * ArgCode(p, 0, cal) + 11 * ArgCode(p, 1, cal)
                                   + ArgCode(p, 2, cal)) as real / 5323.0
    ensures NamedMark(p, cal)
         == (if p.named == [] then 0.0 else 1.0 + TermValue(p.named[0].value, cal).1 as real / 100.0)
  {
    hide HeadIndex, ArgCode, TermValue;
  }

  /** A registered head has the index of its first entry; an unregistered one 0, and a resolved one its own. */
  lemma {:induction false} HeadNumbers(registry: Registry, name: Text)
    ensures name in registry ==>
              var i := HeadIndex(registry, Name(name)); i < |registry| && registry[i] == name && name !in registry[..i]
    ensures name !in registry ==> HeadIndex(registry, Name(name)) == 0
    ensures forall n: U32 :: HeadIndex(registry, Id(n)) == n
  {
    FirstIndex(registry, name);
  }

  lemma {:induction false} FirstIndex(registry: Registry, name: Text)
    ensures name in registry ==>
              && IndexOfName(registry, name).Some?
              && var i := IndexOfName(registry, name).value;
                 i < |registry| && registry[i] == name && name !in registry[..i]
    ensures name !in registry ==> IndexOfName(registry, name).None?
  {
    if registry != [] {
      FirstIndex(registry[1..], name);
      assert registry == [registry[0]] + registry[1..];
      if registry[0] != name && name in registry {
        var i := IndexOfName(registry, name).value;
        assert registry[..i] == [registry[0]] + registry[1..][..i - 1];
      }
    }
  }

  /** Arguments count up to three; those that are not there have kind 0 and no text. */
  lemma ArgumentsAre(p: Predicate, i: nat, cal: Calendar)
    ensures ArgCount(p) == if |p.args| <= 3 then |p.args| else 3
    ensures i < |p.args| ==> ArgText(p, i, cal) == TermValue(p.args[i], cal).0
    ensures i < |p.args| && i < 3 ==> ArgCode(p, i, cal) == TermValue(p.args[i], cal).1
    ensures i >= |p.args| ==> ArgText(p, i, cal) == "" && ArgCode(p, i, cal) == 0
  {
    hide TermValue;
  }

  // ----- kinds of term -----

  /** The text and the kind of every term: what is read back from them is the term again, or, for a list, its items'
      texts with spaces between them. */
  lemma KindsOfTerms(t: Term, cal: Calendar)
    ensures TermValue(t, cal).1
         == match t
            case Ent(_) => 1
            case Var(_) => 2
            case Lit(Dec(_, _)) => 3
            case Lit(Str(_)) => 4
            case Lit(Date(_)) => 5
            case Lit(Bool(_)) => 6
            case Lit(Uri(_)) => 7
            case Lit(Dur(_)) => 8
            case Compound(_) => 9
            case List(_) => 10
    ensures t.Compound? ==> TermValue(t, cal).0 == PredicateText(t.pred, cal)
  {
  }

  lemma {:induction false} ItemsJoined(items: seq<Term>, t: Term, cal: Calendar)
    ensures ItemValues(items + [t], cal)
         == ItemValues(items, cal) + (if items == [] then "" else " ") + TermValue(t, cal).0
    ensures TermValue(List(items), cal).0 == ItemValues(items, cal)
  {
    hide TermValue;
    if items == [] {
      assert items + [t] == [t];
    } else {
      ItemsJoined(items[1..], t, cal);
      assert (items + [t])[1..] == items[1..] + [t];
      var a, b := TermValue(items[0], cal).0, ItemValues(items[1..], cal);
      if |items| > 1 {
        assert a + " " + (b + " " + TermValue(t, cal).0) == a + " " + b + " " + TermValue(t, cal).0;
      } else {
        assert b == "" && "" + "" + TermValue(t, cal).0 == TermValue(t, cal).0;
      }
    }
    ListValue(items, cal);
  }

  lemma ListValue(items: seq<Term>, cal: Calendar)
    ensures TermValue(List(items), cal).0 == ItemValues(items, cal)
  {
  }

  // ----- reading -----

  /** Rounding is to the nearest integer, halves away from zero. */
  lemma RoundsNearest(x: real)
    ensures -0.5 <= Round(x) as real - x <= 0.5
    ensures Round(x) as real - x == 0.5 ==> x >= 0.0
    ensures Round(x) as real - x == -0.5 ==> x < 0.0
  {
  }

  /** Compounds and lists are handed to what rebuilds them; a kind above ten is refused. */
  lemma OtherKinds(s: Text, code: nat, cal: Calendar, nested: Rebuild)
    ensures code in [9, 10] ==> Reconstruct(s, code, cal, nested) == nested(s, code)
    ensures code > 10 ==> Reconstruct(s, code, cal, nested) == Err(UnknownType(code))
  {
    hide DecFromStr, ParseUnsigned, IsTrue;
  }

  /** A Boolean is read as true from `1` and from `true` in any case. */
  lemma TrueTexts(s: Text, cal: Calendar, nested: Rebuild)
    ensures Reconstruct(s, 6, cal, nested) == Ok(Lit(Bool(s == "1" || Lowered(s) == "true")))
  {
    LoweredTrue(s);
    hide IsTrue, Lowered;
  }

  function LowerCase(c: char): char {
    if 'A' <= c <= 'Z' then (c as int + 32) as char else c
  }

  function Lowered(s: Text): (r: Text)
    ensures |r| == |s| && forall i :: 0 <= i < |s| ==> r[i] == LowerCase(s[i])
  {
    if s == [] then [] else [LowerCase(s[0])] + Lowered(s[1..])
  }

  lemma LoweredTrue(s: Text)
    ensures IsTrue(s) <==> Lowered(s) == "true"
  {
    var r := Lowered(s);
    if |s| == 4 {
      assert r == "true" <==> r[0] == 't' && r[1] == 'r' && r[2] == 'u' && r[3] == 'e';
    }
  }

  /** Entries below zero are read as the end of a text, entries above one as the last pair of characters. */
  lemma OutOfRange(f: real)
    ensures f <= 0.0 ==> Decode2Chars(f) == (NUL, NUL)
    ensures f >= 1.0 ==> Decode2Chars(f) == (')', ')')
  {
    LastCharacter();
    hide CHARSET, IdxToChar;
    if f >= 1.0 {
      assert Clamp(f) == 1.0 && Round(4488.0) == 4488;
      assert 4488 / 67 % 67 == 66 && 4488 % 67 == 66;
    } else if f <= 0.0 {
      assert Clamp(f) == 0.0 && Round(0.0) == 0;
    }
  }

  lemma LastCharacter()
    ensures IdxToChar(66) == ')' && IdxToChar(0) == NUL
  {
    CharsetAt(65);
    OtherAt(13);
    hide OTHERS, UPPER, LOWER;
  }

  /** A vector whose scale has vanished decodes as the first registry entry without arguments. */
  lemma VanishedScale(v: seq<real>, registry: Registry, cal: Calendar, nested: Rebuild)
    requires |v| == 24 && -0.0000000001 < v[0] < 0.0000000001
    ensures Decode(v, registry, cal, nested)
         == if registry == [] then Err(UnknownMorpheme(0)) else Ok(Predicate(Name(registry[0]), [], []))
  {
    assert ReadHead(0.0) == 0 && ReadPacked(0.0) == 0 && UnpackCount(0) == 0;
    hide Reconstruct, DecodeString;
  }

  /** The operation divides by the norm unless that is below 10^-10, and adds the noise to every entry. */
  lemma OperationInNumbers(v: seq<real>, norm: real, i: nat)
    requires i < |v|
    ensures Operate(v, norm, 0.000001)[i] == (if norm < 0.0000000001 then v[i] else v[i] / norm) + 0.000001
  {
  }
}
