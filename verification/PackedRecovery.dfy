/** What the packed codec recovers after normalizing and noise: a real error bound against rounding half-steps. */
module PackedRecovery {
  import opened Types
  import opened Decimal
  import opened Serialize
  import opened PackedCodec

  // ----- real arithmetic -----

  lemma Cancel(a: real, b: real, c: real)
    requires c > 0.0
    ensures a * c <= b * c <==> a <= b
    ensures a * c < b * c <==> a < b
    ensures a * c == b * c <==> a == b
  {
  }

  lemma DivTimes(a: real, c: real)
    requires c > 0.0
    ensures a / c * c == a
  {
  }

  lemma SquareDifference(a: real, b: real)
    ensures (a - b) * (a + b) == a * a - b * b
  {
  }

  lemma PositiveTimes(a: real, b: real)
    requires a > 0.0 && b > 0.0
    ensures a * b > 0.0
  {
  }

  lemma SquareGrows(a: real, b: real)
    requires a > b >= 0.0
    ensures a * a > b * b
  {
    SquareDifference(a, b);
    PositiveTimes(a - b, a + b);
  }

  lemma RootBound(n: real, b: real)
    requires n >= 0.0 && b >= 0.0 && n * n <= b * b
    ensures n <= b
  {
    if n > b {
      SquareGrows(n, b);
    }
  }

  /** What is left of a value after normalizing, adding noise and dividing by the scale reference; `d` is the noise
      times the norm. */
  function Blur(x: real, d: real): real
    requires d >= 0.0
  {
    (x + d) / (1.0 + d)
  }

  lemma BlurTimes(x: real, d: real)
    requires d >= 0.0
    ensures Blur(x, d) * (1.0 + d) == x + d
  {
    DivTimes(x + d, 1.0 + d);
  }

  lemma Ratio(x: real, norm: real, noise: real)
    requires norm > 0.0 && noise >= 0.0
    ensures noise * norm >= 0.0 && 1.0 / norm + noise > 0.0
    ensures (x / norm + noise) / (1.0 / norm + noise) == Blur(x, noise * norm)
  {
    var d := noise * norm;
    Positive(norm, noise);
    var scale := 1.0 / norm + noise;
    Scaled(x, norm, noise);
    Scaled(1.0, norm, noise);
    DivTimes(x / norm + noise, scale);
    BlurTimes(x, d);
    var r := (x / norm + noise) / scale;
    Regroup(r, scale, norm);
    Cancel(r, Blur(x, d), 1.0 + d);
  }

  lemma Positive(norm: real, noise: real)
    requires norm > 0.0 && noise >= 0.0
    ensures noise * norm >= 0.0 && 1.0 / norm > 0.0
  {
    DivTimes(1.0, norm);
    Cancel(0.0, 1.0 / norm, norm);
  }

  lemma Scaled(x: real, norm: real, noise: real)
    requires norm > 0.0
    ensures (x / norm + noise) * norm == x + noise * norm
  {
    DivTimes(x, norm);
  }

  lemma Regroup(r: real, s: real, n: real)
    ensures r * s * n == r * (s * n)
  {
  }

  // ----- rounding -----

  lemma RoundNear(v: real, k: nat)
    requires k as real - 0.5 <= v < k as real + 0.5
    ensures AtLeastZero(Round(v)) == k
    ensures v >= 0.0 ==> Round(v) == k
  {
  }

  /** The value `k` of a field stored as `k / scale` survives when the error `d * |scale - k|` stays under half a
      step. */
  lemma FieldSurvives(k: nat, scale: real, d: real)
    requires d >= 0.0 && scale >= 1.0
    requires d * (scale - k as real) < 0.5 && d * (k as real - scale) < 0.5
    ensures k as real - 0.5 < Blur(k as real / scale, d) * scale < k as real + 0.5
  {
    var v := Blur(k as real / scale, d) * scale;
    FieldValue(k as real, scale, d);
    var kr := k as real;
    assert (kr - 0.5) * (1.0 + d) == kr + d * kr - 0.5 - 0.5 * d;
    assert (kr + 0.5) * (1.0 + d) == kr + d * kr + 0.5 + 0.5 * d;
    assert d * (scale - kr) == d * scale - d * kr;
    assert d * (kr - scale) == d * kr - d * scale;
    Cancel(kr - 0.5, v, 1.0 + d);
    Cancel(v, kr + 0.5, 1.0 + d);
  }

  lemma FieldValue(k: real, scale: real, d: real)
    requires d >= 0.0 && scale >= 1.0
    ensures Blur(k / scale, d) * scale * (1.0 + d) == k + d * scale
  {
    BlurTimes(k / scale, d);
    DivTimes(k, scale);
    var b := Blur(k / scale, d);
    Commute(b, scale, 1.0 + d);
    assert (k / scale + d) * scale == k / scale * scale + d * scale;
  }

  lemma Commute(b: real, s: real, t: real)
    ensures b * s * t == b * t * s
  {
  }

  lemma FieldRecovered(k: nat, scale: real, d: real)
    requires d >= 0.0 && scale >= 1.0
    requires d * (scale - k as real) < 0.5 && d * (k as real - scale) < 0.5
    ensures AtLeastZero(Round(Blur(k as real / scale, d) * scale)) == k
  {
    FieldSurvives(k, scale, d);
    RoundNear(Blur(k as real / scale, d) * scale, k);
  }

  /** A field whose value is at most its scale survives when `d * scale` is under half a step. */
  lemma SmallField(k: nat, scale: real, d: real)
    requires d >= 0.0 && scale >= 1.0 && k as real <= scale && d * scale < 0.5
    ensures d * (scale - k as real) < 0.5 && d * (k as real - scale) < 0.5
  {
    assert d * (scale - k as real) == d * scale - d * k as real;
    assert d * k as real >= 0.0;
    assert d * (k as real - scale) <= 0.0;
  }

  // ----- strings -----

  /** The longest prefix of at most `n` characters of the character set. */
  function Kept(s: Text, n: nat): Text
    decreases n
  {
    if n == 0 || s == [] || s[0] !in CHARSET then [] else [s[0]] + Kept(s[1..], n - 1)
  }

  function BlurAll(v: seq<real>, d: real): (r: seq<real>)
    requires d >= 0.0
    ensures |r| == |v| && forall i :: 0 <= i < |v| ==> r[i] == Blur(v[i], d)
  {
    if v == [] then [] else [Blur(v[0], d)] + BlurAll(v[1..], d)
  }

  function Shown(c: char): char {
    if c in CHARSET then c else NUL
  }

  lemma BlurInUnit(x: real, d: real)
    requires 0.0 <= x <= 1.0 && d >= 0.0
    ensures 0.0 <= Blur(x, d) <= 1.0
  {
    BlurTimes(x, d);
    Cancel(0.0, Blur(x, d), 1.0 + d);
    Cancel(Blur(x, d), 1.0, 1.0 + d);
  }

  lemma PairInUnit(k: nat)
    requires k <= 4488
    ensures 0.0 <= k as real / MAX_ENCODED <= 1.0
  {
  }

  lemma CodeRecovered(k: nat, d: real)
    requires k <= 4488 && 0.0 <= d && d * MAX_ENCODED < 0.5
    ensures Round(Clamp(Blur(k as real / MAX_ENCODED, d)) * MAX_ENCODED) == k
  {
    PairInUnit(k);
    BlurInUnit(k as real / MAX_ENCODED, d);
    SmallField(k, MAX_ENCODED, d);
    FieldSurvives(k, MAX_ENCODED, d);
    NonNegative(Blur(k as real / MAX_ENCODED, d), MAX_ENCODED);
    RoundNear(Blur(k as real / MAX_ENCODED, d) * MAX_ENCODED, k);
    hide Blur, Round;
  }

  lemma NonNegative(a: real, b: real)
    requires a >= 0.0 && b >= 0.0
    ensures a * b >= 0.0
  {
  }

  lemma Digits(a: nat, b: nat)
    requires a < 67 && b < 67
    ensures (a * 67 + b) / 67 % 67 == a && (a * 67 + b) % 67 == b
  {
  }

  lemma CharRecovered(c: char)
    ensures IdxToChar(CharToIdx(c)) == Shown(c)
  {
    hide CharToIdx;
    assert |CHARSET| == 66;
  }

  lemma PairCodeIs(c1: char, c2: char)
    ensures PairCode(c1, c2) == CharToIdx(c1) * 67 + CharToIdx(c2)
  {
    hide CharToIdx;
  }

  lemma PairDigits(c1: char, c2: char)
    ensures IdxToChar(PairCode(c1, c2) / 67 % 67) == Shown(c1)
    ensures IdxToChar(PairCode(c1, c2) % 67) == Shown(c2)
  {
    hide *;
    PairCodeIs(c1, c2);
    Digits(CharToIdx(c1), CharToIdx(c2));
    CharRecovered(c1);
    CharRecovered(c2);
  }

  lemma Decode2Is(f: real, k: nat)
    requires Round(Clamp(f) * MAX_ENCODED) == k
    ensures Decode2Chars(f) == (IdxToChar(k / 67 % 67), IdxToChar(k % 67))
  {
    hide Round, Clamp, IdxToChar;
  }

  lemma Encode2Is(c1: char, c2: char)
    ensures Encode2Chars(c1, c2) == PairCode(c1, c2) as real / MAX_ENCODED
  {
    hide PairCode;
  }

  /** A pair of characters is read back, characters outside the set as sentinels. */
  lemma PairRecovered(c1: char, c2: char, d: real)
    requires 0.0 <= d && d * 4488.0 < 0.5
    ensures Decode2Chars(Blur(Encode2Chars(c1, c2), d)) == (Shown(c1), Shown(c2))
  {
    assert MAX_ENCODED == 4488.0;
    hide *;
    Encode2Is(c1, c2);
    CodeRecovered(PairCode(c1, c2), d);
    Decode2Is(Blur(Encode2Chars(c1, c2), d), PairCode(c1, c2));
    PairDigits(c1, c2);
  }

  lemma EncodeCons(s: Text, floats: nat, d: real)
    requires floats > 0 && d >= 0.0
    ensures BlurAll(EncodeString(s, floats), d)
         == [Blur(Encode2Chars(CharAt(s, 0), CharAt(s, 1)), d)] + BlurAll(EncodeString(Skip(s, 2), floats - 1), d)
  {
    hide Encode2Chars, Blur;
    var first, rest := Encode2Chars(CharAt(s, 0), CharAt(s, 1)), EncodeString(Skip(s, 2), floats - 1);
    assert ([first] + rest)[1..] == rest;
  }

  lemma DecodeCons(f: real, fs: seq<real>, c1: char, c2: char)
    requires Decode2Chars(f) == (c1, c2)
    ensures DecodeString([f] + fs) == if c1 == NUL then [] else if c2 == NUL then [c1] else [c1, c2] + DecodeString(fs)
  {
    hide Decode2Chars;
    assert ([f] + fs)[1..] == fs;
  }

  lemma KeptTwo(s: Text, n: nat)
    requires n >= 2
    ensures Kept(s, n)
         == if Shown(CharAt(s, 0)) == NUL then []
            else if Shown(CharAt(s, 1)) == NUL then [CharAt(s, 0)]
            else [CharAt(s, 0), CharAt(s, 1)] + Kept(Skip(s, 2), n - 2)
  {
    NulNotInSet();
    if |s| >= 2 {
      assert s[1..][1..] == s[2..] && s[1..][0] == s[1];
      Pairs(s[0], s[1], Kept(s[2..], n - 2));
    }
  }

  lemma Pairs(a: char, b: char, rest: Text)
    ensures [a] + ([b] + rest) == [a, b] + rest
  {
  }

  lemma NulNotInSet()
    ensures NUL !in CHARSET
  {
    assert NUL !in UPPER by {
      NulNotInLetters();
    }
    assert NUL !in LOWER by {
      NulNotInLetters();
    }
    assert NUL !in OTHERS by {
      NulNotInOthers();
    }
    hide UPPER, LOWER, OTHERS;
  }

  lemma NulNotInLetters()
    ensures NUL !in UPPER && NUL !in LOWER
  {
    hide CHARSET;
  }

  lemma NulNotInOthers()
    ensures NUL !in OTHERS
  {
    hide CHARSET, UPPER, LOWER;
  }

  lemma StringStep(s: Text, floats: nat, d: real)
    requires 0.0 <= d && d * 4488.0 < 0.5 && floats > 0
    ensures DecodeString(BlurAll(EncodeString(s, floats), d))
         == if Shown(CharAt(s, 0)) == NUL then []
            else if Shown(CharAt(s, 1)) == NUL then [Shown(CharAt(s, 0))]
            else
              [Shown(CharAt(s, 0)), Shown(CharAt(s, 1))]
              + DecodeString(BlurAll(EncodeString(Skip(s, 2), floats - 1), d))
  {
    hide *;
    var c1, c2 := CharAt(s, 0), CharAt(s, 1);
    EncodeCons(s, floats, d);
    PairRecovered(c1, c2, d);
    DecodeCons(Blur(Encode2Chars(c1, c2), d), BlurAll(EncodeString(Skip(s, 2), floats - 1), d), Shown(c1), Shown(c2));
  }

  /** Whatever the text, decoding its blurred encoding gives its longest prefix of charset characters that fits. */
  lemma {:induction false} StringRecovered(s: Text, floats: nat, d: real)
    requires 0.0 <= d && d * 4488.0 < 0.5
    ensures DecodeString(BlurAll(EncodeString(s, floats), d)) == Kept(s, 2 * floats)
    decreases floats
  {
    hide *;
    if floats == 0 {
      NothingEncoded(s, d);
    } else {
      StringStep(s, floats, d);
      StringRecovered(Skip(s, 2), floats - 1, d);
      Doubled(floats);
      KeptTwo(s, 2 * floats);
      ShownIs(CharAt(s, 0));
      ShownIs(CharAt(s, 1));
    }
  }

  lemma Doubled(n: nat)
    requires n > 0
    ensures 2 * n >= 2 && 2 * (n - 1) == 2 * n - 2
  {
  }

  lemma ShownIs(c: char)
    ensures Shown(c) == c || Shown(c) == NUL
  {
    hide CHARSET;
  }

  lemma NothingEncoded(s: Text, d: real)
    requires d >= 0.0
    ensures DecodeString(BlurAll(EncodeString(s, 0), d)) == Kept(s, 0)
  {
  }

  // ----- the whole vector -----

  lemma BlurConcat(a: seq<real>, b: seq<real>, d: real)
    requires d >= 0.0
    ensures BlurAll(a + b, d) == BlurAll(a, d) + BlurAll(b, d)
  {
    hide Blur, BlurAll;
    var whole, parts := BlurAll(a + b, d), BlurAll(a, d) + BlurAll(b, d);
    forall i | 0 <= i < |whole| ensures whole[i] == parts[i] {
      assert (a + b)[i] == if i < |a| then a[i] else b[i - |a|];
    }
  }

  /** Dividing by the scale reference undoes the normalization but for the blur. */
  lemma RecoverOperated(v: seq<real>, norm: real, noise: real)
    requires |v| == DIM && v[0] == 1.0 && norm >= TINY && noise >= 0.0
    requires noise >= TINY || 1.0 / norm >= TINY
    ensures noise * norm >= 0.0 && Recover(Operate(v, norm, noise)) == BlurAll(v, noise * norm)
  {
    var out := Operate(v, norm, noise);
    Ratio(1.0, norm, noise);
    Positive(norm, noise);
    assert out[0] == 1.0 / norm + noise;
    var r := Recover(out);
    forall i | 0 <= i < DIM ensures r[i] == BlurAll(v, noise * norm)[i] {
      Ratio(v[i], norm, noise);
      assert out[i] == v[i] / norm + noise;
    }
  }

  lemma {:induction false} SumConcat(a: seq<real>, b: seq<real>)
    ensures SumSquares(a + b) == SumSquares(a) + SumSquares(b)
  {
    if a == [] {
      assert a + b == b;
    } else {
      SumConcat(a[1..], b);
      assert (a + b)[1..] == a[1..] + b;
    }
  }

  lemma SquareIn(x: real)
    requires 0.0 <= x <= 1.1
    ensures 0.0 <= x * x <= 1.21
  {
    NonNegative(x, x);
    NonNegative(1.1 - x, 1.1 + x);
    SquareDifference(1.1, x);
  }

  lemma {:induction false} SumIn(v: seq<real>)
    requires forall i :: 0 <= i < |v| ==> 0.0 <= v[i] <= 1.1
    ensures 0.0 <= SumSquares(v) <= 1.21 * |v| as real
  {
    if v != [] {
      SumIn(v[1..]);
      SquareIn(v[0]);
    }
  }

  ghost predicate InUnit(x: real) {
    0.0 <= x <= 1.0
  }

  ghost predicate Entries(v: seq<real>) {
    forall i :: 0 <= i < |v| ==> 0.0 <= v[i] <= 1.1
  }

  lemma EntriesConcat(a: seq<real>, b: seq<real>)
    requires Entries(a) && Entries(b)
    ensures Entries(a + b)
  {
  }

  lemma PairEntry(c1: char, c2: char)
    ensures 0.0 <= Encode2Chars(c1, c2) <= 1.1
  {
    PairInUnit(PairCode(c1, c2));
    hide PairCode;
  }

  lemma {:induction false} StringEntries(s: Text, floats: nat)
    ensures Entries(EncodeString(s, floats))
    decreases floats
  {
    hide Encode2Chars;
    if floats > 0 {
      StringEntries(Skip(s, 2), floats - 1);
      PairEntry(CharAt(s, 0), CharAt(s, 1));
      assert Entries([Encode2Chars(CharAt(s, 0), CharAt(s, 1))]);
    }
  }

  lemma PackedEntry(k: nat)
    requires k <= 5323
    ensures 0.0 <= k as real / PACK_SCALE <= 1.1
  {
  }

  lemma PackedSlotEntry(p: Predicate, cal: Calendar)
    ensures 0.0 <= PackedSlot(p, cal) <= 1.1
  {
    hide PackedArgs;
    PackedEntry(PackedArgs(p, cal));
  }

  lemma NamedEntry(p: Predicate, cal: Calendar)
    ensures 0.0 <= NamedMark(p, cal) <= 1.1
  {
    hide TermValue;
  }

  lemma BodyEntries(p: Predicate, conf: real, auth: real, cal: Calendar)
    requires InUnit(conf) && InUnit(auth)
    ensures Entries(BodySlots(p, conf, auth, cal))
  {
    hide EncodeString, PackedSlot, NamedMark, ArgText, Entries;
    PackedSlotEntry(p, cal);
    NamedEntry(p, cal);
    StringEntries(ArgText(p, 0, cal), ARG_FLOATS);
    StringEntries(ArgText(p, 1, cal), ARG_FLOATS);
    StringEntries(ArgText(p, 2, cal), ARG_FLOATS);
    SmallEntries(PackedSlot(p, cal), NamedMark(p, cal), conf, auth);
    var c := EncodeString(ArgText(p, 2, cal), ARG_FLOATS);
    var b := EncodeString(ArgText(p, 1, cal), ARG_FLOATS);
    var a := EncodeString(ArgText(p, 0, cal), ARG_FLOATS);
    var tail := [NamedMark(p, cal), conf, auth];
    EntriesConcat(c, tail);
    EntriesConcat(b, c + tail);
    EntriesConcat(a, b + (c + tail));
    EntriesConcat([PackedSlot(p, cal)], a + (b + (c + tail)));
  }

  lemma SmallEntries(packed: real, named: real, conf: real, auth: real)
    requires 0.0 <= packed <= 1.1 && 0.0 <= named <= 1.1 && InUnit(conf) && InUnit(auth)
    ensures Entries([packed]) && Entries([named, conf, auth])
  {
  }

  /** The norm of an encoded predicate, by its head. */
  lemma NormSquared(p: Predicate, conf: real, auth: real, registry: Registry, cal: Calendar, norm: real)
    requires InUnit(conf) && InUnit(auth) && IsNorm(Encode(p, conf, auth, registry, cal), norm)
    ensures var h := HeadSlot(registry, p.head); 1.0 + h * h <= norm * norm <= 27.62 + h * h
  {
    hide HeadSlot, BodySlots;
    var h, body := HeadSlot(registry, p.head), BodySlots(p, conf, auth, cal);
    BodyEntries(p, conf, auth, cal);
    SumIn(body);
    SumConcat([1.0, h], body);
    TwoSquares(h);
    hide SumSquares;
    assert |body| as real == 22.0;
  }

  lemma TwoSquares(h: real)
    ensures SumSquares([1.0, h]) == 1.0 + h * h
  {
    assert [1.0, h][1..] == [h] && [h][1..] == [];
    assert SumSquares([h]) == h * h + SumSquares([]);
    assert SumSquares([1.0, h]) == 1.0 * 1.0 + SumSquares([h]);
  }

  lemma HeadSlotBound(registry: Registry, head: Head)
    ensures HeadSlot(registry, head) * 300.0 == HeadIndex(registry, head) as real && HeadSlot(registry, head) >= 0.0
  {
    hide HeadIndex;
  }

  lemma SlotSquare(h: real)
    requires 0.0 <= h <= 40.0
    ensures 0.0 <= h * h <= 1600.0
  {
    NonNegative(h, h);
    NonNegative(40.0 - h, 40.0 + h);
    SquareDifference(40.0, h);
  }

  lemma NormBetween(norm: real, s: real)
    requires norm >= 0.0 && 0.0 <= s <= 1600.0 && 1.0 + s <= norm * norm <= 27.62 + s
    ensures 1.0 <= norm <= 40.35
  {
    RootBound(norm, 40.35);
    RootBound(1.0, norm);
  }

  /** Heads up to index 12000 keep the norm below 40.35. */
  lemma NormBounded(p: Predicate, conf: real, auth: real, registry: Registry, cal: Calendar, norm: real)
    requires InUnit(conf) && InUnit(auth) && IsNorm(Encode(p, conf, auth, registry, cal), norm)
    requires HeadIndex(registry, p.head) <= 12000
    ensures 1.0 <= norm <= 40.35
  {
    hide *;
    var h := HeadSlot(registry, p.head);
    NormSquared(p, conf, auth, registry, cal, norm);
    HeadSlotBound(registry, p.head);
    SlotSquare(h);
    NormIsNotNegative(Encode(p, conf, auth, registry, cal), norm);
    NormBetween(norm, h * h);
  }

  lemma NormIsNotNegative(v: seq<real>, norm: real)
    requires IsNorm(v, norm)
    ensures norm >= 0.0
  {
  }

  // ----- the head -----

  /** The index decoded from a head slot. */
  function DecodedIndex(k: nat, d: real): nat
    requires d >= 0.0
  {
    AtLeastZero(Round(Blur(k as real / 300.0, d) * 300.0))
  }

  /** The condition under which a head index survives a blur. */
  predicate Survives(k: nat, d: real) {
    d * (k as real - 300.5) <= 0.5 && d * (299.5 - k as real) < 0.5
  }

  lemma RoundIff(v: real, k: nat)
    requires v >= 0.0
    ensures AtLeastZero(Round(v)) == k <==> k as real - 0.5 <= v < k as real + 0.5
  {
  }

  /** A head index survives exactly under that condition. */
  lemma HeadExact(k: nat, d: real)
    requires d >= 0.0
    ensures DecodedIndex(k, d) == k <==> Survives(k, d)
  {
    var kr := k as real;
    var v := Blur(kr / 300.0, d) * 300.0;
    FieldValue(kr, 300.0, d);
    hide Blur, Round;
    Within(v, kr, d);
    RoundIff(v, k);
  }

  /** Comparing two numbers by their products with a positive third. */
  lemma ByProduct(x: real, y: real, m: real, xm: real, ym: real)
    requires m > 0.0 && xm == x * m && ym == y * m
    ensures x <= y <==> xm <= ym
    ensures x < y <==> xm < ym
  {
    Cancel(x, y, m);
  }

  lemma Within(v: real, k: real, d: real)
    requires d >= 0.0 && k >= 0.0 && v * (1.0 + d) == k + d * 300.0
    ensures v >= 0.0
    ensures k - 0.5 <= v <==> d * (k - 300.5) <= 0.5
    ensures v < k + 0.5 <==> d * (299.5 - k) < 0.5
  {
    Expand(k, d);
    var m := 1.0 + d;
    ByProduct(0.0, v, m, 0.0, k + d * 300.0);
    ByProduct(k - 0.5, v, m, k + d * 300.0 - 0.5 + d * (k - 300.5), k + d * 300.0);
    ByProduct(v, k + 0.5, m, k + d * 300.0, k + d * 300.0 + 0.5 - d * (299.5 - k));
  }

  lemma Expand(k: real, d: real)
    ensures (k - 0.5) * (1.0 + d) == k + d * 300.0 - 0.5 + d * (k - 300.5)
    ensures (k + 0.5) * (1.0 + d) == k + d * 300.0 + 0.5 - d * (299.5 - k)
  {
  }

  lemma SmallIndexSurvives(k: nat, d: real)
    requires k <= 12000 && 0.0 <= d <= 0.00004035
    ensures Survives(k, d)
  {
    var kr := k as real;
    assert d * (kr - 300.5) == d * kr - d * 300.5;
    assert d * (299.5 - kr) == d * 299.5 - d * kr;
    NonNegative(d, 12000.0 - kr);
    assert d * (12000.0 - kr) == d * 12000.0 - d * kr;
    NonNegative(d, kr);
  }

  lemma FarNorm(h: real, k: real, norm: real)
    requires h * 300.0 == k && k >= 12500.0 && norm >= 0.0 && 1.0 + h * h <= norm * norm
    ensures 0.000001 * norm >= 0.0000416
  {
    RootBound(h, norm);
  }

  /** From index 12500 on the benchmark's noise always turns the head into another one. */
  lemma LargeIndexLost(p: Predicate, conf: real, auth: real, registry: Registry, cal: Calendar, norm: real)
    requires InUnit(conf) && InUnit(auth) && IsNorm(Encode(p, conf, auth, registry, cal), norm)
    requires HeadIndex(registry, p.head) >= 12500
    ensures 0.000001 * norm >= 0.0
    ensures DecodedIndex(HeadIndex(registry, p.head), 0.000001 * norm) != HeadIndex(registry, p.head)
  {
    hide *;
    var k := HeadIndex(registry, p.head);
    NormSquared(p, conf, auth, registry, cal, norm);
    HeadSlotBound(registry, p.head);
    NormIsNotNegative(Encode(p, conf, auth, registry, cal), norm);
    FarNorm(HeadSlot(registry, p.head), k as real, norm);
    FarIndexLost(k, 0.000001 * norm);
  }

  lemma FarIndexLost(k: nat, d: real)
    requires k >= 12500 && d >= 0.0000416
    ensures DecodedIndex(k, d) != k
  {
    hide *;
    TooFar(k as real, d);
    HeadExact(k, d);
    LostWhen(k, d);
  }

  lemma TooFar(k: real, d: real)
    requires k >= 12500.0 && d >= 0.0000416
    ensures d * (k - 300.5) > 0.5
  {
    NonNegative(d - 0.0000416, k - 300.5);
    assert (d - 0.0000416) * (k - 300.5) == d * (k - 300.5) - 0.0000416 * (k - 300.5);
  }

  lemma LostWhen(k: nat, d: real)
    requires d * (k as real - 300.5) > 0.5
    ensures !Survives(k, d)
  {
  }
}
