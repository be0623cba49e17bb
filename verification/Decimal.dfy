/** Decimal text: `Literal::dec_from_str` and the `Dec` case of `to_canonical_string`
    (`factum-core/src/types.rs`), with the integer texts the serializer and the parser share. */
module Decimal {
  import opened Types

  predicate IsDigit(c: char) {
    '0' <= c <= '9'
  }

  predicate AllDigits(s: Text) {
    forall i :: 0 <= i < |s| ==> IsDigit(s[i])
  }

  function DigitChar(d: nat): (c: char)
    requires d < 10
    ensures IsDigit(c) && c as int - '0' as int == d
  {
    ('0' as int + d) as char
  }

  /** The value of a digit string, whatever zeros it starts with. */
  function DigitsValue(s: Text): nat
    requires AllDigits(s)
  {
    if s == [] then 0
    else 10 * DigitsValue(s[..|s| - 1]) + (s[|s| - 1] as int - '0' as int)
  }

  /** `to_string` of an unsigned integer. */
  function NatText(n: nat): (s: Text)
    ensures |s| > 0 && AllDigits(s) && DigitsValue(s) == n
  {
    if n < 10 then
      var s := [DigitChar(n)];
      assert s[..0] == [];
      s
    else
      var s := NatText(n / 10) + [DigitChar(n % 10)];
      assert s[..|s| - 1] == NatText(n / 10);
      s
  }

  lemma {:induction false} LeadingZero(s: Text)
    requires AllDigits(s)
    ensures AllDigits(['0'] + s)
    ensures DigitsValue(['0'] + s) == DigitsValue(s)
  {
    if s == [] {
      assert (['0'] + s)[..0] == [];
    } else {
      LeadingZero(s[..|s| - 1]);
      assert (['0'] + s)[..|s|] == ['0'] + s[..|s| - 1];
    }
  }

  function Zeros(n: nat): (s: Text)
    ensures |s| == n && AllDigits(s)
  {
    if n == 0 then [] else ['0'] + Zeros(n - 1)
  }

  lemma {:induction false} LeadingZeros(n: nat, s: Text)
    requires AllDigits(s)
    ensures AllDigits(Zeros(n) + s) && DigitsValue(Zeros(n) + s) == DigitsValue(s)
  {
    if n == 0 {
      assert Zeros(n) + s == s;
    } else {
      assert Zeros(n) == ['0'] + Zeros(n - 1);
      hide *;
      LeadingZeros(n - 1, s);
      LeadingZero(Zeros(n - 1) + s);
      assert Zeros(n) + s == ['0'] + (Zeros(n - 1) + s);
    }
  }

  /** `parse::<u64>` and `parse::<u32>`: an optional `+`, at least one digit, a value below `limit`. */
  function ParseUnsigned(s: Text, limit: nat): Option<nat> {
    var digits := if |s| > 1 && s[0] == '+' then s[1..] else s;
    if digits != [] && AllDigits(digits) && DigitsValue(digits) < limit then Some(DigitsValue(digits)) else None
  }

  /** ASCII white space, as `trim` removes it. */
  predicate IsSpace(c: char) {
    c == ' ' || ('\t' <= c <= '\r')
  }

  function Trim(s: Text): (r: Text)
    ensures |r| <= |s|
    decreases |s|
  {
    if s != [] && IsSpace(s[0]) then Trim(s[1..])
    else if s != [] && IsSpace(s[|s| - 1]) then Trim(s[..|s| - 1])
    else s
  }

  function IndexOf(s: Text, c: char): (i: nat)
    ensures i <= |s|
    ensures i < |s| ==> s[i] == c
    ensures forall j :: 0 <= j < i ==> s[j] != c
  {
    if s == [] || s[0] == c then 0 else 1 + IndexOf(s[1..], c)
  }

  datatype DecimalError = InvalidDecimal | DecimalOverflow

  /** A decimal text taken apart: sign, digits before and after the first point. */
  datatype Parts = Parts(negative: bool, whole: Text, frac: Text)

  function Abs(x: int): nat {
    if x < 0 then -x else x
  }

  /** Multiplication by the parsed sign. */
  function Signed(negative: bool, magnitude: int): int {
    if negative then -magnitude else magnitude
  }

  /** The sign a text begins with. */
  function SignOf(t: Text): (sign: Text)
    ensures sign == "" || sign == "-" || sign == "+"
    ensures |sign| <= |t| && t == sign + t[|sign|..]
  {
    if t == [] then "" else if t[0] == '-' then "-" else if t[0] == '+' then "+" else ""
  }

  function Split(s: Text): Parts {
    var sign := SignOf(s);
    var rest := s[|sign|..];
    var dot := IndexOf(rest, '.');
    if dot < |rest| then Parts(sign == "-", rest[..dot], rest[dot + 1..]) else Parts(sign == "-", rest, [])
  }

  /** `Literal::dec_from_str`. The scale is the length of the fraction cut down to a `u8`. */
  function DecFromStr(text: Text): (r: Result<Literal, DecimalError>) {
    var p := Split(Trim(text));
    if p.whole == [] && p.frac == [] then Err(InvalidDecimal)
    else if !AllDigits(p.whole) || !AllDigits(p.frac) then Err(InvalidDecimal)
    else
      var magnitude := DigitsValue(p.whole + p.frac);
      if magnitude > I128_MAX then Err(InvalidDecimal)
      else Ok(Dec(Signed(p.negative, magnitude), |p.frac| % 256))
  }

  /** The digits of `magnitude` with a point `scale` places from the right. */
  function PointText(magnitude: nat, scale: nat): (s: Text) {
    var digits := NatText(magnitude);
    if scale == 0 then digits
    else if |digits| <= scale then "0." + Zeros(scale - |digits|) + digits
    else digits[..|digits| - scale] + "." + digits[|digits| - scale..]
  }

  /** The `Dec` case of `to_canonical_string`. */
  function DecText(mantissa: int, scale: nat): (s: Text) {
    if mantissa < 0 then "-" + PointText(-mantissa, scale) else PointText(mantissa, scale)
  }

  /** `whole` or `whole.frac`, all digits. */
  predicate IsPointText(s: Text, whole: Text, frac: Text) {
    && whole != [] && AllDigits(whole) && AllDigits(frac)
    && s == if frac == [] then whole else whole + "." + frac
  }

  /** The digits before and after the point of `PointText`. */
  function PointParts(magnitude: nat, scale: nat): (p: (Text, Text)) {
    var digits := NatText(magnitude);
    if scale == 0 then (digits, [])
    else if |digits| <= scale then (['0'], Zeros(scale - |digits|) + digits)
    else (digits[..|digits| - scale], digits[|digits| - scale..])
  }

  lemma PointPartsText(magnitude: nat, scale: nat)
    ensures var p := PointParts(magnitude, scale); IsPointText(PointText(magnitude, scale), p.0, p.1)
  {
    var digits := NatText(magnitude);
    if 0 < scale && |digits| <= scale {
      var zeros := Zeros(scale - |digits|);
      assert "0." + zeros + digits == ['0'] + "." + (zeros + digits);
    }
  }

  lemma PointPartsValue(magnitude: nat, scale: nat)
    ensures var p := PointParts(magnitude, scale);
            |p.1| == scale && AllDigits(p.0 + p.1) && DigitsValue(p.0 + p.1) == magnitude
  {
    var digits := NatText(magnitude);
    if scale == 0 {
      assert digits + [] == digits;
    } else if |digits| <= scale {
      LeadingZeros(scale - |digits|, digits);
      LeadingZero(Zeros(scale - |digits|) + digits);
    } else {
      assert digits[..|digits| - scale] + digits[|digits| - scale..] == digits;
    }
  }

  lemma SplitPointText(s: Text, whole: Text, frac: Text)
    requires IsPointText(s, whole, frac)
    ensures Split(s) == Parts(false, whole, frac)
    ensures Split("-" + s) == Parts(true, whole, frac)
    ensures Trim(s) == s && Trim("-" + s) == "-" + s
  {
    PointTextWritten(s, whole, frac);
    SplitWritten("", whole, frac);
    SplitWritten("-", whole, frac);
    WrittenEnds("", whole, frac);
    WrittenEnds("-", whole, frac);
    hide *;
    assert "" + s == s;
    TrimNothing(s);
    TrimNothing("-" + s);
  }

  lemma PointTextWritten(s: Text, whole: Text, frac: Text)
    requires IsPointText(s, whole, frac)
    ensures AllDigits(whole) && AllDigits(frac)
    ensures if frac == [] then s == whole else s == whole + ("." + frac)
  {
    hide AllDigits;
    assert whole + "." + frac == whole + ("." + frac);
  }

  lemma TrimNothing(t: Text)
    requires NoSpaceEnds(t)
    ensures Trim(t) == t
  {
  }

  lemma DecFromParts(text: Text, p: Parts, mantissa: I128)
    requires Split(Trim(text)) == p && p.whole != [] && AllDigits(p.whole) && AllDigits(p.frac)
    requires DigitsValue(p.whole + p.frac) == Abs(mantissa)
    requires p.negative == (mantissa < 0)
    ensures DecFromStr(text) == Ok(Dec(mantissa, |p.frac| % 256)) <==> mantissa != I128_MIN
  {
  }

  lemma DecTextParts(mantissa: int, scale: nat)
    ensures var (whole, frac) := PointParts(Abs(mantissa), scale);
            Split(Trim(DecText(mantissa, scale))) == Parts(mantissa < 0, whole, frac)
  {
    var magnitude := Abs(mantissa);
    var (whole, frac) := PointParts(magnitude, scale);
    PointPartsText(magnitude, scale);
    SplitPointText(PointText(magnitude, scale), whole, frac);
  }

  /** Parsing what was printed gives the literal back, exactly when the mantissa is not `i128::MIN`. */
  lemma DecRoundTrip(mantissa: I128, scale: U8)
    ensures DecFromStr(DecText(mantissa, scale)) == Ok(Dec(mantissa, scale)) <==> mantissa != I128_MIN
  {
    hide DecText, DecFromStr, Split, Trim, PointParts, PointText, DigitsValue, Abs;
    var p := PointParts(Abs(mantissa), scale);
    DecTextParts(mantissa, scale);
    PointPartsText(Abs(mantissa), scale);
    PointPartsValue(Abs(mantissa), scale);
    DecFromParts(DecText(mantissa, scale), Parts(mantissa < 0, p.0, p.1), mantissa);
  }

  // ----- which texts are decimals -----

  predicate AllSpace(s: Text) {
    forall i :: 0 <= i < |s| ==> s[i] == ' ' || '\t' <= s[i] <= '\r'
  }

  predicate NoSpaceEnds(t: Text) {
    t != [] ==> !IsSpace(t[0]) && !IsSpace(t[|t| - 1])
  }

  lemma {:induction false} TrimAfter(t: Text, b: Text)
    requires AllSpace(b) && NoSpaceEnds(t)
    ensures Trim(t + b) == t
    decreases |b|
  {
    var s := t + b;
    if b == [] {
      assert s == t;
    } else if t == [] {
      assert s == b && b[1..] == t + b[1..];
      TrimAfter(t, b[1..]);
    } else {
      assert s[..|s| - 1] == t + b[..|b| - 1];
      TrimAfter(t, b[..|b| - 1]);
    }
  }

  lemma {:induction false} TrimAround(a: Text, t: Text, b: Text)
    requires AllSpace(a) && AllSpace(b) && NoSpaceEnds(t)
    ensures Trim(a + (t + b)) == t
    decreases |a|
  {
    if a == [] {
      assert a + (t + b) == t + b;
      TrimAfter(t, b);
    } else {
      assert (a + (t + b))[1..] == a[1..] + (t + b);
      TrimAround(a[1..], t, b);
    }
  }

  lemma FirstPoint(w: Text, f: Text)
    requires AllDigits(w)
    ensures IndexOf(w + ("." + f), '.') == |w| && IndexOf(w, '.') == |w|
  {
    var s := w + ("." + f);
    assert s[|w|] == '.' && forall i :: 0 <= i < |w| ==> s[i] == w[i];
  }

  lemma PointParted(w: Text, f: Text)
    ensures var rest := w + ("." + f); |w| < |rest| && rest[..|w|] == w && rest[|w| + 1..] == f
  {
  }

  lemma NoSignFirst(sign: Text, w: Text, f: Text)
    requires (sign == "" || sign == "-" || sign == "+") && AllDigits(w)
    ensures SignOf(sign + (w + ("." + f))) == sign && SignOf(sign + w) == sign
  {
    hide SignOf;
    SignFirst(sign, w);
    assert (w + ("." + f))[0] == if w == [] then '.' else w[0];
    SignFirst(sign, w + ("." + f));
  }

  lemma SplitWritten(sign: Text, w: Text, f: Text)
    requires (sign == "" || sign == "-" || sign == "+") && AllDigits(w) && AllDigits(f)
    ensures Split(sign + (w + ("." + f))) == Parts(sign == "-", w, f)
    ensures Split(sign + w) == Parts(sign == "-", w, [])
  {
    hide *;
    FirstPoint(w, f);
    NoSignFirst(sign, w, f);
    SplitBehind(sign, w + ("." + f));
    SplitBehind(sign, w);
    PointParted(w, f);
  }

  lemma SplitBehind(sign: Text, rest: Text)
    requires SignOf(sign + rest) == sign
    ensures var dot := IndexOf(rest, '.');
            Split(sign + rest) == if dot < |rest| then Parts(sign == "-", rest[..dot], rest[dot + 1..])
                                  else Parts(sign == "-", rest, [])
  {
    hide SignOf, IndexOf;
    assert (sign + rest)[|sign|..] == rest;
  }

  lemma SignFirst(sign: Text, rest: Text)
    requires (sign == "" || sign == "-" || sign == "+") && (rest == [] || (rest[0] != '-' && rest[0] != '+'))
    ensures SignOf(sign + rest) == sign
  {
    if sign == "" {
      assert sign + rest == rest;
    } else {
      assert (sign + rest)[0] == sign[0];
    }
  }

  lemma WrittenEnds(sign: Text, w: Text, f: Text)
    requires (sign == "" || sign == "-" || sign == "+") && AllDigits(w) && AllDigits(f)
    ensures NoSpaceEnds(sign + (w + ("." + f))) && NoSpaceEnds(sign + w)
  {
  }

  lemma DigitsConcat(w: Text, f: Text)
    requires AllDigits(w) && AllDigits(f)
    ensures AllDigits(w + f) && w + [] == w && (w + f == [] <==> w == [] && f == [])
  {
  }

  /** What the digits `w` before and `f` behind the point say with a sign. */
  function Denoted(negative: bool, w: Text, f: Text): Result<Literal, DecimalError>
    requires AllDigits(w + f)
  {
    var magnitude: int := DigitsValue(w + f);
    if w + f == [] || magnitude > 0x7FFF_FFFF_FFFF_FFFF_FFFF_FFFF_FFFF_FFFF then Err(InvalidDecimal)
    else Ok(Dec(if negative then -magnitude else magnitude, |f| % 256))
  }

  lemma DenotedIs(text: Text, negative: bool, w: Text, f: Text)
    requires AllDigits(w) && AllDigits(f) && AllDigits(w + f) && Split(Trim(text)) == Parts(negative, w, f)
    ensures DecFromStr(text) == Denoted(negative, w, f)
  {
    hide Split, Trim, DigitsValue, AllDigits;
  }

  /** A decimal text: white space around it, a sign or none, digits, and perhaps a point and more digits, at least one
      in all. */
  lemma DecimalTexts(a: Text, sign: Text, w: Text, f: Text, b: Text)
    requires AllSpace(a) && AllSpace(b) && (sign == "" || sign == "-" || sign == "+") && AllDigits(w) && AllDigits(f)
    ensures AllDigits(w + f) && w + [] == w
    ensures DecFromStr(a + (sign + (w + ("." + f)) + b)) == Denoted(sign == "-", w, f)
    ensures DecFromStr(a + (sign + w + b)) == Denoted(sign == "-", w, [])
  {
    DigitsConcat(w, f);
    DigitsConcat(w, []);
    SplitWritten(sign, w, f);
    WrittenEnds(sign, w, f);
    hide *;
    TrimAround(a, sign + (w + ("." + f)), b);
    TrimAround(a, sign + w, b);
    DenotedIs(a + (sign + (w + ("." + f)) + b), sign == "-", w, f);
    NoDigits();
    DenotedIs(a + (sign + w + b), sign == "-", w, []);
  }

  lemma NoDigits()
    ensures AllDigits([])
  {
  }

  lemma DotSplits(rest: Text, dot: nat)
    requires dot < |rest| && rest[dot] == '.'
    ensures rest == rest[..dot] + ("." + rest[dot + 1..])
  {
  }

  lemma SplitRejoins(t: Text) returns (sign: Text)
    ensures var p := Split(t);
            && (sign == "" || sign == "-" || sign == "+") && (p.negative <==> sign == "-")
            && (t == sign + (p.whole + ("." + p.frac)) || (t == sign + p.whole && p.frac == []))
  {
    sign := SignOf(t);
    var rest := t[|sign|..];
    hide SignOf, IndexOf;
    assert sign + rest == t;
    if IndexOf(rest, '.') < |rest| {
      DotSplits(rest, IndexOf(rest, '.'));
    }
  }

  /** Nothing else is one. */
  lemma OnlyDecimalTexts(text: Text) returns (sign: Text, w: Text, f: Text)
    requires DecFromStr(text).Ok?
    ensures (sign == "" || sign == "-" || sign == "+") && AllDigits(w) && AllDigits(f)
    ensures Trim(text) == sign + (w + ("." + f)) || (Trim(text) == sign + w && f == [])
  {
    var p := Split(Trim(text));
    w, f := p.whole, p.frac;
    sign := SplitRejoins(Trim(text));
    hide Split, Trim, DigitsValue, AllDigits;
  }

  lemma ScoreIs(text: Text, negative: bool, w: Text, f: Text)
    requires AllDigits(w + f) && Split(text) == Parts(negative, w, f)
    ensures ParseScore(text)
         == if w + f == [] then None else Some(Normalize(Signed(negative, DigitsValue(w + f)), |f|))
  {
    hide Split, DigitsValue, Normalize, AllDigits;
  }

  /** A score, likewise without white space. */
  lemma ScoreTexts(sign: Text, w: Text, f: Text)
    requires (sign == "" || sign == "-" || sign == "+") && AllDigits(w) && AllDigits(f)
    ensures AllDigits(w + f)
    ensures ParseScore(sign + (w + ("." + f)))
         == if w + f == [] then None else Some(Normalize(Signed(sign == "-", DigitsValue(w + f)), |f|))
    ensures ParseScore(sign + w)
         == if w == [] then None else Some(Normalize(Signed(sign == "-", DigitsValue(w)), 0))
  {
    DigitsConcat(w, f);
    SplitWritten(sign, w, f);
    hide *;
    assert w + [] == w;
    ScoreIs(sign + (w + ("." + f)), sign == "-", w, f);
    ScoreIs(sign + w, sign == "-", w, []);
  }

  /** The number a split text denotes is `sign * digits / 10^|frac|`; two such fractions are compared
      by cross multiplication. */
  ghost predicate SameValue(m1: int, places1: nat, m2: int, places2: nat) {
    m1 * Pow10(places2) == m2 * Pow10(places1)
  }

  lemma {:induction false} Pow10Grows(a: nat, b: nat)
    requires a < b
    ensures Pow10(a) < Pow10(b)
    decreases b
  {
    if a < b - 1 {
      Pow10Grows(a, b - 1);
    }
  }

  /** What an accepted text was read as. */
  lemma DecFromStrReads(text: Text)
    requires DecFromStr(text).Ok?
    ensures var p := Split(Trim(text));
            && AllDigits(p.whole + p.frac)
            && DecFromStr(text).value.Dec?
            && DecFromStr(text).value.mantissa == Signed(p.negative, DigitsValue(p.whole + p.frac)) > I128_MIN
            && DecFromStr(text).value.scale == |p.frac| % 256
  {
  }

  /** An accepted text keeps its value exactly when it has at most 255 fraction digits or is zero;
      printing what was read then reaches a fixed point. */
  lemma DecFromStrKeepsValue(text: Text)
    requires DecFromStr(text).Ok?
    ensures var p := Split(Trim(text));
            var lit := DecFromStr(text).value;
            && lit.Dec? && AllDigits(p.whole + p.frac)
            && var number := Signed(p.negative, DigitsValue(p.whole + p.frac));
            && (SameValue(lit.mantissa, lit.scale, number, |p.frac|) <==> |p.frac| <= 255 || number == 0)
            && DecFromStr(DecText(lit.mantissa, lit.scale)) == Ok(lit)
  {
    hide DecText, DecFromStr, Split, Trim, DigitsValue, Pow10;
    DecFromStrReads(text);
    var p := Split(Trim(text));
    var lit := DecFromStr(text).value;
    DecRoundTrip(lit.mantissa, lit.scale);
    if |p.frac| > 255 {
      Pow10Grows(|p.frac| % 256, |p.frac|);
      ScaleMatters(lit.mantissa, Pow10(|p.frac| % 256), Pow10(|p.frac|));
    }
  }

  lemma ScaleMatters(m: int, a: int, b: int)
    requires a < b
    ensures m * a == m * b <==> m == 0
  {
    if m != 0 {
      assert m * (b - a) != 0;
    }
  }

  /** `format_f32_with_decimal`: a whole number keeps one decimal place. */
  function ScoreText(s: Score): Text {
    if s.places == 0 then DecText(10 * s.units, 1) else DecText(s.units, s.places)
  }

  /** The score with trailing zeros after the point dropped. */
  function Normalize(units: int, places: nat): (s: Score)
    ensures s.Normal()
    decreases places
  {
    if places > 0 && units % 10 == 0 then Normalize(units / 10, places - 1) else Score(units, places)
  }

  /** `parse::<f32>` of a number token. */
  function ParseScore(text: Text): Option<Score> {
    var p := Split(text);
    if AllDigits(p.whole + p.frac) && p.whole + p.frac != [] then
      Some(Normalize(Signed(p.negative, DigitsValue(p.whole + p.frac)), |p.frac|))
    else None
  }

  lemma DecTextSplits(units: int, places: nat)
    ensures var p := Split(DecText(units, places));
            && p.negative == (units < 0) && |p.frac| == places && p.whole + p.frac != []
            && AllDigits(p.whole + p.frac) && DigitsValue(p.whole + p.frac) == Abs(units)
  {
    hide DecText, Split, Trim, PointParts, PointText, DigitsValue;
    var (whole, frac) := PointParts(Abs(units), places);
    PointPartsText(Abs(units), places);
    PointPartsValue(Abs(units), places);
    SplitDecText(units, places);
  }

  lemma SplitDecText(units: int, places: nat)
    ensures var (whole, frac) := PointParts(Abs(units), places);
            Split(DecText(units, places)) == Parts(units < 0, whole, frac)
  {
    var (whole, frac) := PointParts(Abs(units), places);
    PointPartsText(Abs(units), places);
    SplitPointText(PointText(Abs(units), places), whole, frac);
  }

  /** A score is read back from its text. */
  lemma ScoreRoundTrip(s: Score)
    requires s.Normal()
    ensures ParseScore(ScoreText(s)) == Some(s)
  {
    hide DecText, Split, DigitsValue;
    if s.places == 0 {
      DecTextSplits(10 * s.units, 1);
      assert 10 * s.units / 10 == s.units;
    } else {
      DecTextSplits(s.units, s.places);
    }
  }
}
