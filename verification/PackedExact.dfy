/** The packed codec's round trip: exactly what decoding returns after normalizing and noise. */
module PackedExact {
  import opened Types
  import opened Decimal
  import opened Serialize
  import opened PackedCodec
  import opened PackedRecovery
  import Printing

  // ----- the type codes -----

  lemma CodesUnpacked(count: nat, t1: nat, t2: nat, t3: nat)
    requires count <= 3 && t1 <= 10 && t2 <= 10 && t3 <= 10
    ensures UnpackCount(PackCode(count, t1, t2, t3)) == count
    ensures UnpackCode(PackCode(count, t1, t2, t3), 0) == t1
    ensures UnpackCode(PackCode(count, t1, t2, t3), 1) == t2
    ensures UnpackCode(PackCode(count, t1, t2, t3), 2) == t3
  {
    var rest := t1 * 121 + t2 * 11 + t3;
    assert PackCode(count, t1, t2, t3) == count * 1331 + rest && rest < 1331;
    assert PackCode(count, t1, t2, t3) / 1331 == count && PackCode(count, t1, t2, t3) % 1331 == rest;
    assert rest / 121 == t1 && rest / 11 == t1 * 11 + t2 && rest % 11 == t3;
  }

  lemma PackedUnpacked(p: Predicate, cal: Calendar)
    ensures UnpackCount(PackedArgs(p, cal)) == ArgCount(p)
    ensures UnpackCode(PackedArgs(p, cal), 0) == ArgCode(p, 0, cal)
    ensures UnpackCode(PackedArgs(p, cal), 1) == ArgCode(p, 1, cal)
    ensures UnpackCode(PackedArgs(p, cal), 2) == ArgCode(p, 2, cal)
  {
    hide PackCode, UnpackCode, UnpackCount, ArgCode, ArgCount;
    CodesUnpacked(ArgCount(p), ArgCode(p, 0, cal), ArgCode(p, 1, cal), ArgCode(p, 2, cal));
  }

  // ----- the slots -----

  lemma Layout(x0: real, x1: real, x2: real, a: seq<real>, b: seq<real>, c: seq<real>, tail: seq<real>)
    requires |a| == 6 && |b| == 6 && |c| == 6 && |tail| == 3
    ensures var r := [x0, x1] + ([x2] + (a + (b + (c + tail))));
            |r| == 24 && r[1] == x1 && r[2] == x2 && r[3..9] == a && r[9..15] == b && r[15..21] == c
  {
  }

  lemma BlurOne(x: real, d: real)
    requires d >= 0.0
    ensures BlurAll([x], d) == [Blur(x, d)]
  {
    hide Blur;
  }

  lemma BlurTwo(x: real, y: real, d: real)
    requires d >= 0.0
    ensures BlurAll([x, y], d) == [Blur(x, d), Blur(y, d)]
  {
    hide Blur;
  }

  /** Where the blurred slots end up. */
  lemma Slots(p: Predicate, conf: real, auth: real, registry: Registry, cal: Calendar, d: real)
    requires d >= 0.0
    ensures var r := BlurAll(Encode(p, conf, auth, registry, cal), d);
            && |r| == 24
            && r[1] == Blur(HeadSlot(registry, p.head), d)
            && r[2] == Blur(PackedSlot(p, cal), d)
            && r[3..9] == BlurAll(EncodeString(ArgText(p, 0, cal), 6), d)
            && r[9..15] == BlurAll(EncodeString(ArgText(p, 1, cal), 6), d)
            && r[15..21] == BlurAll(EncodeString(ArgText(p, 2, cal), 6), d)
  {
    EncodeIs(p, conf, auth, registry, cal);
    hide *;
    var h, k := HeadSlot(registry, p.head), PackedSlot(p, cal);
    var a := EncodeString(ArgText(p, 0, cal), 6);
    var b := EncodeString(ArgText(p, 1, cal), 6);
    var c := EncodeString(ArgText(p, 2, cal), 6);
    var tail := [NamedMark(p, cal), conf, auth];
    BlurTwo(1.0, h, d);
    BlurOne(k, d);
    BlurConcat(c, tail, d);
    BlurConcat(b, c + tail, d);
    BlurConcat(a, b + (c + tail), d);
    BlurConcat([k], a + (b + (c + tail)), d);
    BlurConcat([1.0, h], [k] + (a + (b + (c + tail))), d);
    Layout(Blur(1.0, d), Blur(h, d), Blur(k, d), BlurAll(a, d), BlurAll(b, d), BlurAll(c, d), BlurAll(tail, d));
  }

  lemma EncodeIs(p: Predicate, conf: real, auth: real, registry: Registry, cal: Calendar)
    ensures Encode(p, conf, auth, registry, cal)
         == [1.0, HeadSlot(registry, p.head)]
            + ([PackedSlot(p, cal)]
               + (EncodeString(ArgText(p, 0, cal), 6)
                  + (EncodeString(ArgText(p, 1, cal), 6)
                     + (EncodeString(ArgText(p, 2, cal), 6) + [NamedMark(p, cal), conf, auth]))))
  {
    hide HeadSlot, PackedSlot, EncodeString, ArgText, NamedMark;
  }

  // ----- what is decoded -----

  /** An argument as it comes back: rebuilt from what is kept of its text. */
  function ArgBack(p: Predicate, i: nat, cal: Calendar, nested: Rebuild): Result<Term, CodecError> {
    Reconstruct(OrUnknown(Kept(ArgText(p, i, cal), 12)), ArgCode(p, i, cal), cal, nested)
  }

  /** The first three arguments from `i` on as they come back. */
  function ArgsBack(p: Predicate, i: nat, cal: Calendar, nested: Rebuild): Result<seq<Term>, CodecError>
    requires i <= ArgCount(p)
    decreases ArgCount(p) - i
  {
    if i == ArgCount(p) then Ok([]) else PrependTerm(ArgBack(p, i, cal, nested), ArgsBack(p, i + 1, cal, nested))
  }

  /** The predicate as it comes back: its head by name, its first three arguments, no named ones. */
  function Back(p: Predicate, registry: Registry, cal: Calendar, nested: Rebuild): Result<Predicate, CodecError> {
    var index := HeadIndex(registry, p.head);
    if index >= |registry| then Err(UnknownMorpheme(index))
    else
      match ArgsBack(p, 0, cal, nested)
      case Ok(args) => Ok(Predicate(Name(registry[index]), args, []))
      case Err(e) => Err(e)
  }

  lemma CodePositive(p: Predicate, i: nat, cal: Calendar)
    requires i < ArgCount(p)
    ensures ArgCode(p, i, cal) > 0
  {
    hide TermValue;
  }

  lemma DecodeArgsUnfold(r: seq<real>, count: nat, packed: nat, i: nat, cal: Calendar, nested: Rebuild)
    requires |r| == DIM && i < count <= 3 && UnpackCode(packed, i) > 0
    ensures DecodeArgs(r, count, packed, i, cal, nested)
         == PrependTerm(
              Reconstruct(OrUnknown(DecodeString(r[3 + 6 * i..9 + 6 * i])), UnpackCode(packed, i), cal, nested),
                        DecodeArgs(r, count, packed, i + 1, cal, nested))
  {
    hide Reconstruct, UnpackCode, DecodeString, PrependTerm;
  }

  /** Recovered slots hold the text and code of argument `i`. */
  ghost predicate HoldsAt(r: seq<real>, packed: nat, p: Predicate, cal: Calendar, i: nat)
    requires |r| == DIM && i < 3
  {
    DecodeString(r[3 + 6 * i..9 + 6 * i]) == Kept(ArgText(p, i, cal), 12) && UnpackCode(packed, i) == ArgCode(p, i, cal)
  }

  ghost predicate Holds(r: seq<real>, packed: nat, p: Predicate, cal: Calendar)
    requires |r| == DIM
  {
    HoldsAt(r, packed, p, cal, 0) && HoldsAt(r, packed, p, cal, 1) && HoldsAt(r, packed, p, cal, 2)
  }

  lemma {:induction false} ArgsDecoded(r: seq<real>, packed: nat, p: Predicate, i: nat, cal: Calendar, nested: Rebuild)
    requires |r| == DIM && i <= ArgCount(p) && Holds(r, packed, p, cal)
    ensures DecodeArgs(r, ArgCount(p), packed, i, cal, nested) == ArgsBack(p, i, cal, nested)
    decreases ArgCount(p) - i
  {
    hide Reconstruct, UnpackCode, DecodeString, PrependTerm, ArgCode, ArgText, Kept, OrUnknown, ArgCount;
    if i < ArgCount(p) {
      ArgsDecoded(r, packed, p, i + 1, cal, nested);
      CodePositive(p, i, cal);
      DecodeArgsUnfold(r, ArgCount(p), packed, i, cal, nested);
    } else {
      hide ArgsBack;
      DecodeArgsEnd(r, packed, p, cal, nested);
    }
  }

  lemma DecodeArgsEnd(r: seq<real>, packed: nat, p: Predicate, cal: Calendar, nested: Rebuild)
    requires |r| == DIM
    ensures DecodeArgs(r, ArgCount(p), packed, ArgCount(p), cal, nested)
         == Ok([]) == ArgsBack(p, ArgCount(p), cal, nested)
  {
  }

  lemma HoldsWhen(r: seq<real>, packed: nat, p: Predicate, cal: Calendar, i: nat, lo: nat, hi: nat)
    requires |r| == DIM && i < 3 && lo == 3 + 6 * i && hi == 9 + 6 * i
    requires DecodeString(r[lo..hi]) == Kept(ArgText(p, i, cal), 12) && UnpackCode(packed, i) == ArgCode(p, i, cal)
    ensures HoldsAt(r, packed, p, cal, i)
  {
    hide DecodeString, Kept, ArgText, UnpackCode, ArgCode;
  }

  lemma SlotsHold(p: Predicate, conf: real, auth: real, registry: Registry, cal: Calendar, d: real)
    requires d >= 0.0 && d * 4488.0 < 0.5
    ensures |BlurAll(Encode(p, conf, auth, registry, cal), d)| == DIM
    ensures Holds(BlurAll(Encode(p, conf, auth, registry, cal), d), PackedArgs(p, cal), p, cal)
  {
    assert DIM == 24;
    hide *;
    Slots(p, conf, auth, registry, cal, d);
    StringRecovered(ArgText(p, 0, cal), 6, d);
    StringRecovered(ArgText(p, 1, cal), 6, d);
    StringRecovered(ArgText(p, 2, cal), 6, d);
    PackedUnpacked(p, cal);
    var r := BlurAll(Encode(p, conf, auth, registry, cal), d);
    HoldsWhen(r, PackedArgs(p, cal), p, cal, 0, 3, 9);
    HoldsWhen(r, PackedArgs(p, cal), p, cal, 1, 9, 15);
    HoldsWhen(r, PackedArgs(p, cal), p, cal, 2, 15, 21);
    AllHold(r, PackedArgs(p, cal), p, cal);
  }

  lemma AllHold(r: seq<real>, packed: nat, p: Predicate, cal: Calendar)
    requires |r| == DIM
    requires HoldsAt(r, packed, p, cal, 0) && HoldsAt(r, packed, p, cal, 1) && HoldsAt(r, packed, p, cal, 2)
    ensures Holds(r, packed, p, cal)
  {
    hide HoldsAt;
  }

  lemma PackedKept(k: nat, d: real)
    requires k <= 5323 && d >= 0.0 && d * 5323.0 < 0.5
    ensures AtLeastZero(Round(Blur(k as real / 5323.0, d) * 5323.0)) == k
  {
    hide Blur, Round;
    SmallField(k, 5323.0, d);
    FieldRecovered(k, 5323.0, d);
  }

  lemma PackedSurvives(p: Predicate, cal: Calendar, d: real)
    requires d >= 0.0 && d * 5323.0 < 0.5
    ensures ReadPacked(Blur(PackedSlot(p, cal), d)) == PackedArgs(p, cal)
  {
    hide Blur, Round, PackedArgs;
    PackedKept(PackedArgs(p, cal), d);
  }

  lemma HeadSlotIs(registry: Registry, head: Head, d: real)
    requires d >= 0.0
    ensures ReadHead(Blur(HeadSlot(registry, head), d)) == DecodedIndex(HeadIndex(registry, head), d)
  {
    hide HeadIndex, Blur, Round;
  }

  lemma DecodeRecoveredIs(r: seq<real>, p: Predicate, registry: Registry, cal: Calendar, nested: Rebuild)
    requires |r| == DIM
    requires ReadHead(r[1]) == HeadIndex(registry, p.head)
    requires ReadPacked(r[2]) == PackedArgs(p, cal)
    requires UnpackCount(PackedArgs(p, cal)) == ArgCount(p)
    requires DecodeArgs(r, ArgCount(p), PackedArgs(p, cal), 0, cal, nested) == ArgsBack(p, 0, cal, nested)
    ensures DecodeRecovered(r, registry, cal, nested) == Back(p, registry, cal, nested)
  {
    hide ReadHead, ReadPacked, HeadIndex, PackedArgs, UnpackCount, DecodeArgs, ArgsBack, ArgCount;
  }

  lemma NumbersSurvive(p: Predicate, conf: real, auth: real, registry: Registry, cal: Calendar, d: real)
    requires d >= 0.0 && d * 5323.0 < 0.5 && Survives(HeadIndex(registry, p.head), d)
    ensures var r := BlurAll(Encode(p, conf, auth, registry, cal), d);
            && |r| == DIM
            && ReadHead(r[1]) == HeadIndex(registry, p.head)
            && ReadPacked(r[2]) == PackedArgs(p, cal)
  {
    assert DIM == 24;
    hide *;
    Slots(p, conf, auth, registry, cal, d);
    HeadSlotIs(registry, p.head, d);
    HeadExact(HeadIndex(registry, p.head), d);
    PackedSurvives(p, cal, d);
  }

  /** Decoding blurred slots gives the predicate as it comes back. */
  lemma BlurDecoded(p: Predicate, conf: real, auth: real, registry: Registry, cal: Calendar, nested: Rebuild, d: real)
    requires d >= 0.0 && d * 5323.0 < 0.5 && Survives(HeadIndex(registry, p.head), d)
    ensures |BlurAll(Encode(p, conf, auth, registry, cal), d)| == DIM
    ensures DecodeRecovered(BlurAll(Encode(p, conf, auth, registry, cal), d), registry, cal, nested)
         == Back(p, registry, cal, nested)
  {
    hide *;
    SmallerScale(d);
    SlotsHold(p, conf, auth, registry, cal, d);
    NumbersSurvive(p, conf, auth, registry, cal, d);
    PackedUnpacked(p, cal);
    var r := BlurAll(Encode(p, conf, auth, registry, cal), d);
    ArgsDecoded(r, PackedArgs(p, cal), p, 0, cal, nested);
    DecodeRecoveredIs(r, p, registry, cal, nested);
  }

  lemma SmallerScale(d: real)
    requires d >= 0.0 && d * 5323.0 < 0.5
    ensures d * 4488.0 < 0.5
  {
  }

  /** The noise this side of 1e-6 leaves every rounding on its side of the half-step. */
  lemma NoiseBound(norm: real, noise: real)
    requires 1.0 <= norm <= 40.35 && 0.0 <= noise <= 0.000001
    ensures 0.0 <= noise * norm <= 0.00004035
    ensures norm >= TINY && 1.0 / norm >= TINY
  {
    NonNegative(noise, norm);
    NonNegative(0.000001 - noise, norm);
    assert (0.000001 - noise) * norm == 0.000001 * norm - noise * norm;
    DivTimes(1.0, norm);
    Cancel(0.01, 1.0 / norm, norm);
  }

  lemma StartsWithScale(p: Predicate, conf: real, auth: real, registry: Registry, cal: Calendar)
    ensures |Encode(p, conf, auth, registry, cal)| == DIM && Encode(p, conf, auth, registry, cal)[0] == 1.0
  {
    hide HeadSlot, BodySlots;
  }

  /** The blur of the latent operation on a node with a head index of at most 12000. */
  lemma BlurOf(p: Predicate, conf: real, auth: real, registry: Registry, cal: Calendar, norm: real, noise: real)
    requires InUnit(conf) && InUnit(auth) && IsNorm(Encode(p, conf, auth, registry, cal), norm)
    requires HeadIndex(registry, p.head) <= 12000 && 0.0 <= noise <= 0.000001
    ensures 0.0 <= noise * norm <= 0.00004035
    ensures Recover(Operate(Encode(p, conf, auth, registry, cal), norm, noise))
         == BlurAll(Encode(p, conf, auth, registry, cal), noise * norm)
  {
    hide *;
    NormBounded(p, conf, auth, registry, cal, norm);
    NoiseBound(norm, noise);
    StartsWithScale(p, conf, auth, registry, cal);
    RecoverOperated(Encode(p, conf, auth, registry, cal), norm, noise);
  }

  lemma BlurIsSmall(d: real)
    requires 0.0 <= d <= 0.00004035
    ensures d * 5323.0 < 0.5
  {
  }

  /** For every node whose head has an index of at most 12000, whatever its arguments: encoding, normalizing, adding a
      noise of at most 1e-6 to every entry and decoding gives the head by its registered name, the first three
      arguments rebuilt from the charset prefix of their texts, and no named arguments. */
  lemma PackedRoundTrip(
      p: Predicate, conf: real, auth: real, registry: Registry, cal: Calendar, nested: Rebuild, norm: real, noise: real)
    requires InUnit(conf) && InUnit(auth) && IsNorm(Encode(p, conf, auth, registry, cal), norm)
    requires HeadIndex(registry, p.head) <= 12000 && 0.0 <= noise <= NOISE
    ensures Decode(Operate(Encode(p, conf, auth, registry, cal), norm, noise), registry, cal, nested)
         == Back(p, registry, cal, nested)
  {
    assert NOISE == 0.000001;
    hide *;
    BlurOf(p, conf, auth, registry, cal, norm, noise);
    var d := noise * norm;
    BlurIsSmall(d);
    SmallIndexSurvives(HeadIndex(registry, p.head), d);
    BlurDecoded(p, conf, auth, registry, cal, nested, d);
    DecodeIs(Operate(Encode(p, conf, auth, registry, cal), norm, noise), registry, cal, nested);
  }

  lemma DecodeIs(v: seq<real>, registry: Registry, cal: Calendar, nested: Rebuild)
    requires |v| == DIM
    ensures Decode(v, registry, cal, nested) == DecodeRecovered(Recover(v), registry, cal, nested)
  {
    hide DecodeRecovered, Recover;
  }

  lemma HeadInSlot(p: Predicate, conf: real, auth: real, registry: Registry, cal: Calendar, d: real)
    requires d >= 0.0
    ensures |BlurAll(Encode(p, conf, auth, registry, cal), d)| == 24
    ensures BlurAll(Encode(p, conf, auth, registry, cal), d)[1] == Blur(HeadSlot(registry, p.head), d)
  {
    hide *;
    Slots(p, conf, auth, registry, cal, d);
  }

  lemma RecoverNoisy(v: seq<real>, norm: real)
    requires |v| == DIM && v[0] == 1.0 && norm >= 1.0
    ensures 0.000001 * norm >= 0.0 && Recover(Operate(v, norm, 0.000001)) == BlurAll(v, 0.000001 * norm)
  {
    NoiseIsNotTiny(norm);
    hide *;
    RecoverOperated(v, norm, 0.000001);
  }

  lemma NormAtLeastOne(p: Predicate, conf: real, auth: real, registry: Registry, cal: Calendar, norm: real)
    requires InUnit(conf) && InUnit(auth) && IsNorm(Encode(p, conf, auth, registry, cal), norm)
    ensures norm >= 1.0
  {
    hide *;
    var h := HeadSlot(registry, p.head);
    NormSquared(p, conf, auth, registry, cal, norm);
    NormIsNotNegative(Encode(p, conf, auth, registry, cal), norm);
    SquareNonNegative(h);
    NormFromOne(norm, h * h);
  }

  lemma NormFromOne(norm: real, s: real)
    requires norm >= 0.0 && s >= 0.0 && 1.0 + s <= norm * norm
    ensures norm >= 1.0
  {
    RootBound(1.0, norm);
  }

  lemma SquareNonNegative(h: real)
    ensures h * h >= 0.0
  {
  }

  /** What is recovered in the head slot after the benchmark's operation. */
  lemma HeadRecovered(p: Predicate, conf: real, auth: real, registry: Registry, cal: Calendar, norm: real)
    requires InUnit(conf) && InUnit(auth) && IsNorm(Encode(p, conf, auth, registry, cal), norm)
    ensures 0.000001 * norm >= 0.0
    ensures |Recover(Operate(Encode(p, conf, auth, registry, cal), norm, 0.000001))| == 24
    ensures ReadHead(Recover(Operate(Encode(p, conf, auth, registry, cal), norm, 0.000001))[1])
         == DecodedIndex(HeadIndex(registry, p.head), 0.000001 * norm)
  {
    hide *;
    NormAtLeastOne(p, conf, auth, registry, cal, norm);
    StartsWithScale(p, conf, auth, registry, cal);
    RecoverNoisy(Encode(p, conf, auth, registry, cal), norm);
    HeadInSlot(p, conf, auth, registry, cal, 0.000001 * norm);
    HeadSlotIs(registry, p.head, 0.000001 * norm);
  }

  lemma NoiseIsNotTiny(norm: real)
    requires norm >= 1.0
    ensures norm >= TINY && 0.000001 >= TINY && 0.000001 * norm >= 0.0
  {
  }

  /** For every head: after normalizing and the benchmark's noise its index is decoded right exactly when the noise
      times the norm, times the distance of the index from 300, stays within a half-step. */
  lemma HeadRecoveredIff(p: Predicate, conf: real, auth: real, registry: Registry, cal: Calendar, norm: real)
    requires InUnit(conf) && InUnit(auth) && IsNorm(Encode(p, conf, auth, registry, cal), norm)
    ensures |Recover(Operate(Encode(p, conf, auth, registry, cal), norm, 0.000001))| == 24
    ensures ReadHead(Recover(Operate(Encode(p, conf, auth, registry, cal), norm, 0.000001))[1])
         == HeadIndex(registry, p.head)
       <==> Survives(HeadIndex(registry, p.head), 0.000001 * norm)
  {
    hide *;
    HeadRecovered(p, conf, auth, registry, cal, norm);
    HeadExact(HeadIndex(registry, p.head), 0.000001 * norm);
  }

  /** From index 12500 on the benchmark's noise always turns the head into another one. */
  lemma LargeHeadLost(p: Predicate, conf: real, auth: real, registry: Registry, cal: Calendar, norm: real)
    requires InUnit(conf) && InUnit(auth) && IsNorm(Encode(p, conf, auth, registry, cal), norm)
    requires HeadIndex(registry, p.head) >= 12500
    ensures |Recover(Operate(Encode(p, conf, auth, registry, cal), norm, 0.000001))| == 24
    ensures ReadHead(Recover(Operate(Encode(p, conf, auth, registry, cal), norm, 0.000001))[1])
         != HeadIndex(registry, p.head)
  {
    hide *;
    HeadRecovered(p, conf, auth, registry, cal, norm);
    LargeIndexLost(p, conf, auth, registry, cal, norm);
  }

  // ----- when nothing is lost -----

  /** Texts of one to twelve characters of the character set. */
  predicate InRange(s: Text) {
    1 <= |s| <= 12 && forall i :: 0 <= i < |s| ==> s[i] in CHARSET
  }

  lemma {:induction false} KeptWhole(s: Text, n: nat)
    ensures Kept(s, n) == s <==> |s| <= n && forall i :: 0 <= i < |s| ==> s[i] in CHARSET
    ensures |Kept(s, n)| <= n
    decreases n
  {
    hide CHARSET;
    if n > 0 && s != [] {
      KeptWhole(s[1..], n - 1);
      assert s == [s[0]] + s[1..];
      if s[0] in CHARSET {
        assert Kept(s, n)[1..] == Kept(s[1..], n - 1);
      }
    }
  }

  lemma UnknownStarts(s: Text)
    requires s == UNKNOWN
    ensures s != [] && s[0] == 'U'
  {
  }

  lemma UInSet()
    ensures 'U' in CHARSET
  {
    assert UPPER[20] == 'U';
    hide LOWER, OTHERS;
  }

  lemma KeptSome(s: Text)
    requires s != [] && s[0] in CHARSET
    ensures Kept(s, 12) != []
  {
    hide CHARSET;
  }

  /** A name, a variable, a string or a URI comes back unchanged exactly when its text is in range. */
  lemma TextKeptIff(s: Text)
    ensures OrUnknown(Kept(s, 12)) == s <==> InRange(s)
  {
    KeptWhole(s, 12);
    UInSet();
    if s == UNKNOWN {
      UnknownStarts(s);
      KeptSome(s);
    }
    hide Kept, CHARSET, UNKNOWN;
  }

  /** Terms without parts, as the codec can represent them. */
  ghost predicate Leaf(t: Term) {
    match t
    case Compound(_) => false
    case List(_) => false
    case Lit(lit) => (lit.Dec? ==> lit.mantissa != I128_MIN) && (lit.Dur? ==> lit.nanos < U64_LIMIT)
    case _ => true
  }

  lemma LiteralBack(lit: Literal, cal: Calendar, nested: Rebuild)
    requires Leaf(Lit(lit)) && Printing.Lawful(cal)
    ensures Reconstruct(LiteralValue(lit, cal).0, LiteralValue(lit, cal).1, cal, nested) == Ok(Lit(lit))
  {
    hide DecText, DecFromStr, NatText, DigitsValue;
    match lit
    case Dec(mantissa, scale) => DecRoundTrip(mantissa, scale);
    case Date(day) => DateBack(day, cal);
    case Dur(nanos) =>
      NatBack(nanos);
    case Bool(b) =>
      assert "0" != "1";
    case _ =>
  }

  lemma DateBack(day: int, cal: Calendar)
    requires Printing.Lawful(cal)
    ensures cal.readDate(cal.showDate(day)) == Some(day)
  {
  }

  lemma NatBack(n: nat)
    requires n < U64_LIMIT
    ensures ParseUnsigned(NatText(n), U128_LIMIT) == Some(n) && n % U64_LIMIT == n
  {
    hide NatText, DigitsValue;
    NoPlus(NatText(n));
  }

  lemma NoPlus(s: Text)
    requires AllDigits(s)
    ensures s != [] ==> s[0] != '+'
  {
  }

  lemma TermBack(t: Term, cal: Calendar, nested: Rebuild)
    requires Leaf(t) && Printing.Lawful(cal)
    ensures Reconstruct(TermValue(t, cal).0, TermValue(t, cal).1, cal, nested) == Ok(t)
  {
    match t
    case Lit(lit) =>
      LiteralBack(lit, cal, nested);
      hide Reconstruct, LiteralValue;
    case _ =>
  }

  lemma ArgBackIs(p: Predicate, i: nat, cal: Calendar, nested: Rebuild)
    requires i < |p.args| && Leaf(p.args[i]) && InRange(TermValue(p.args[i], cal).0) && Printing.Lawful(cal)
    ensures ArgBack(p, i, cal, nested) == Ok(p.args[i])
  {
    hide Reconstruct, TermValue, OrUnknown, Kept, InRange, Printing.Lawful, Leaf;
    TextKeptIff(TermValue(p.args[i], cal).0);
    TermBack(p.args[i], cal, nested);
  }

  lemma {:induction false} ArgsBackIs(p: Predicate, i: nat, cal: Calendar, nested: Rebuild)
    requires i <= |p.args| <= 3 && Printing.Lawful(cal)
    requires forall j :: 0 <= j < |p.args| ==> Leaf(p.args[j]) && InRange(TermValue(p.args[j], cal).0)
    ensures ArgsBack(p, i, cal, nested) == Ok(p.args[i..])
    decreases |p.args| - i
  {
    hide ArgBack, Leaf, InRange, TermValue, Printing.Lawful;
    if i < |p.args| {
      ArgsBackIs(p, i + 1, cal, nested);
      ArgBackIs(p, i, cal, nested);
      assert p.args[i..] == [p.args[i]] + p.args[i + 1..];
      assert ArgsBack(p, i, cal, nested) == PrependTerm(ArgBack(p, i, cal, nested), ArgsBack(p, i + 1, cal, nested));
    } else {
      assert p.args[i..] == [];
      assert ArgsBack(p, i, cal, nested) == Ok([]);
    }
  }

  lemma {:induction false} IndexOfNameIs(registry: Registry, name: Text)
    ensures IndexOfName(registry, name).Some? <==> name in registry
    ensures IndexOfName(registry, name).Some? ==>
              IndexOfName(registry, name).value < |registry| && registry[IndexOfName(registry, name).value] == name
  {
    if registry != [] {
      IndexOfNameIs(registry[1..], name);
      assert registry == [registry[0]] + registry[1..];
    }
  }

  /** A predicate with a registered name below index 12001 and at most three arguments in range comes back exactly,
      with or without the latent operation. */
  lemma PackedExactRecovery(
      p: Predicate, conf: real, auth: real, registry: Registry, cal: Calendar, nested: Rebuild, norm: real, noise: real)
    requires InUnit(conf) && InUnit(auth) && IsNorm(Encode(p, conf, auth, registry, cal), norm)
    requires 0.0 <= noise <= NOISE && Printing.Lawful(cal)
    requires p.head.Name? && p.head.name in registry && HeadIndex(registry, p.head) <= 12000
    requires p.named == [] && |p.args| <= 3
    requires forall j :: 0 <= j < |p.args| ==> Leaf(p.args[j]) && InRange(TermValue(p.args[j], cal).0)
    ensures Decode(Operate(Encode(p, conf, auth, registry, cal), norm, noise), registry, cal, nested) == Ok(p)
  {
    hide Decode, Operate, Encode, IndexOfName, ArgsBack, Leaf, InRange, TermValue, Printing.Lawful, IsNorm, InUnit;
    PackedRoundTrip(p, conf, auth, registry, cal, nested, norm, noise);
    IndexOfNameIs(registry, p.head.name);
    ArgsBackIs(p, 0, cal, nested);
    assert p.args[0..] == p.args;
  }

  /** A head that no registry entry names comes back as the first entry. */
  lemma UnregisteredHeadBecomesFirst(
      p: Predicate, conf: real, auth: real, registry: Registry, cal: Calendar, nested: Rebuild, norm: real, noise: real)
    requires InUnit(conf) && InUnit(auth) && IsNorm(Encode(p, conf, auth, registry, cal), norm)
    requires 0.0 <= noise <= NOISE && registry != []
    requires p.head.Name? && p.head.name !in registry
    ensures var r := Decode(Operate(Encode(p, conf, auth, registry, cal), norm, noise), registry, cal, nested);
            r.Ok? ==> r.value.head == Name(registry[0])
  {
    hide Decode, Operate, Encode, IndexOfName, ArgsBack, IsNorm, InUnit;
    IndexOfNameIs(registry, p.head.name);
    PackedRoundTrip(p, conf, auth, registry, cal, nested, norm, noise);
  }
}
