/** The packed codec (`factum-l/src/packed_codec.rs`) over reals: a node's predicate as 24 numbers, what
    normalizing and a constant noise do to them (`encoder.rs`, `benchmark.rs`), and what decoding recovers. */
module PackedCodec {
  import opened Types
  import opened Decimal
  import opened Serialize

  const DIM := 24
  const UPPER: Text := "ABCDEFGHIJKLM" + "NOPQRSTUVWXYZ"
  const LOWER: Text := "abcdefghijklm" + "nopqrstuvwxyz"
  const OTHERS: Text := "0123456789-.()"
  const CHARSET: Text := UPPER + LOWER + OTHERS
  const BASE := 67
  const MAX_ENCODED: real := 4488.0
  const MAX_MORPHEMES: real := 300.0
  const PACK_SCALE: real := 5323.0
  const ARG_FLOATS := 6
  const NOISE: real := 0.000001
  const TINY: real := 0.0000000001
  const NUL: char := '\0'

  // ----- characters -----

  function CharToIdx(c: char): (i: nat)
    ensures i <= 66
    ensures c in CHARSET ==> 0 < i && CHARSET[i - 1] == c
    ensures c !in CHARSET ==> i == 0
  {
    if c in CHARSET then IndexIn(CHARSET, c) + 1 else 0
  }

  /** The first place of a character. */
  function IndexIn(s: Text, c: char): (i: nat)
    requires c in s
    ensures i < |s| && s[i] == c
  {
    if s[0] == c then 0 else IndexIn(s[1..], c) + 1
  }

  function IdxToChar(i: nat): char {
    if i == 0 then NUL else if i > |CHARSET| then '.' else CHARSET[i - 1]
  }

  function PairCode(c1: char, c2: char): (k: nat)
    ensures k <= 4488
  {
    CharToIdx(c1) * BASE + CharToIdx(c2)
  }

  function Encode2Chars(c1: char, c2: char): real {
    PairCode(c1, c2) as real / MAX_ENCODED
  }

  /** `f32::round`: to the nearest integer, halves away from zero. */
  function Round(x: real): int {
    if x >= 0.0 then (x + 0.5).Floor else -(0.5 - x).Floor
  }

  function Clamp(x: real): real {
    if x < 0.0 then 0.0 else if x > 1.0 then 1.0 else x
  }

  function Decode2Chars(f: real): (char, char) {
    var v := Round(Clamp(f) * MAX_ENCODED);
    if v < 0 then (NUL, NUL) else (IdxToChar(v / BASE % BASE), IdxToChar(v % BASE))
  }

  function CharAt(s: Text, i: nat): char {
    if i < |s| then s[i] else NUL
  }

  function Skip(s: Text, n: nat): Text {
    if n <= |s| then s[n..] else []
  }

  function EncodeString(s: Text, floats: nat): (r: seq<real>)
    ensures |r| == floats
    decreases floats
  {
    if floats == 0 then [] else [Encode2Chars(CharAt(s, 0), CharAt(s, 1))] + EncodeString(Skip(s, 2), floats - 1)
  }

  /** Decoding stops at the first sentinel. */
  function DecodeString(fs: seq<real>): Text {
    if fs == [] then []
    else
      var (c1, c2) := Decode2Chars(fs[0]);
      if c1 == NUL then [] else if c2 == NUL then [c1] else [c1, c2] + DecodeString(fs[1..])
  }

  // ----- terms -----

  datatype CodecError =
    | UnknownMorpheme(index: nat)
    | BadDecimal(text: Text)
    | BadDate(text: Text)
    | BadDuration(text: Text)
    | UnknownType(code: nat)
    | Nested(text: Text)
    | DimensionMismatch(actual: nat)

  /** How the texts of compounds and lists (codes 9 and 10) are read back. */
  type Rebuild = (Text, nat) -> Result<Term, CodecError>

  function LiteralValue(lit: Literal, cal: Calendar): (Text, nat) {
    match lit
    case Dec(mantissa, scale) => (DecText(mantissa, scale), 3)
    case Str(s) => (s, 4)
    case Date(day) => (cal.showDate(day), 5)
    case Bool(b) => (if b then "1" else "0", 6)
    case Uri(u) => (u, 7)
    case Dur(nanos) => (NatText(nanos), 8)
  }

  /** `term_value_string`. */
  function TermValue(t: Term, cal: Calendar): (r: (Text, nat))
    ensures 1 <= r.1 <= 10
    decreases t
  {
    match t
    case Ent(entity) => (entity, 1)
    case Var(name) => (name, 2)
    case Lit(lit) => LiteralValue(lit, cal)
    case Compound(pred) => (PredicateText(pred, cal), 9)
    case List(items) => (ItemValues(items, cal), 10)
  }

  function ItemValues(items: seq<Term>, cal: Calendar): Text
    decreases items
  {
    if items == [] then []
    else if |items| == 1 then TermValue(items[0], cal).0
    else TermValue(items[0], cal).0 + " " + ItemValues(items[1..], cal)
  }

  /** `eq_ignore_ascii_case("true")`. */
  predicate IsTrue(s: Text) {
    |s| == 4 && (s[0] == 't' || s[0] == 'T') && (s[1] == 'r' || s[1] == 'R') && (s[2] == 'u' || s[2] == 'U')
    && (s[3] == 'e' || s[3] == 'E')
  }

  const U128_LIMIT: int := 0x1_0000_0000_0000_0000_0000_0000_0000_0000

  /** `reconstruct_term`. */
  function Reconstruct(s: Text, code: nat, cal: Calendar, nested: Rebuild): Result<Term, CodecError> {
    if code == 1 then Ok(Ent(s))
    else if code == 2 then Ok(Var(s))
    else if code == 3 then
      (match DecFromStr(s)
       case Ok(lit) => Ok(Lit(lit))
       case Err(_) => Err(BadDecimal(s)))
    else if code == 4 then Ok(Lit(Str(s)))
    else if code == 5 then
      (match cal.readDate(s)
       case Some(day) => Ok(Lit(Date(day)))
       case None => Err(BadDate(s)))
    else if code == 6 then Ok(Lit(Bool(s == "1" || IsTrue(s))))
    else if code == 7 then Ok(Lit(Uri(s)))
    else if code == 8 then
      (match ParseUnsigned(s, U128_LIMIT)
       case Some(n) => Ok(Lit(Dur(n % U64_LIMIT)))
       case None => Err(BadDuration(s)))
    else if code == 9 || code == 10 then nested(s, code)
    else Err(UnknownType(code))
  }

  // ----- encoding -----

  function IndexOfName(registry: Registry, name: Text): Option<nat> {
    if registry == [] then None
    else if registry[0] == name then Some(0)
    else
      match IndexOfName(registry[1..], name)
      case Some(i) => Some(i + 1)
      case None => None
  }

  /** `head_to_index`: an unregistered name becomes index 0. */
  function HeadIndex(registry: Registry, head: Head): nat {
    match head
    case Id(index) => index
    case Name(name) =>
      match IndexOfName(registry, name)
      case Some(i) => i
      case None => 0
  }

  function ArgText(p: Predicate, i: nat, cal: Calendar): Text {
    if i < |p.args| then TermValue(p.args[i], cal).0 else []
  }

  function ArgCode(p: Predicate, i: nat, cal: Calendar): (code: nat)
    ensures code <= 10
  {
    if i < |p.args| then TermValue(p.args[i], cal).1 else 0
  }

  function ArgCount(p: Predicate): (n: nat)
    ensures n <= 3
  {
    if |p.args| < 3 then |p.args| else 3
  }

  /** `pack_args`: the count and three type codes in base 11. */
  function PackCode(count: nat, t1: nat, t2: nat, t3: nat): nat {
    count * 1331 + t1 * 121 + t2 * 11 + t3
  }

  function PackedArgs(p: Predicate, cal: Calendar): (k: nat)
    ensures k <= 5323
  {
    PackCode(ArgCount(p), ArgCode(p, 0, cal), ArgCode(p, 1, cal), ArgCode(p, 2, cal))
  }

  function NamedMark(p: Predicate, cal: Calendar): real {
    if p.named == [] then 0.0 else 1.0 + TermValue(p.named[0].value, cal).1 as real / 100.0
  }

  function HeadSlot(registry: Registry, head: Head): real {
    HeadIndex(registry, head) as real / MAX_MORPHEMES
  }

  function PackedSlot(p: Predicate, cal: Calendar): real {
    PackedArgs(p, cal) as real / PACK_SCALE
  }

  /** The slots behind the head. */
  function BodySlots(p: Predicate, conf: real, auth: real, cal: Calendar): (r: seq<real>)
    ensures |r| == 22
  {
    [PackedSlot(p, cal)]
    + (EncodeString(ArgText(p, 0, cal), ARG_FLOATS)
       + (EncodeString(ArgText(p, 1, cal), ARG_FLOATS)
          + (EncodeString(ArgText(p, 2, cal), ARG_FLOATS) + [NamedMark(p, cal), conf, auth])))
  }

  /** `encode_node`: the scale reference, the head, the rest. */
  function Encode(p: Predicate, conf: real, auth: real, registry: Registry, cal: Calendar): (r: seq<real>)
    ensures |r| == DIM
  {
    [1.0, HeadSlot(registry, p.head)] + BodySlots(p, conf, auth, cal)
  }

  // ----- the latent operation -----

  function SumSquares(v: seq<real>): real {
    if v == [] then 0.0 else v[0] * v[0] + SumSquares(v[1..])
  }

  /** `l2_norm`, whose square root the model does not compute. */
  ghost predicate IsNorm(v: seq<real>, norm: real) {
    norm >= 0.0 && norm * norm == SumSquares(v)
  }

  /** `normalize` and the noise added to every entry. */
  function Operate(v: seq<real>, norm: real, noise: real): (r: seq<real>)
    ensures |r| == |v|
  {
    if norm < TINY then seq(|v|, i requires 0 <= i < |v| => v[i] + noise)
    else seq(|v|, i requires 0 <= i < |v| => v[i] / norm + noise)
  }

  // ----- decoding -----

  /** `recover_value` at every index; a vanishing scale reference gives zeros. */
  function Recover(v: seq<real>): (r: seq<real>)
    requires |v| == DIM
    ensures |r| == DIM
  {
    if -TINY < v[0] < TINY then seq(DIM, _ => 0.0)
    else seq(DIM, i requires 0 <= i < DIM => v[i] / v[0])
  }

  function AtLeastZero(n: int): nat {
    if n < 0 then 0 else n
  }

  function ReadHead(x: real): nat {
    AtLeastZero(Round(x * MAX_MORPHEMES))
  }

  function ReadPacked(x: real): nat {
    AtLeastZero(Round(x * PACK_SCALE))
  }

  function UnpackCount(packed: nat): (n: nat)
    ensures n <= 3
  {
    if packed / 1331 < 3 then packed / 1331 else 3
  }

  function UnpackCode(packed: nat, i: nat): nat {
    var rest := packed % 1331;
    if i == 0 then rest / 121 else if i == 1 then rest / 11 % 11 else rest % 11
  }

  const UNKNOWN: Text := "UNKNOWN"

  function OrUnknown(s: Text): Text {
    if s == [] then UNKNOWN else s
  }

  /** The arguments from `i` on; a type code of zero yields none. */
  function DecodeArgs(
      r: seq<real>, count: nat, packed: nat, i: nat, cal: Calendar, nested: Rebuild): Result<seq<Term>, CodecError>
    requires |r| == DIM && i <= count <= 3
    decreases count - i
  {
    if i == count then Ok([])
    else
      var code := UnpackCode(packed, i);
      var text := DecodeString(r[3 + 6 * i..9 + 6 * i]);
      if code == 0 then DecodeArgs(r, count, packed, i + 1, cal, nested)
      else
        PrependTerm(Reconstruct(OrUnknown(text), code, cal, nested), DecodeArgs(r, count, packed, i + 1, cal, nested))
  }

  function PrependTerm(
      t: Result<Term, CodecError>, rest: Result<seq<Term>, CodecError>): Result<seq<Term>, CodecError> {
    if t.Err? then Err(t.error) else if rest.Err? then rest else Ok([t.value] + rest.value)
  }

  /** `decode_predicate` on recovered values. */
  function DecodeRecovered(
      r: seq<real>, registry: Registry, cal: Calendar, nested: Rebuild): Result<Predicate, CodecError>
    requires |r| == DIM
  {
    var index := ReadHead(r[1]);
    if index >= |registry| then Err(UnknownMorpheme(index))
    else
      var packed := ReadPacked(r[2]);
      match DecodeArgs(r, UnpackCount(packed), packed, 0, cal, nested)
      case Ok(args) => Ok(Predicate(Name(registry[index]), args, []))
      case Err(e) => Err(e)
  }

  /** The predicate part of `decode`. */
  function Decode(v: seq<real>, registry: Registry, cal: Calendar, nested: Rebuild): Result<Predicate, CodecError> {
    if |v| != DIM then Err(DimensionMismatch(|v|)) else DecodeRecovered(Recover(v), registry, cal, nested)
  }
}
