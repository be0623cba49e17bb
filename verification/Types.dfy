/** The data types of `factum-core/src/types.rs`.

    Text is kept as the program keeps it, as UTF-8 bytes: every `char` of a `Text` stands for one byte.
    A Rust string is a `Text` that satisfies `Utf8.Valid`. */
module Types {
  type Text = string

  datatype Option<+T> = None | Some(value: T)

  datatype Result<+T, +E> = Ok(value: T) | Err(error: E) {
    predicate IsFailure() {
      Err?
    }

    function PropagateFailure<U>(): Result<U, E>
      requires Err?
    {
      Err(error)
    }

    function Extract(): T
      requires Ok?
    {
      value
    }
  }

  const I128_MAX: int := 0x7FFF_FFFF_FFFF_FFFF_FFFF_FFFF_FFFF_FFFF
  const I128_MIN: int := -0x8000_0000_0000_0000_0000_0000_0000_0000
  const U64_LIMIT: int := 0x1_0000_0000_0000_0000
  const U32_LIMIT: int := 0x1_0000_0000

  type I128 = x: int | I128_MIN <= x <= I128_MAX
  type U8 = x: int | 0 <= x < 256
  type U32 = x: int | 0 <= x < U32_LIMIT

  /** A UTC instant in nanoseconds since the epoch; its whole seconds fit in an i64. */
  const NANOS: int := 1_000_000_000
  const I64_MIN: int := -0x8000_0000_0000_0000
  const I64_MAX: int := 0x7FFF_FFFF_FFFF_FFFF
  type Instant = x: int | I64_MIN * NANOS <= x < (I64_MAX + 1) * NANOS

  /** A finite f32 of `:conf` or `:auth`, as the decimal that Rust's `Display` writes for it:
      `units` / 10^`places`, without trailing zeros after the point. */
  datatype Score = Score(units: int, places: nat) {
    ghost predicate Normal() {
      places > 0 ==> units % 10 != 0
    }

    /** `(0.0..=1.0).contains`. */
    predicate InUnit() {
      0 <= units <= Pow10(places)
    }

    function Value(): real {
      units as real / Pow10(places) as real
    }
  }

  function Pow10(n: nat): (p: int)
    ensures p > 0
  {
    if n == 0 then 1 else 10 * Pow10(n - 1)
  }

  datatype Literal =
    | Dec(mantissa: I128, scale: U8)
    | Str(text: Text)
    | Date(day: int)
    | Dur(nanos: nat)
    | Bool(b: bool)
    | Uri(uri: Text)

  datatype Term =
    | Var(name: Text)
    | Ent(entity: Text)
    | Lit(lit: Literal)
    | Compound(pred: Predicate)
    | List(items: seq<Term>)

  datatype NamedArg = NamedArg(key: Text, value: Term)

  datatype Head = Id(index: U32) | Name(name: Text)

  datatype Predicate = Predicate(head: Head, args: seq<Term>, named: seq<NamedArg>)

  datatype Validity = Forever | Window(from: Instant, until: Option<Instant>) {
    /** Half-open window: `from <= t < until`. */
    predicate IsValidAt(t: Instant) {
      match this
      case Forever => true
      case Window(from, until) => from <= t && (until.None? || t < until.value)
    }
  }

  datatype Span = Span(start: U32, end: U32)

  datatype Provenance =
    | Verbatim(doc: Text, span: Span)
    | Summary(doc: Text, span: Span)
    | Extracted(doc: Text, span: Span, model: Text, version: Text)
    | Derived(from: Text, rule: Text)
    | Asserted(principal: Text)

  datatype Status = Active | Retracted | Pending

  datatype Node = Node(
    id: Text,
    pred: Predicate,
    validity: Validity,
    provenance: Provenance,
    confidence: Score,
    authority: Score,
    permissions: bv32,
    deps: seq<Text>,
    status: Status,
    note: Option<Text>)

  const PUBLIC: bv32 := 1
  const INTERNAL: bv32 := 2
  const CONFIDENTIAL: bv32 := 4
  const RESTRICTED: bv32 := 8

  /** `PermissionTag::grants`. */
  predicate Grants(tag: bv32, roleMask: bv32) {
    tag & roleMask != 0
  }

  /** Morpheme names by index; the registry's `by_id` list. */
  type Registry = seq<Text>
}
