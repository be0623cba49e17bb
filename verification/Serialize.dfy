/** The canonical text of `factum-core/src/serialize.rs`. */
module Serialize {
  import opened Types
  import opened Decimal

  /** Text of dates and instants, supplied by the calendar library. */
  datatype Calendar = Calendar(
    showDate: int -> Text,
    readDate: Text -> Option<int>,
    showTime: Instant -> Text,
    readTime: Text -> Option<Instant>)

  /** `canonical_literal`'s escapes. */
  function EscapeByte(c: char): Text {
    match c
    case '\\' => "\\\\"
    case '"' => "\\\""
    case '\n' => "\\n"
    case '\t' => "\\t"
    case '\r' => "\\r"
    case _ => [c]
  }

  function Escape(s: Text): Text {
    if s == [] then [] else EscapeByte(s[0]) + Escape(s[1..])
  }

  function Quote(s: Text): Text {
    "\"" + s + "\""
  }

  function LiteralText(lit: Literal, cal: Calendar): Text {
    match lit
    case Dec(mantissa, scale) => DecText(mantissa, scale)
    case Str(s) => Quote(Escape(s))
    case Date(day) => "#date(" + cal.showDate(day) + ")"
    case Dur(nanos) => "#dur(" + NatText(nanos) + "ns)"
    case Bool(b) => if b then "#t" else "#f"
    case Uri(u) => "<" + u + ">"
  }

  function HeadText(head: Head): Text {
    match head
    case Id(n) => "M" + NatText(n)
    case Name(name) => name
  }

  /** The registry's name for a resolved head, or `M<n>` if it has none. */
  function HeadKey(registry: Registry, head: Head): Text {
    match head
    case Name(name) => name
    case Id(index) => if index < |registry| then registry[index] else HeadText(head)
  }

  function PredicateText(p: Predicate, cal: Calendar): Text {
    "(" + HeadText(p.head) + ArgsText(p.args, cal) + NamedText(p.named, cal) + ")"
  }

  /** Terms, each after a space. */
  function ArgsText(args: seq<Term>, cal: Calendar): Text {
    if args == [] then [] else " " + TermText(args[0], cal) + ArgsText(args[1..], cal)
  }

  function NamedText(named: seq<NamedArg>, cal: Calendar): Text {
    if named == [] then []
    else " :" + named[0].key + " " + TermText(named[0].value, cal) + NamedText(named[1..], cal)
  }

  /** Terms with a space between them. */
  function ItemsText(items: seq<Term>, cal: Calendar): Text {
    if items == [] then [] else TermText(items[0], cal) + ArgsText(items[1..], cal)
  }

  function TermText(t: Term, cal: Calendar): Text {
    match t
    case Var(name) => "?" + name
    case Ent(entity) => "@" + entity
    case Lit(lit) => LiteralText(lit, cal)
    case Compound(pred) => PredicateText(pred, cal)
    case List(items) => "[" + ItemsText(items, cal) + "]"
  }

  function ValidityText(v: Validity, cal: Calendar): Text {
    match v
    case Forever => "forever"
    case Window(from, until) =>
      "(window " + Quote(cal.showTime(from))
      + (if until.Some? then " " + Quote(cal.showTime(until.value)) else "") + ")"
  }

  function SpanText(span: Span): Text {
    "[" + NatText(span.start) + " " + NatText(span.end) + "]"
  }

  /** `canonical_provenance`: its strings are quoted but not escaped. */
  function ProvenanceText(p: Provenance): Text {
    match p
    case Verbatim(doc, span) => "(verbatim " + Quote(doc) + " " + SpanText(span) + ")"
    case Summary(doc, span) => "(summary " + Quote(doc) + " " + SpanText(span) + ")"
    case Extracted(doc, span, model, version) =>
      "(extracted " + Quote(doc) + " " + SpanText(span) + " (model " + Quote(model) + " " + Quote(version) + "))"
    case Derived(from, rule) => "(derived " + from + " " + Quote(rule) + ")"
    case Asserted(principal) => "(asserted " + Quote(principal) + ")"
  }

  function PermissionText(tag: bv32): Text {
    if tag == PUBLIC then "public"
    else if tag == INTERNAL then "internal"
    else if tag == CONFIDENTIAL then "confidential"
    else if tag == RESTRICTED then "restricted"
    else "custom"
  }

  function IdsText(ids: seq<Text>): Text {
    if ids == [] then [] else " " + ids[0] + IdsText(ids[1..])
  }

  function DepsText(deps: seq<Text>): Text {
    if deps == [] then [] else " :deps [" + deps[0] + IdsText(deps[1..]) + "]"
  }

  function NoteText(note: Option<Text>): Text {
    if note.Some? then " :note " + Quote(Escape(note.value)) else []
  }

  /** What the node says and where it comes from. */
  function ContentText(n: Node, cal: Calendar): Text {
    " :pred " + PredicateText(n.pred, cal)
    + (" :valid " + ValidityText(n.validity, cal) + (" :src " + ProvenanceText(n.provenance)))
  }

  /** The scores and the permission tag. */
  function WeightText(n: Node): Text {
    " :conf " + ScoreText(n.confidence)
    + (" :auth " + ScoreText(n.authority) + (" :perm " + PermissionText(n.permissions)))
  }

  /** `canonical`. */
  function NodeText(n: Node, cal: Calendar): Text {
    "(node " + n.id + (ContentText(n, cal) + WeightText(n) + DepsText(n.deps) + NoteText(n.note)) + ")"
  }

  /** `canonical_all`: every node on a line of its own. */
  function AllText(nodes: seq<Node>, cal: Calendar): Text {
    if nodes == [] then "" else NodeText(nodes[0], cal) + ("\n" + AllText(nodes[1..], cal))
  }
}
