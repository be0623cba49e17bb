/** What the recursive-descent parser of `factum-core/src/parser.rs` makes of the tokens that are left.

    Each function takes the remaining tokens, and the nesting depth where it matters, and gives the parsed
    value with the tokens it leaves. The class `Parser.Parser` is the program's cursor, proved against them. */
module Grammar {
  import opened Types
  import opened Decimal
  import opened Lexer
  import opened Serialize

  const MAX_PARSE_DEPTH := 128

  datatype ParseError =
    | LexFailed(cause: LexError) | TokenLimit
    | UnbalancedParen | UnexpectedToken | DepthLimitExceeded
    | NodeIdExpected | FieldExpected | UnknownNodeField | MissingPredField
    | NumberExpected | BadNumber | ScoreOutOfRange
    | PermissionExpected | UnknownPermission | IdExpected | NoteExpected
    | HeadExpected | NamedArgBeforePositional | TermExpected
    | BadDecimal(reason: DecimalError) | BadDate | BadDuration
    | ValidityExpected | TimeExpected
    | ProvenanceExpected | UnknownProvenance | TextExpected | MissingModelRef

  /** Tokens that end in `Eof`. */
  type Stream = ts: seq<Token> | ts != [] && ts[|ts| - 1] == Eof witness [Eof]

  /** A parsed value and the tokens left. */
  type Parsed<+T> = Result<(T, Stream), ParseError>

  /** `advance`: the cursor never leaves `Eof`. */
  function Advance(ts: Stream): (rest: Stream)
    ensures |rest| <= |ts|
    ensures ts[0] != Eof ==> |rest| == |ts| - 1
  {
    if ts[0] == Eof then ts else ts[1..]
  }

  /** `expect`, which is only called with tokens that carry no text. */
  function Expect(ts: Stream, token: Token): (r: Result<Stream, ParseError>)
    requires token != Eof
    ensures r.Ok? ==> |r.value| == |ts| - 1
  {
    if ts[0] == token then Ok(Advance(ts))
    else if token == RParen && ts[0] == Eof then Err(UnbalancedParen)
    else Err(UnexpectedToken)
  }

  function ExpectSymbol(ts: Stream, text: Text): (r: Result<Stream, ParseError>)
    ensures r.Ok? ==> |r.value| == |ts| - 1
  {
    if ts[0] == Symbol(text) then Ok(Advance(ts)) else Err(UnexpectedToken)
  }

  // ----- terms and predicates -----

  function StripNs(s: Text): Option<Text> {
    if |s| >= 2 && s[|s| - 2..] == "ns" then Some(s[..|s| - 2]) else None
  }

  /** Seconds in a duration unit. */
  function UnitSeconds(unit: Text): Option<nat> {
    if unit == "s" then Some(1)
    else if unit == "m" then Some(60)
    else if unit == "h" then Some(3600)
    else if unit == "d" then Some(86400)
    else None
  }

  /** `parse_duration`, in nanoseconds; the product with the unit wraps at 64 bits. */
  function ParseDuration(text: Text): Option<nat> {
    var s := Trim(text);
    match StripNs(s)
    case Some(digits) => ParseUnsigned(digits, U64_LIMIT)
    case None =>
      var split := DigitRun(s);
      match (ParseUnsigned(s[..split], U64_LIMIT), UnitSeconds(s[split..]))
      case (Some(n), Some(seconds)) => Some(n * seconds % U64_LIMIT * NANOS)
      case _ => None
  }

  /** The terms that are one token long. */
  function ParseLeaf(token: Token, cal: Calendar): Result<Term, ParseError> {
    match token
    case Variable(s) => Ok(Var(s))
    case EntityName(s) => Ok(Ent(s))
    case Number(s) =>
      (match DecFromStr(s)
       case Ok(lit) => Ok(Lit(lit))
       case Err(e) => Err(BadDecimal(e)))
    case QuotedText(s) => Ok(Lit(Str(s)))
    case Flag(b) => Ok(Lit(Bool(b)))
    case DateText(s) =>
      (match cal.readDate(s)
       case Some(day) => Ok(Lit(Date(day)))
       case None => Err(BadDate))
    case DurationText(s) =>
      (match ParseDuration(s)
       case Some(nanos) => Ok(Lit(Dur(nanos)))
       case None => Err(BadDuration))
    case UriText(s) => Ok(Lit(Uri(s)))
    case Symbol(s) => Ok(Ent(s))
    case _ => Err(TermExpected)
  }

  /** `parse_term` at nesting `depth`. */
  function ParseTerm(ts: Stream, depth: int, cal: Calendar): (r: Parsed<Term>)
    ensures r.Ok? ==> |r.value.1| < |ts|
    decreases |ts|, 1
  {
    if ts[0] == LParen then
      if depth >= MAX_PARSE_DEPTH then Err(DepthLimitExceeded)
      else
        var (pred, rest) :- ParseBody(Advance(ts), depth + 1, cal);
        var rest :- Expect(rest, RParen);
        Ok((Compound(pred), rest))
    else if ts[0] == LBracket then
      if depth >= MAX_PARSE_DEPTH then Err(DepthLimitExceeded)
      else
        var (items, rest) :- ParseItems(Advance(ts), depth + 1, cal);
        var rest :- Expect(rest, RBracket);
        Ok((List(items), rest))
    else
      var t :- ParseLeaf(ts[0], cal);
      Ok((t, Advance(ts)))
  }

  /** The items of a list, up to its closing bracket or the end. */
  function ParseItems(ts: Stream, depth: int, cal: Calendar): (r: Parsed<seq<Term>>)
    ensures r.Ok? ==> |r.value.1| <= |ts|
    decreases |ts|, 2
  {
    if ts[0] == RBracket || ts[0] == Eof then Ok(([], ts))
    else
      var (item, rest) :- ParseTerm(ts, depth, cal);
      var (items, rest) :- ParseItems(rest, depth, cal);
      Ok(([item] + items, rest))
  }

  datatype Arguments = Arguments(args: seq<Term>, named: seq<NamedArg>)

  /** The arguments of a predicate, up to its closing parenthesis or the end. */
  function ParseArgs(ts: Stream, inNamed: bool, depth: int, cal: Calendar): (r: Parsed<Arguments>)
    ensures r.Ok? ==> |r.value.1| <= |ts|
    ensures r.Ok? && inNamed ==> r.value.0.args == []
    decreases |ts|, 2
  {
    if ts[0] == RParen || ts[0] == Eof then Ok((Arguments([], []), ts))
    else if ts[0].Keyword? then
      var (value, rest) :- ParseTerm(Advance(ts), depth, cal);
      var (more, rest) :- ParseArgs(rest, true, depth, cal);
      Ok((more.(named := [NamedArg(ts[0].text, value)] + more.named), rest))
    else if inNamed then Err(NamedArgBeforePositional)
    else
      var (arg, rest) :- ParseTerm(ts, depth, cal);
      var (more, rest) :- ParseArgs(rest, false, depth, cal);
      Ok((more.(args := [arg] + more.args), rest))
  }

  /** `parse_predicate_body_inner`. */
  function ParseBody(ts: Stream, depth: int, cal: Calendar): (r: Parsed<Predicate>)
    ensures r.Ok? ==> |r.value.1| < |ts|
    decreases |ts|, 3
  {
    if !ts[0].Symbol? then Err(HeadExpected)
    else
      var (a, rest) :- ParseArgs(Advance(ts), false, depth, cal);
      Ok((Predicate(Name(ts[0].text), a.args, a.named), rest))
  }

  /** `parse_predicate_form`. */
  function ParseForm(ts: Stream, depth: int, cal: Calendar): (r: Parsed<Predicate>)
    ensures r.Ok? ==> |r.value.1| < |ts|
  {
    if depth >= MAX_PARSE_DEPTH then Err(DepthLimitExceeded)
    else
      var rest :- Expect(ts, LParen);
      var (pred, rest) :- ParseBody(rest, depth + 1, cal);
      var rest :- Expect(rest, RParen);
      Ok((pred, rest))
  }

  // ----- node fields -----

  const DAY_NANOS := 86400 * NANOS

  function ParseTime(ts: Stream, cal: Calendar): (r: Parsed<Instant>)
    ensures r.Ok? ==> |r.value.1| < |ts|
  {
    match ts[0]
    case DateText(s) =>
      (match cal.readDate(s)
       case Some(day) =>
         if I64_MIN * NANOS <= day * DAY_NANOS < (I64_MAX + 1) * NANOS then Ok((day * DAY_NANOS, Advance(ts)))
         else Err(BadDate)
       case None => Err(BadDate))
    case QuotedText(s) =>
      (match cal.readTime(s)
       case Some(t) => Ok((t, Advance(ts)))
       case None => Err(BadDate))
    case _ => Err(TimeExpected)
  }

  function ParseValidity(ts: Stream, cal: Calendar): (r: Parsed<Validity>)
    ensures r.Ok? ==> |r.value.1| < |ts|
  {
    if ts[0] == Symbol("forever") then Ok((Forever, Advance(ts)))
    else if ts[0] == LParen then
      var rest :- ExpectSymbol(Advance(ts), "window");
      var (from, rest) :- ParseTime(rest, cal);
      if rest[0] == RParen then Ok((Window(from, None), Advance(rest)))
      else
        var (until, rest) :- ParseTime(rest, cal);
        var rest :- Expect(rest, RParen);
        Ok((Window(from, Some(until)), rest))
    else Err(ValidityExpected)
  }

  /** `parse_smol_str` and `parse_doc_id`. */
  function ParseText(ts: Stream): (r: Parsed<Text>)
    ensures r.Ok? ==> |r.value.1| < |ts|
  {
    if ts[0].Symbol? || ts[0].QuotedText? then Ok((ts[0].text, Advance(ts))) else Err(TextExpected)
  }

  function ParseU32(ts: Stream): (r: Parsed<U32>)
    ensures r.Ok? ==> |r.value.1| < |ts|
  {
    if !ts[0].Number? then Err(NumberExpected)
    else
      match ParseUnsigned(ts[0].text, U32_LIMIT)
      case Some(n) => if n < U32_LIMIT then Ok((n, Advance(ts))) else Err(BadNumber)
      case None => Err(BadNumber)
  }

  function ParseSpan(ts: Stream): (r: Parsed<Span>)
    ensures r.Ok? ==> |r.value.1| < |ts|
  {
    var (start, rest) :- ParseU32(if ts[0] == LBracket then Advance(ts) else ts);
    var (end, rest) :- ParseU32(rest);
    if ts[0] == LBracket then
      var rest :- Expect(rest, RBracket);
      Ok((Span(start, end), rest))
    else Ok((Span(start, end), rest))
  }

  /** The model name and version. */
  function ParseModel(ts: Stream): (r: Parsed<(Text, Text)>)
    ensures r.Ok? ==> |r.value.1| < |ts|
  {
    if ts[0] == LParen then
      var rest :- ExpectSymbol(Advance(ts), "model");
      var (name, rest) :- ParseText(rest);
      var (version, rest) :- ParseText(rest);
      var rest :- Expect(rest, RParen);
      Ok(((name, version), rest))
    else if ts[0].Symbol? || ts[0].QuotedText? then
      var (name, rest) :- ParseText(ts);
      var (version, rest) :- ParseText(rest);
      Ok(((name, version), rest))
    else Err(MissingModelRef)
  }

  /** A provenance after its kind symbol. */
  function ParseProvenanceOf(kind: Text, ts: Stream): (r: Parsed<Provenance>)
    ensures r.Ok? ==> |r.value.1| < |ts|
  {
    if kind == "verbatim" then
      var (doc, rest) :- ParseText(ts);
      var (span, rest) :- ParseSpan(rest);
      Ok((Verbatim(doc, span), rest))
    else if kind == "summary" then
      var (doc, rest) :- ParseText(ts);
      var (span, rest) :- ParseSpan(rest);
      Ok((Summary(doc, span), rest))
    else if kind == "extracted" then
      var (doc, rest) :- ParseText(ts);
      var (span, rest) :- ParseSpan(rest);
      var (model, rest) :- ParseModel(rest);
      Ok((Extracted(doc, span, model.0, model.1), rest))
    else if kind == "derived" then
      if !ts[0].Symbol? then Err(NodeIdExpected)
      else
        var (rule, rest) :- ParseText(Advance(ts));
        Ok((Derived(ts[0].text, rule), rest))
    else if kind == "asserted" then
      var (principal, rest) :- ParseText(ts);
      Ok((Asserted(principal), rest))
    else Err(UnknownProvenance)
  }

  function ParseProvenance(ts: Stream): (r: Parsed<Provenance>)
    ensures r.Ok? ==> |r.value.1| < |ts|
  {
    var rest :- Expect(ts, LParen);
    if !rest[0].Symbol? then Err(ProvenanceExpected)
    else
      var (provenance, rest) :- ParseProvenanceOf(rest[0].text, Advance(rest));
      var rest :- Expect(rest, RParen);
      Ok((provenance, rest))
  }

  /** `parse_f32` with the range check of `Confidence::new` and `Authority::new`. */
  function ParseUnitScore(ts: Stream): (r: Parsed<Score>)
    ensures r.Ok? ==> |r.value.1| < |ts|
  {
    if !ts[0].Number? then Err(NumberExpected)
    else
      match ParseScore(ts[0].text)
      case Some(score) => if score.InUnit() then Ok((score, Advance(ts))) else Err(ScoreOutOfRange)
      case None => Err(BadNumber)
  }

  function ParsePermission(ts: Stream): (r: Parsed<bv32>)
    ensures r.Ok? ==> |r.value.1| < |ts|
  {
    match ts[0]
    case Symbol(s) =>
      if s == "public" then Ok((PUBLIC, Advance(ts)))
      else if s == "internal" then Ok((INTERNAL, Advance(ts)))
      else if s == "confidential" then Ok((CONFIDENTIAL, Advance(ts)))
      else if s == "restricted" then Ok((RESTRICTED, Advance(ts)))
      else Err(UnknownPermission)
    case _ => Err(PermissionExpected)
  }

  /** Symbols up to a closing bracket or the end. */
  function ParseIds(ts: Stream): (r: Parsed<seq<Text>>)
    ensures r.Ok? ==> |r.value.1| <= |ts|
    decreases |ts|
  {
    if ts[0] == RBracket || ts[0] == Eof then Ok(([], ts))
    else if !ts[0].Symbol? then Err(IdExpected)
    else
      var (ids, rest) :- ParseIds(Advance(ts));
      Ok(([ts[0].text] + ids, rest))
  }

  function ParseIdList(ts: Stream): (r: Parsed<seq<Text>>)
    ensures r.Ok? ==> |r.value.1| < |ts|
  {
    if ts[0] == LBracket then
      var (ids, rest) :- ParseIds(Advance(ts));
      var rest :- Expect(rest, RBracket);
      Ok((ids, rest))
    else if ts[0].Symbol? then Ok(([ts[0].text], Advance(ts)))
    else Err(IdExpected)
  }

  /** The fields read so far; the rest keep their defaults. */
  datatype Fields = Fields(
    pred: Option<Predicate>,
    validity: Validity,
    provenance: Provenance,
    confidence: Score,
    authority: Score,
    permissions: bv32,
    deps: seq<Text>,
    note: Option<Text>)

  const DEFAULT_FIELDS :=
    Fields(None, Forever, Asserted("system"), Score(6, 1), Score(5, 1), PUBLIC, [], None)

  /** One keyword field of a node, from after the keyword. */
  function ParseField(keyword: Text, ts: Stream, f: Fields, depth: int, cal: Calendar): (r: Parsed<Fields>)
    ensures r.Ok? ==> |r.value.1| < |ts|
  {
    if keyword == "pred" then
      var (pred, rest) :- ParseForm(ts, depth, cal);
      Ok((f.(pred := Some(pred)), rest))
    else if keyword == "valid" then
      var (validity, rest) :- ParseValidity(ts, cal);
      Ok((f.(validity := validity), rest))
    else if keyword == "src" then
      var (provenance, rest) :- ParseProvenance(ts);
      Ok((f.(provenance := provenance), rest))
    else if keyword == "conf" then
      var (score, rest) :- ParseUnitScore(ts);
      Ok((f.(confidence := score), rest))
    else if keyword == "auth" then
      var (score, rest) :- ParseUnitScore(ts);
      Ok((f.(authority := score), rest))
    else if keyword == "perm" then
      var (tag, rest) :- ParsePermission(ts);
      Ok((f.(permissions := tag), rest))
    else if keyword == "deps" then
      var (ids, rest) :- ParseIdList(ts);
      Ok((f.(deps := ids), rest))
    else if keyword == "note" then
      if ts[0].QuotedText? || ts[0].Symbol? then Ok((f.(note := Some(ts[0].text)), Advance(ts)))
      else Err(NoteExpected)
    else Err(UnknownNodeField)
  }

  /** The loop over a node's fields. */
  function ParseFields(ts: Stream, f: Fields, depth: int, cal: Calendar): (r: Parsed<Fields>)
    ensures r.Ok? ==> |r.value.1| <= |ts|
    decreases |ts|
  {
    if ts[0] == RParen || ts[0] == Eof then Ok((f, ts))
    else if !ts[0].Keyword? then Err(FieldExpected)
    else
      var (f, rest) :- ParseField(ts[0].text, Advance(ts), f, depth, cal);
      ParseFields(rest, f, depth, cal)
  }

  /** `parse_node`. */
  function ParseNode(ts: Stream, depth: int, cal: Calendar): (r: Parsed<Node>)
    ensures r.Ok? ==> |r.value.1| < |ts|
  {
    if depth >= MAX_PARSE_DEPTH then Err(DepthLimitExceeded)
    else
      var rest :- Expect(ts, LParen);
      var rest :- ExpectSymbol(rest, "node");
      if !rest[0].Symbol? then Err(NodeIdExpected)
      else
        var id := rest[0].text;
        var (f, rest) :- ParseFields(Advance(rest), DEFAULT_FIELDS, depth + 1, cal);
        var rest :- Expect(rest, RParen);
        if f.pred.None? then Err(MissingPredField)
        else
          Ok((Node(id, f.pred.value, f.validity, f.provenance, f.confidence, f.authority, f.permissions,
                   f.deps, Active, f.note),
              rest))
  }

  // ----- whole inputs -----

  /** The loop of `skip_sexp` with `open` brackets of the starting kind still open. */
  function SkipOpen(ts: Stream, open: nat, close: Token): (rest: Stream)
    ensures |rest| <= |ts|
    decreases |ts|
  {
    if open == 0 || ts[0] == Eof then ts
    else if ts[0] == LParen || ts[0] == LBracket then SkipOpen(Advance(ts), open + 1, close)
    else if ts[0] == close then SkipOpen(Advance(ts), open - 1, close)
    else SkipOpen(Advance(ts), open, close)
  }

  function SkipSexp(ts: Stream): (rest: Stream)
    ensures |rest| <= |ts|
    ensures ts[0] != Eof ==> |rest| < |ts|
  {
    if ts[0] == LParen then SkipOpen(Advance(ts), 1, RParen)
    else if ts[0] == LBracket then SkipOpen(Advance(ts), 1, RBracket)
    else Advance(ts)
  }

  predicate AtNode(ts: Stream) {
    ts[0] == LParen && |ts| > 1 && ts[1] == Symbol("node")
  }

  /** The top-level loop of `parse`. */
  function ParseNodes(ts: Stream, cal: Calendar): Result<seq<Node>, ParseError>
    decreases |ts|
  {
    if ts[0] == Eof then Ok([])
    else if AtNode(ts) then
      var (node, rest) :- ParseNode(ts, 0, cal);
      var nodes :- ParseNodes(rest, cal);
      Ok([node] + nodes)
    else if ts[0] == LParen then ParseNodes(SkipSexp(ts), cal)
    else ParseNodes(Advance(ts), cal)
  }

  function TokensOfSource(src: Text): Result<Stream, ParseError> {
    match LexAll(src)
    case Err(e) => Err(LexFailed(e))
    case Ok(tokens) => if |tokens| > MAX_TOKENS then Err(TokenLimit) else Ok(tokens)
  }

  /** `Parser::parse`. */
  function Parse(src: Text, cal: Calendar): Result<seq<Node>, ParseError> {
    var tokens :- TokensOfSource(src);
    ParseNodes(tokens, cal)
  }

  /** `Parser::parse_predicate`. */
  function ParsePredicate(src: Text, cal: Calendar): Result<Predicate, ParseError> {
    var tokens :- TokensOfSource(src);
    var rest :- Expect(tokens, LParen);
    var (pred, rest) :- ParseBody(rest, 1, cal);
    var _ :- Expect(rest, RParen);
    Ok(pred)
  }
}
