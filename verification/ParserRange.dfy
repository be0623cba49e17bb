/** What the lexer and the parser can return, for every text. */
module ParserRange {
  import opened Types
  import opened Decimal
  import opened Lexer
  import opened Serialize
  import opened Grammar
  import opened Lexemes
  import opened Printing
  import opened NodePrinting
  import opened Parsing
  import opened RoundTrip
  import Utf8

  // ----- the lexer's range -----

  /** What every token of the lexer is. */
  predicate TokenFits(t: Token) {
    match t
    case Symbol(s) => IsSymbol(s)
    case Variable(s) => IsName(s)
    case Keyword(s) => IsName(s)
    case EntityName(s) => IsEntityName(s)
    case QuotedText(s) => Utf8.Valid(s)
    case UriText(s) => IsUri(s)
    case _ => true
  }

  predicate AllTokensFit(ts: seq<Token>) {
    forall i :: 0 <= i < |ts| ==> TokenFits(ts[i])
  }

  lemma ValidMore(piece: Text, tail: Text)
    requires Utf8.IsOneChar(piece) && Utf8.Valid(tail)
    ensures Utf8.Valid(piece + tail)
  {
    var s := piece + tail;
    assert Utf8.Width(s[0]) == |piece| && s[..|piece|] == piece && s[|piece|..] == tail;
  }

  lemma {:induction false} ValidConcat(a: Text, b: Text)
    requires Utf8.Valid(a) && Utf8.Valid(b)
    ensures Utf8.Valid(a + b)
    decreases |a|
  {
    hide *;
    if a == [] {
      assert a + b == b;
    } else {
      var piece, tail := FirstChar(a);
      ValidConcat(tail, b);
      PieceIsChar(piece);
      ValidMore(piece, tail + b);
      assert a + b == piece + (tail + b);
    }
  }

  lemma PieceIsChar(piece: Text)
    requires IsPiece(piece)
    ensures Utf8.IsOneChar(piece)
  {
  }

  lemma PieceInClass(piece: Text, charClass: CharClass)
    requires Utf8.IsOneChar(piece) && InClass(piece[0], charClass)
    ensures AllIn(piece, charClass)
  {
  }

  lemma AllInConcat(a: Text, b: Text, charClass: CharClass)
    requires AllIn(a, charClass) && AllIn(b, charClass)
    ensures AllIn(a + b, charClass)
  {
    hide InClass;
  }

  /** What the scanning loop consumes are whole characters of its class. */
  lemma {:induction false} RunRange(s: Text, charClass: CharClass)
    ensures Run(s, charClass).Ok? ==>
              Utf8.Valid(s[..Run(s, charClass).value]) && AllIn(s[..Run(s, charClass).value], charClass)
  {
    hide *;
    if s == [] || !InClass(s[0], charClass) {
      RunStops(s, charClass);
    } else if Run(s, charClass).Ok? {
      RunIs(s, charClass);
      ReadPiece(s);
      var w := ReadChar(s).value;
      RunRange(s[w..], charClass);
      var n := Run(s[w..], charClass).value;
      var piece, tail := s[..w], s[w..][..n];
      assert s[..w + n] == piece + tail;
      PieceInClass(piece, charClass);
      ValidMore(piece, tail);
      AllInConcat(piece, tail, charClass);
    }
  }

  lemma RunStops(s: Text, charClass: CharClass)
    requires s == [] || !InClass(s[0], charClass)
    ensures Run(s, charClass) == Ok(0) && Utf8.Valid(s[..0]) && AllIn(s[..0], charClass)
  {
  }

  lemma RunIs(s: Text, charClass: CharClass)
    requires s != [] && InClass(s[0], charClass) && Run(s, charClass).Ok?
    ensures ReadChar(s).Ok? && Run(s[ReadChar(s).value..], charClass).Ok?
    ensures Run(s, charClass).value == ReadChar(s).value + Run(s[ReadChar(s).value..], charClass).value
  {
    hide ReadChar, InClass;
  }

  lemma ReadPiece(s: Text)
    requires s != [] && ReadChar(s).Ok?
    ensures Utf8.IsOneChar(s[..ReadChar(s).value]) && s[..ReadChar(s).value][0] == s[0]
  {
    hide Utf8.IsOneChar;
  }

  lemma UnescapeValid(c: char)
    ensures Utf8.Valid(Unescape(c))
  {
  }

  /** A string literal's text is made of whole characters. */
  lemma {:induction false} StringRange(s: Text)
    ensures StringBody(s).Ok? ==> Utf8.Valid(StringBody(s).value.0)
  {
    hide ReadChar, Unescape, Utf8.Valid;
    if s == [] || s[0] == '"' {
      NothingValid();
    } else if s[0] == '\\' {
      if |s| > 1 {
        StringRange(s[2..]);
        UnescapeValid(s[1]);
        if StringBody(s[2..]).Ok? {
          ValidConcat(Unescape(s[1]), StringBody(s[2..]).value.0);
        }
      }
    } else if ReadChar(s).Ok? {
      var w := ReadChar(s).value;
      StringRange(s[w..]);
      if StringBody(s[w..]).Ok? {
        ReadPiece(s);
        ValidMore(s[..w], StringBody(s[w..]).value.0);
      }
    }
  }

  lemma NothingValid()
    ensures Utf8.Valid([])
  {
  }

  lemma SymbolRange(s: Text)
    requires !StartsNumber(s) && LexSymbol(s).Ok?
    ensures TokenFits(LexSymbol(s).value.0)
  {
    RunRange(s, SymbolChars);
    hide Run, AllIn, Utf8.Valid;
    var n := LexSymbol(s).value.1;
    if n == 1 && |s| > 1 && s[0] == '-' {
      assert s[..n] == [s[0]];
    }
  }

  lemma NameRange(s: Text, charClass: CharClass, missing: LexError)
    requires s != [] && LexName(s, charClass, missing).Ok?
    ensures var name := LexName(s, charClass, missing).value.0;
            name != [] && Utf8.Valid(name) && AllIn(name, charClass)
  {
    RunRange(s[1..], charClass);
    hide Run, AllIn, Utf8.Valid;
    var n := Run(s[1..], charClass).value;
    assert s[1..n + 1] == s[1..][..n];
  }

  lemma UriRange(s: Text)
    requires s != [] && LexUri(s).Ok?
    ensures TokenFits(LexUri(s).value.0)
  {
    RunRange(s[1..], UriChars);
    hide Run, AllIn, Utf8.Valid;
    var n := Run(s[1..], UriChars).value;
    assert s[1..n + 1] == s[1..][..n];
  }

  lemma HashRange(s: Text)
    requires s != [] && s[0] == '#' && LexHash(s).Ok?
    ensures TokenFits(LexHash(s).value.0)
  {
    hide ParenBody;
  }

  lemma NextRange(s: Text)
    requires s != [] && Next(s).Ok?
    ensures TokenFits(Next(s).value.0)
  {
    hide LexName, LexUri, LexHash, LexNumber, LexSymbol, StringBody, StartsNumber, AllIn, Utf8.Valid;
    match s[0]
    case '"' => StringRange(s[1..]);
    case '?' => NameRange(s, NameChars, VariableNameExpected);
    case ':' => NameRange(s, NameChars, KeywordNameExpected);
    case '<' => UriRange(s);
    case '@' => NameRange(s, EntityChars, EntityNameExpected);
    case '#' => HashRange(s);
    case _ =>
      if StartsNumber(s) {
        NumberRange(s);
      } else if s[0] != '(' && s[0] != ')' && s[0] != '[' && s[0] != ']' {
        SymbolRange(s);
      }
  }

  lemma NumberRange(s: Text)
    requires StartsNumber(s)
    ensures LexNumber(s).Ok? ==> TokenFits(LexNumber(s).value.0)
  {
    hide NumberLength;
  }

  /** Every token the lexer makes of any bytes fits. */
  lemma {:induction false} LexRange(s: Text, count: int)
    ensures LexFrom(s, count).Ok? ==> AllTokensFit(LexFrom(s, count).value)
    decreases |s|
  {
    hide *;
    var rest := s[Skip(s)..];
    EofFits();
    LexFromStep(s, rest, count);
    if rest != [] && Next(rest).Ok? {
      var (token, n) := Next(rest).value;
      NextRange(rest);
      LexRange(rest[n..], count + 1);
      if LexFrom(rest[n..], count + 1).Ok? {
        FitsCons(token, LexFrom(rest[n..], count + 1).value);
      }
    }
  }

  lemma LexFromStep(s: Text, rest: Text, count: int)
    requires rest == s[Skip(s)..]
    ensures rest == [] ==> LexFrom(s, count) == Ok([Eof])
    ensures rest != [] && LexFrom(s, count).Ok? ==>
              && Next(rest).Ok?
              && var (token, n) := Next(rest).value;
                 && LexFrom(rest[n..], count + 1).Ok?
                 && LexFrom(s, count).value == [token] + LexFrom(rest[n..], count + 1).value
  {
    hide Skip, Next;
  }

  lemma FitsCons(token: Token, rest: seq<Token>)
    requires TokenFits(token) && AllTokensFit(rest)
    ensures AllTokensFit([token] + rest)
  {
    hide TokenFits;
  }

  lemma EofFits()
    ensures AllTokensFit([Eof])
  {
  }

  // ----- the parser's range: terms -----

  /** What the text form asks of the leaves of a parsed term: entities, which a bare symbol also gives, are entity
      names, and durations are below 2^64 nanoseconds, which units can take them beyond. */
  predicate TermCarries(t: Term) {
    match t
    case Ent(entity) => IsEntityName(entity)
    case Lit(lit) => lit.Dur? ==> lit.nanos < U64_LIMIT
    case Compound(pred) => Carries(pred)
    case List(items) => ArgsCarry(items)
    case _ => true
  }

  predicate ArgsCarry(args: seq<Term>) {
    args == [] || (TermCarries(args[0]) && ArgsCarry(args[1..]))
  }

  predicate NamedCarry(named: seq<NamedArg>) {
    named == [] || (TermCarries(named[0].value) && NamedCarry(named[1..]))
  }

  predicate Carries(p: Predicate) {
    ArgsCarry(p.args) && NamedCarry(p.named)
  }

  /** What every parsed term is: it fits the text form but for its leaves. */
  predicate TermNear(t: Term) {
    match t
    case Var(name) => IsName(name)
    case Ent(entity) => IsEntityName(entity) || IsSymbol(entity)
    case Lit(lit) => lit.Dur? || LiteralFits(lit)
    case Compound(pred) => PredicateNear(pred)
    case List(items) => ArgsNear(items)
  }

  predicate ArgsNear(args: seq<Term>) {
    args == [] || (TermNear(args[0]) && ArgsNear(args[1..]))
  }

  predicate NamedNear(named: seq<NamedArg>) {
    named == [] || (IsName(named[0].key) && TermNear(named[0].value) && NamedNear(named[1..]))
  }

  predicate PredicateNear(p: Predicate) {
    p.head.Name? && IsSymbol(p.head.name) && ArgsNear(p.args) && NamedNear(p.named)
  }

  lemma {:induction false} TermNearFits(t: Term)
    requires TermNear(t) && TermCarries(t)
    ensures TermFits(t)
  {
    hide IsName, IsSymbol, IsEntityName, Utf8.Valid, IsUri;
    match t
    case Compound(pred) => NearFits(pred);
    case List(items) => ArgsNearFit(items);
    case _ =>
  }

  lemma {:induction false} ArgsNearFit(args: seq<Term>)
    requires ArgsNear(args) && ArgsCarry(args)
    ensures ArgsFit(args)
  {
    if args != [] {
      TermNearFits(args[0]);
      ArgsNearFit(args[1..]);
      hide TermNear, TermCarries, TermFits;
    }
  }

  lemma {:induction false} NamedNearFit(named: seq<NamedArg>)
    requires NamedNear(named) && NamedCarry(named)
    ensures NamedFit(named)
  {
    if named != [] {
      TermNearFits(named[0].value);
      NamedNearFit(named[1..]);
      hide TermNear, TermCarries, TermFits, IsName;
    }
  }

  /** If its leaves carry, it fits. */
  lemma {:induction false} NearFits(p: Predicate)
    requires PredicateNear(p) && Carries(p)
    ensures PredicateFits(p)
  {
    ArgsNearFit(p.args);
    NamedNearFit(p.named);
    hide ArgsFit, NamedFit, ArgsNear, NamedNear, ArgsCarry, NamedCarry, IsSymbol;
  }

  predicate TermRanges(t: Term, depth: int) {
    TermNear(t) && TermHeadsNamed(t) && depth + TermNesting(t) <= MAX_PARSE_DEPTH
  }

  predicate ArgsRange(args: seq<Term>, depth: int) {
    ArgsNear(args) && ArgsHeadsNamed(args) && depth + ArgsNesting(args) <= MAX_PARSE_DEPTH
  }

  predicate NamedRange(named: seq<NamedArg>, depth: int) {
    NamedNear(named) && ValuesHeadsNamed(named) && depth + NamedNesting(named) <= MAX_PARSE_DEPTH
  }

  predicate PredicateRanges(p: Predicate, depth: int) {
    PredicateNear(p) && HeadsNamed(p) && depth + PredicateNesting(p) <= MAX_PARSE_DEPTH
  }

  lemma NoneRange(depth: int)
    requires depth <= MAX_PARSE_DEPTH
    ensures ArgsRange([], depth) && NamedRange([], depth)
  {
  }

  lemma ArgsRangeCons(t: Term, rest: seq<Term>, depth: int)
    requires TermRanges(t, depth) && ArgsRange(rest, depth)
    ensures ArgsRange([t] + rest, depth)
  {
    hide TermNear, TermHeadsNamed, TermNesting;
    assert ([t] + rest)[1..] == rest;
  }

  lemma NamedRangeCons(key: Text, t: Term, rest: seq<NamedArg>, depth: int)
    requires IsName(key) && TermRanges(t, depth) && NamedRange(rest, depth)
    ensures NamedRange([NamedArg(key, t)] + rest, depth)
  {
    hide TermNear, TermHeadsNamed, TermNesting, IsName;
    assert ([NamedArg(key, t)] + rest)[1..] == rest;
  }

  lemma PredicateRangeOf(head: Text, a: Arguments, depth: int)
    requires IsSymbol(head) && ArgsRange(a.args, depth) && NamedRange(a.named, depth)
    ensures PredicateRanges(Predicate(Name(head), a.args, a.named), depth)
  {
    hide ArgsNear, NamedNear, ArgsHeadsNamed, ValuesHeadsNamed, ArgsNesting, NamedNesting, IsSymbol;
  }

  lemma CompoundRange(p: Predicate, depth: int)
    requires PredicateRanges(p, depth + 1)
    ensures TermRanges(Compound(p), depth)
  {
    hide PredicateNear, HeadsNamed, PredicateNesting;
  }

  lemma ListRange(items: seq<Term>, depth: int)
    requires ArgsRange(items, depth + 1)
    ensures TermRanges(List(items), depth)
  {
    hide ArgsNear, ArgsHeadsNamed, ArgsNesting;
  }

  lemma LeafRange(token: Token, depth: int, cal: Calendar)
    requires TokenFits(token) && depth <= MAX_PARSE_DEPTH && ParseLeaf(token, cal).Ok?
    ensures TermRanges(ParseLeaf(token, cal).value, depth)
  {
    hide IsSymbol, IsName, IsEntityName, Utf8.Valid, IsUri, ParseDuration, DecFromStr, StartsNumber;
    if token.Number? {
      MantissaRange(token.text);
    }
  }

  lemma MantissaRange(text: Text)
    requires DecFromStr(text).Ok?
    ensures DecFromStr(text).value.Dec? && DecFromStr(text).value.mantissa != I128_MIN
  {
    hide Split, Trim, DigitsValue;
  }

  lemma AdvanceFits()
    ensures forall ts: Stream {:trigger Advance(ts)} ::
              AllTokensFit(ts) ==> AllTokensFit(Advance(ts)) && TokenFits(ts[0])
  {
    hide TokenFits;
    forall ts: Stream | AllTokensFit(ts) ensures AllTokensFit(Advance(ts)) && TokenFits(ts[0]) {
    }
  }

  lemma {:induction false} TermRange(ts: Stream, depth: int, cal: Calendar)
    requires AllTokensFit(ts) && depth <= MAX_PARSE_DEPTH
    ensures ParseTerm(ts, depth, cal).Ok? ==>
              AllTokensFit(ParseTerm(ts, depth, cal).value.1) && TermRanges(ParseTerm(ts, depth, cal).value.0, depth)
    decreases |ts|, 1
  {
    hide AllTokensFit, TokenFits, TermRanges, Advance, ParseBody, ParseItems, ParseLeaf;
    AdvanceFits();
    if ts[0] == LParen && depth < MAX_PARSE_DEPTH {
      var next := Advance(ts);
      AdvanceLess(ts);
      BodyRange(next, depth + 1, cal);
      if ParseBody(next, depth + 1, cal).Ok? {
        CompoundRange(ParseBody(next, depth + 1, cal).value.0, depth);
      }
    } else if ts[0] == LBracket && depth < MAX_PARSE_DEPTH {
      var next := Advance(ts);
      AdvanceLess(ts);
      ItemsRange(next, depth + 1, cal);
      if ParseItems(next, depth + 1, cal).Ok? {
        ListRange(ParseItems(next, depth + 1, cal).value.0, depth);
      }
    } else if ParseLeaf(ts[0], cal).Ok? {
      var next := Advance(ts);
      LeafRange(ts[0], depth, cal);
    }
  }

  lemma AdvanceLess(ts: Stream)
    requires ts[0] != Eof
    ensures |Advance(ts)| < |ts|
  {
  }

  lemma {:induction false} ItemsRange(ts: Stream, depth: int, cal: Calendar)
    requires AllTokensFit(ts) && depth <= MAX_PARSE_DEPTH
    ensures ParseItems(ts, depth, cal).Ok? ==>
              AllTokensFit(ParseItems(ts, depth, cal).value.1) && ArgsRange(ParseItems(ts, depth, cal).value.0, depth)
    decreases |ts|, 2
  {
    hide AllTokensFit, TermRanges, ParseTerm, ArgsRange;
    NoneRange(depth);
    if ts[0] != RBracket && ts[0] != Eof && ParseTerm(ts, depth, cal).Ok? {
      TermRange(ts, depth, cal);
      var (t, rest) := ParseTerm(ts, depth, cal).value;
      ItemsRange(rest, depth, cal);
      if ParseItems(rest, depth, cal).Ok? {
        ArgsRangeCons(t, ParseItems(rest, depth, cal).value.0, depth);
      }
    }
  }

  lemma {:induction false} ArgumentsRange(ts: Stream, inNamed: bool, depth: int, cal: Calendar)
    requires AllTokensFit(ts) && depth <= MAX_PARSE_DEPTH
    ensures var r := ParseArgs(ts, inNamed, depth, cal);
            r.Ok? ==> AllTokensFit(r.value.1) && ArgsRange(r.value.0.args, depth) && NamedRange(r.value.0.named, depth)
    decreases |ts|, 2
  {
    hide AllTokensFit, TermRanges, ParseTerm, ArgsRange, NamedRange, Advance;
    NoneRange(depth);
    AdvanceFits();
    if ts[0].Keyword? {
      var next := Advance(ts);
      AdvanceLess(ts);
      TermRange(next, depth, cal);
      if ParseTerm(next, depth, cal).Ok? {
        var (t, rest) := ParseTerm(next, depth, cal).value;
        ArgumentsRange(rest, true, depth, cal);
        if ParseArgs(rest, true, depth, cal).Ok? {
          NamedRangeCons(ts[0].text, t, ParseArgs(rest, true, depth, cal).value.0.named, depth);
        }
      }
    } else if ts[0] != RParen && ts[0] != Eof && !inNamed && ParseTerm(ts, depth, cal).Ok? {
      TermRange(ts, depth, cal);
      var (t, rest) := ParseTerm(ts, depth, cal).value;
      ArgumentsRange(rest, false, depth, cal);
      if ParseArgs(rest, false, depth, cal).Ok? {
        ArgsRangeCons(t, ParseArgs(rest, false, depth, cal).value.0.args, depth);
      }
    }
  }

  lemma {:induction false} BodyRange(ts: Stream, depth: int, cal: Calendar)
    requires AllTokensFit(ts) && depth <= MAX_PARSE_DEPTH
    ensures ParseBody(ts, depth, cal).Ok? ==>
              && AllTokensFit(ParseBody(ts, depth, cal).value.1)
              && PredicateRanges(ParseBody(ts, depth, cal).value.0, depth)
    decreases |ts|, 3
  {
    hide AllTokensFit, ParseArgs, ArgsRange, NamedRange, PredicateRanges, Advance;
    AdvanceFits();
    if ts[0].Symbol? {
      var next := Advance(ts);
      AdvanceLess(ts);
      ArgumentsRange(next, false, depth, cal);
      if ParseArgs(next, false, depth, cal).Ok? {
        PredicateRangeOf(ts[0].text, ParseArgs(next, false, depth, cal).value.0, depth);
      }
    }
  }

  // ----- the parser's range: nodes -----

  /** No quote and no backslash: the five provenance forms print their texts without escapes. */
  predicate NoEscapes(s: Text) {
    forall i :: 0 <= i < |s| ==> s[i] != '"' && s[i] != '\\'
  }

  predicate ProvenanceCarries(p: Provenance) {
    match p
    case Verbatim(doc, span) => NoEscapes(doc)
    case Summary(doc, span) => NoEscapes(doc)
    case Extracted(doc, span, model, version) => NoEscapes(doc) && NoEscapes(model) && NoEscapes(version)
    case Derived(from, rule) => NoEscapes(rule)
    case Asserted(principal) => NoEscapes(principal)
  }

  lemma FormRange(ts: Stream, depth: int, cal: Calendar)
    requires AllTokensFit(ts) && depth <= MAX_PARSE_DEPTH
    ensures ParseForm(ts, depth, cal).Ok? ==>
              && AllTokensFit(ParseForm(ts, depth, cal).value.1)
              && PredicateRanges(ParseForm(ts, depth, cal).value.0, depth + 1)
  {
    hide AllTokensFit, ParseBody, PredicateRanges, Advance;
    AdvanceFits();
    if depth < MAX_PARSE_DEPTH {
      BodyRange(Advance(ts), depth + 1, cal);
    }
  }

  lemma TimeRange(ts: Stream, cal: Calendar)
    requires AllTokensFit(ts)
    ensures ParseTime(ts, cal).Ok? ==> AllTokensFit(ParseTime(ts, cal).value.1)
  {
    hide AllTokensFit, Advance;
    AdvanceFits();
  }

  lemma ValidityRange(ts: Stream, cal: Calendar)
    requires AllTokensFit(ts)
    ensures ParseValidity(ts, cal).Ok? ==> AllTokensFit(ParseValidity(ts, cal).value.1)
  {
    hide AllTokensFit, Advance, ParseTime;
    AdvanceFits();
    forall rest: Stream | AllTokensFit(rest)
      ensures ParseTime(rest, cal).Ok? ==> AllTokensFit(ParseTime(rest, cal).value.1)
    {
      TimeRange(rest, cal);
    }
  }

  lemma TextRange(ts: Stream)
    requires AllTokensFit(ts) && ParseText(ts).Ok?
    ensures AllTokensFit(ParseText(ts).value.1)
    ensures Utf8.Valid(ParseText(ts).value.0) && (NoEscapes(ParseText(ts).value.0) ==> IsPlain(ParseText(ts).value.0))
  {
    hide AllTokensFit, Advance, Utf8.Valid, AllIn, StartsNumber;
    AdvanceFits();
    var rest := Advance(ts);
  }

  lemma U32Range(ts: Stream)
    requires AllTokensFit(ts)
    ensures ParseU32(ts).Ok? ==> AllTokensFit(ParseU32(ts).value.1)
  {
    hide AllTokensFit, Advance, ParseUnsigned;
    AdvanceFits();
  }

  lemma SpanRange(ts: Stream)
    requires AllTokensFit(ts)
    ensures ParseSpan(ts).Ok? ==> AllTokensFit(ParseSpan(ts).value.1)
  {
    hide AllTokensFit, Advance, ParseU32;
    AdvanceFits();
    forall rest: Stream | AllTokensFit(rest) ensures ParseU32(rest).Ok? ==> AllTokensFit(ParseU32(rest).value.1) {
      U32Range(rest);
    }
  }

  lemma ModelRange(ts: Stream)
    requires AllTokensFit(ts) && ParseModel(ts).Ok?
    ensures var (model, rest) := ParseModel(ts).value;
            && AllTokensFit(rest)
            && (NoEscapes(model.0) ==> IsPlain(model.0)) && (NoEscapes(model.1) ==> IsPlain(model.1))
  {
    hide AllTokensFit, Advance, ParseText, NoEscapes, IsPlain;
    AdvanceFits();
    forall rest: Stream | AllTokensFit(rest) && ParseText(rest).Ok?
      ensures AllTokensFit(ParseText(rest).value.1)
      ensures NoEscapes(ParseText(rest).value.0) ==> IsPlain(ParseText(rest).value.0)
    {
      TextRange(rest);
    }
  }

  lemma ProvenanceOfRange(kind: Text, ts: Stream)
    requires AllTokensFit(ts) && ParseProvenanceOf(kind, ts).Ok?
    ensures var (p, rest) := ParseProvenanceOf(kind, ts).value;
            AllTokensFit(rest) && (ProvenanceCarries(p) ==> ProvenanceFits(p))
  {
    hide AllTokensFit, Advance, ParseText, NoEscapes, IsPlain, ParseSpan, ParseModel, IsSymbol;
    AdvanceFits();
    forall rest: Stream | AllTokensFit(rest) && ParseText(rest).Ok?
      ensures AllTokensFit(ParseText(rest).value.1)
      ensures NoEscapes(ParseText(rest).value.0) ==> IsPlain(ParseText(rest).value.0)
    {
      TextRange(rest);
    }
    forall rest: Stream | AllTokensFit(rest) && ParseSpan(rest).Ok? ensures AllTokensFit(ParseSpan(rest).value.1) {
      SpanRange(rest);
    }
    if kind == "extracted" {
      var rest := ParseSpan(ParseText(ts).value.1).value.1;
      ModelRange(rest);
    }
  }

  lemma ProvenanceRange(ts: Stream)
    requires AllTokensFit(ts) && ParseProvenance(ts).Ok?
    ensures var (p, rest) := ParseProvenance(ts).value;
            AllTokensFit(rest) && (ProvenanceCarries(p) ==> ProvenanceFits(p))
  {
    hide AllTokensFit, Advance, ParseProvenanceOf, ProvenanceCarries, ProvenanceFits;
    AdvanceFits();
    var rest := Advance(ts);
    ProvenanceOfRange(rest[0].text, Advance(rest));
  }

  lemma ScoreRange(ts: Stream)
    requires AllTokensFit(ts) && ParseUnitScore(ts).Ok?
    ensures var (score, rest) := ParseUnitScore(ts).value;
            AllTokensFit(rest) && score.Normal() && score.InUnit()
  {
    hide AllTokensFit, Advance, Split, DigitsValue;
    AdvanceFits();
  }

  lemma PermissionRange(ts: Stream)
    requires AllTokensFit(ts) && ParsePermission(ts).Ok?
    ensures AllTokensFit(ParsePermission(ts).value.1) && PermissionFits(ParsePermission(ts).value.0)
  {
    hide AllTokensFit, Advance;
    AdvanceFits();
  }

  lemma {:induction false} IdsRange(ts: Stream)
    requires AllTokensFit(ts)
    ensures ParseIds(ts).Ok? ==> AllTokensFit(ParseIds(ts).value.1) && IdsFit(ParseIds(ts).value.0)
    decreases |ts|
  {
    hide AllTokensFit, Advance, IsSymbol;
    AdvanceFits();
    if ts[0].Symbol? {
      AdvanceLess(ts);
      IdsRange(Advance(ts));
    }
  }

  lemma IdListRange(ts: Stream)
    requires AllTokensFit(ts)
    ensures ParseIdList(ts).Ok? ==> AllTokensFit(ParseIdList(ts).value.1) && IdsFit(ParseIdList(ts).value.0)
  {
    hide AllTokensFit, Advance, IsSymbol, ParseIds;
    AdvanceFits();
    if ts[0] == LBracket {
      IdsRange(Advance(ts));
    }
  }

  /** What the fields read so far satisfy. */
  ghost predicate FieldsRange(f: Fields, depth: int) {
    && (f.pred.Some? ==> PredicateRanges(f.pred.value, depth + 1))
    && (ProvenanceCarries(f.provenance) ==> ProvenanceFits(f.provenance))
    && f.confidence.Normal() && f.confidence.InUnit() && f.authority.Normal() && f.authority.InUnit()
    && PermissionFits(f.permissions) && IdsFit(f.deps)
    && (f.note.Some? ==> Utf8.Valid(f.note.value))
  }

  lemma FieldRange(keyword: Text, ts: Stream, f: Fields, depth: int, cal: Calendar)
    requires AllTokensFit(ts) && FieldsRange(f, depth) && depth <= MAX_PARSE_DEPTH
    ensures ParseField(keyword, ts, f, depth, cal).Ok? ==>
              && AllTokensFit(ParseField(keyword, ts, f, depth, cal).value.1)
              && FieldsRange(ParseField(keyword, ts, f, depth, cal).value.0, depth)
  {
    hide AllTokensFit, Advance, ParseForm, ParseValidity, ParseProvenance, ParseUnitScore, ParsePermission, ParseIdList,
      PredicateRanges, ProvenanceCarries, ProvenanceFits, Score.Normal, Score.InUnit, PermissionFits, IdsFit,
      Utf8.Valid, IsSymbol;
    if keyword == "pred" {
      FormRange(ts, depth, cal);
    } else if keyword == "valid" {
      ValidityRange(ts, cal);
    } else if keyword == "src" {
      if ParseProvenance(ts).Ok? {
        ProvenanceRange(ts);
      }
    } else if keyword == "conf" || keyword == "auth" {
      if ParseUnitScore(ts).Ok? {
        ScoreRange(ts);
      }
    } else if keyword == "perm" {
      if ParsePermission(ts).Ok? {
        PermissionRange(ts);
      }
    } else if keyword == "deps" {
      IdListRange(ts);
    } else if keyword == "note" {
      NoteRange(ts);
    }
  }

  lemma NoteRange(ts: Stream)
    requires AllTokensFit(ts)
    ensures AllTokensFit(Advance(ts)) && (ts[0].QuotedText? || ts[0].Symbol? ==> Utf8.Valid(ts[0].text))
  {
    hide AllTokensFit, Advance, Utf8.Valid;
    AdvanceFits();
    var rest := Advance(ts);
  }

  lemma {:induction false} AllFieldsRange(ts: Stream, f: Fields, depth: int, cal: Calendar)
    requires AllTokensFit(ts) && FieldsRange(f, depth) && depth <= MAX_PARSE_DEPTH
    ensures ParseFields(ts, f, depth, cal).Ok? ==>
              && AllTokensFit(ParseFields(ts, f, depth, cal).value.1)
              && FieldsRange(ParseFields(ts, f, depth, cal).value.0, depth)
    decreases |ts|
  {
    hide AllTokensFit, Advance, ParseField, FieldsRange;
    AdvanceFits();
    if ts[0].Keyword? {
      var next := Advance(ts);
      FieldRange(ts[0].text, next, f, depth, cal);
      if ParseField(ts[0].text, next, f, depth, cal).Ok? {
        var (more, rest) := ParseField(ts[0].text, next, f, depth, cal).value;
        AllFieldsRange(rest, more, depth, cal);
      }
    }
  }

  /** What every parsed node is: it fits the text form but for its leaves and its provenance texts. */
  ghost predicate NodeRanges(n: Node) {
    && PredicateNear(n.pred) && HeadsNamed(n.pred) && Shallow(n) && n.status == Active
    && (ProvenanceCarries(n.provenance) ==> ProvenanceFits(n.provenance))
    && IsSymbol(n.id) && IdsFit(n.deps) && PermissionFits(n.permissions)
    && n.confidence.Normal() && n.confidence.InUnit() && n.authority.Normal() && n.authority.InUnit()
    && (n.note.Some? ==> Utf8.Valid(n.note.value))
  }

  lemma RangedFits(n: Node)
    requires NodeRanges(n) && Carries(n.pred) && ProvenanceCarries(n.provenance)
    ensures NodeFits(n)
  {
    NearFits(n.pred);
    hide PredicateNear, HeadsNamed, PredicateNesting, PredicateFits, Carries, ProvenanceCarries, ProvenanceFits,
      IsSymbol, IdsFit, PermissionFits, Score.Normal, Score.InUnit, Utf8.Valid;
  }

  lemma DefaultsRange()
    ensures FieldsRange(DEFAULT_FIELDS, 1)
  {
    LettersAreNames("system");
  }

  lemma NodeFieldsRange(id: Text, f: Fields)
    requires IsSymbol(id) && FieldsRange(f, 1) && f.pred.Some?
    ensures NodeRanges(Node(id, f.pred.value, f.validity, f.provenance, f.confidence, f.authority, f.permissions,
                            f.deps, Active, f.note))
  {
    hide IsSymbol, PredicateNear, HeadsNamed, PredicateNesting, ProvenanceCarries, ProvenanceFits, Score.Normal,
      Score.InUnit, PermissionFits, IdsFit, Utf8.Valid;
  }

  lemma NodeRange(ts: Stream, cal: Calendar)
    requires AllTokensFit(ts)
    ensures ParseNode(ts, 0, cal).Ok? ==>
              AllTokensFit(ParseNode(ts, 0, cal).value.1) && NodeRanges(ParseNode(ts, 0, cal).value.0)
  {
    hide AllTokensFit, Advance, ParseFields, FieldsRange, NodeRanges, DEFAULT_FIELDS, IsSymbol;
    AdvanceFits();
    DefaultsRange();
    if ParseNode(ts, 0, cal).Ok? {
      var header := Advance(Advance(ts));
      var fields := Advance(header);
      assert TokenFits(header[0]);
      AllFieldsRange(fields, DEFAULT_FIELDS, 1, cal);
      var (f, rest) := ParseFields(fields, DEFAULT_FIELDS, 1, cal).value;
      NodeFieldsRange(header[0].text, f);
    }
  }

  lemma {:induction false} SkipRange(ts: Stream, open: nat, close: Token)
    requires AllTokensFit(ts)
    ensures AllTokensFit(SkipOpen(ts, open, close))
    decreases |ts|
  {
    hide AllTokensFit, Advance;
    AdvanceFits();
    if open > 0 && ts[0] != Eof {
      AdvanceLess(ts);
      SkipRange(Advance(ts), if ts[0] == LParen || ts[0] == LBracket then open + 1
                             else if ts[0] == close then open - 1 else open, close);
    }
  }

  lemma SexpRange(ts: Stream)
    requires AllTokensFit(ts)
    ensures AllTokensFit(SkipSexp(ts))
  {
    hide AllTokensFit, Advance, SkipOpen;
    AdvanceFits();
    SkipRange(Advance(ts), 1, if ts[0] == LParen then RParen else RBracket);
  }

  lemma {:induction false} NodesRange(ts: Stream, cal: Calendar)
    requires AllTokensFit(ts)
    ensures ParseNodes(ts, cal).Ok? ==> forall n <- ParseNodes(ts, cal).value :: NodeRanges(n)
    decreases |ts|
  {
    hide AllTokensFit, Advance, ParseNode, SkipSexp, NodeRanges;
    AdvanceFits();
    if AtNode(ts) {
      NodeRange(ts, cal);
      if ParseNode(ts, 0, cal).Ok? {
        NodesRange(ParseNode(ts, 0, cal).value.1, cal);
      }
    } else if ts[0] == LParen {
      SexpRange(ts);
      NodesRange(SkipSexp(ts), cal);
    } else if ts[0] != Eof {
      AdvanceLess(ts);
      NodesRange(Advance(ts), cal);
    }
  }

  /** Every node parsed from any text is active, has heads by name, nested no deeper than the parser goes, symbols as
      ids, scores in the unit interval and one of the four tags, and it fits the text form but for its leaves and its
      provenance texts. */
  lemma ParsedNodes(src: Text, cal: Calendar)
    ensures Parse(src, cal).Ok? ==> forall n <- Parse(src, cal).value :: NodeRanges(n)
  {
    hide ParseNodes, LexFrom, AllTokensFit, NodeRanges;
    LexRange(src, 0);
    if TokensOfSource(src).Ok? {
      NodesRange(TokensOfSource(src).value, cal);
    }
  }
}
