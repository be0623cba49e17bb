/** Node forms as people write them: fields in any order, some of them left out or given more than once, and durations
    in any unit. */
module Forms {
  import opened Types
  import opened Decimal
  import opened Lexer
  import opened Serialize
  import opened Grammar
  import opened Lexemes
  import opened Printing
  import opened NodePrinting
  import opened Parsing
  import opened RoundTrip
  import Utf8

  // ----- fields as given -----

  datatype Given =
    | Pred(pred: Predicate)
    | Valid(validity: Validity)
    | Src(provenance: Provenance)
    | Conf(confidence: Score)
    | Auth(authority: Score)
    | Perm(permissions: bv32)
    | Deps(deps: seq<Text>)
    | Note(note: Text)
    | Since(day: int, end: Option<int>)   // a window given by dates
    | Cited(short: Provenance)            // symbols for texts, no brackets
    | DependsOn(id: Text)                 // one id without brackets
    | Word(word: Text)                    // a note of one symbol

  function FieldOf(g: Given, cal: Calendar): Field {
    match g
    case Pred(p) => Field("pred", PredicateLexemes(p, cal))
    case Valid(v) => Field("valid", ValidityLexemes(v, cal))
    case Src(p) => Field("src", ProvenanceLexemes(p))
    case Conf(s) => Field("conf", [Spelled(Number(ScoreText(s)))])
    case Auth(s) => Field("auth", [Spelled(Number(ScoreText(s)))])
    case Perm(tag) => Field("perm", [Spelled(Symbol(PermissionText(tag)))])
    case Deps(ids) => Field("deps", DepsLexemes(ids))
    case Note(s) => Field("note", [Spelled(QuotedText(s))])
    case Since(day, end) => Field("valid", SinceLexemes(day, end, cal))
    case Cited(p) => Field("src", CitedLexemes(p))
    case DependsOn(id) => Field("deps", [Spelled(Symbol(id))])
    case Word(s) => Field("note", [Spelled(Symbol(s))])
  }

  function DateLexeme(day: int, cal: Calendar): Lexeme {
    Spelled(DateText(cal.showDate(day)))
  }

  function SinceLexemes(day: int, end: Option<int>, cal: Calendar): seq<Lexeme> {
    TaggedLexemes("window", DateLexeme(day, cal))
    + (if end.Some? then [DateLexeme(end.value, cal)] else []) + [Spelled(RParen)]
  }

  function Bounds(span: Span): seq<Lexeme> {
    [Spelled(Number(NatText(span.start))), Spelled(Number(NatText(span.end)))]
  }

  function CitedLexemes(p: Provenance): seq<Lexeme> {
    match p
    case Verbatim(doc, span) => TaggedLexemes("verbatim", Spelled(Symbol(doc))) + Bounds(span) + [Spelled(RParen)]
    case Summary(doc, span) => TaggedLexemes("summary", Spelled(Symbol(doc))) + Bounds(span) + [Spelled(RParen)]
    case Extracted(doc, span, model, version) =>
      TaggedLexemes("extracted", Spelled(Symbol(doc)))
      + (Bounds(span) + [Spelled(Symbol(model)), Spelled(Symbol(version))]) + [Spelled(RParen)]
    case Derived(from, rule) =>
      TaggedLexemes("derived", Spelled(Symbol(from))) + [Spelled(Symbol(rule))] + [Spelled(RParen)]
    case Asserted(principal) => TaggedLexemes("asserted", Spelled(Symbol(principal))) + [] + [Spelled(RParen)]
  }

  predicate AllSymbols(p: Provenance) {
    match p
    case Verbatim(doc, _) => IsSymbol(doc)
    case Summary(doc, _) => IsSymbol(doc)
    case Extracted(doc, _, model, version) => IsSymbol(doc) && IsSymbol(model) && IsSymbol(version)
    case Derived(from, rule) => IsSymbol(from) && IsSymbol(rule)
    case Asserted(principal) => IsSymbol(principal)
  }

  /** Midnight of a day is an instant. */
  predicate IsDay(day: int) {
    I64_MIN * NANOS <= day * 86_400_000_000_000 < (I64_MAX + 1) * NANOS
  }

  function Midnight(day: int): Instant
    requires IsDay(day)
  {
    day * 86_400_000_000_000
  }

  function FieldsFor(gs: seq<Given>, cal: Calendar): seq<Field> {
    if gs == [] then [] else [FieldOf(gs[0], cal)] + FieldsFor(gs[1..], cal)
  }

  /** What the text form can carry, one field at a time. */
  ghost predicate GivenFits(g: Given) {
    match g
    case Pred(p) => PredicateFits(p) && 2 + PredicateNesting(p) <= MAX_PARSE_DEPTH && HeadsNamed(p)
    case Valid(_) => true
    case Src(p) => ProvenanceFits(p)
    case Conf(s) => s.Normal() && s.InUnit()
    case Auth(s) => s.Normal() && s.InUnit()
    case Perm(tag) => PermissionFits(tag)
    case Deps(ids) => IdsFit(ids)
    case Note(s) => Utf8.Valid(s)
    case Since(day, end) => IsDay(day) && (end.Some? ==> IsDay(end.value))
    case Cited(p) => AllSymbols(p)
    case DependsOn(id) => IsSymbol(id)
    case Word(s) => IsSymbol(s)
  }

  ghost predicate AllGivenFit(gs: seq<Given>) {
    forall g <- gs :: GivenFits(g)
  }

  function Set(f: Fields, g: Given): Fields
    requires g.Since? ==> IsDay(g.day) && (g.end.Some? ==> IsDay(g.end.value))
  {
    match g
    case Pred(p) => f.(pred := Some(p))
    case Valid(v) => f.(validity := v)
    case Src(p) => f.(provenance := p)
    case Conf(s) => f.(confidence := s)
    case Auth(s) => f.(authority := s)
    case Perm(tag) => f.(permissions := tag)
    case Deps(ids) => f.(deps := ids)
    case Note(s) => f.(note := Some(s))
    case Since(day, end) =>
      f.(validity := Window(Midnight(day), if end.Some? then Some(Midnight(end.value)) else None))
    case Cited(p) => f.(provenance := p)
    case DependsOn(id) => f.(deps := [id])
    case Word(s) => f.(note := Some(s))
  }

  lemma FirstFits(gs: seq<Given>)
    requires AllGivenFit(gs)
    ensures gs != [] ==> GivenFits(gs[0]) && AllGivenFit(gs[1..])
  {
    hide GivenFits;
  }

  ghost function SetAll(f: Fields, gs: seq<Given>): Fields
    requires AllGivenFit(gs)
    decreases gs
  {
    FirstFits(gs);
    if gs == [] then f else SetAll(Set(f, gs[0]), gs[1..])
  }

  // ----- one field -----

  lemma DepsGiven(ids: seq<Text>, f: Fields, tail: Stream, cal: Calendar)
    ensures ParseFields([Keyword("deps")] + (TokensOf(DepsLexemes(ids)) + tail), f, 1, cal)
         == ParseFields(tail, f.(deps := ids), 1, cal)
  {
    DepsReadBack(ids, tail);
    hide TokensOf, DepsLexemes, ParseFields, ParseIdList;
    FieldStep(Field("deps", DepsLexemes(ids)), tail, f, f.(deps := ids), 1, cal);
  }

  lemma NoteGiven(s: Text, f: Fields, tail: Stream, cal: Calendar)
    ensures ParseFields([Keyword("note")] + (TokensOf([Spelled(QuotedText(s))]) + tail), f, 1, cal)
         == ParseFields(tail, f.(note := Some(s)), 1, cal)
  {
    var quoted := Spelled(QuotedText(s));
    TokensOfShort(quoted, quoted);
    hide TokensOf, ParseFields, Advance, Escape;
    AdvanceCons(QuotedText(s), tail);
    FieldStep(Field("note", [quoted]), tail, f, f.(note := Some(s)), 1, cal);
  }

  lemma PredGiven(p: Predicate, f: Fields, tail: Stream, cal: Calendar)
    requires PredicateFits(p) && 2 + PredicateNesting(p) <= MAX_PARSE_DEPTH && HeadsNamed(p) && Lawful(cal)
    ensures ParseFields([Keyword("pred")] + (TokensOf(PredicateLexemes(p, cal)) + tail), f, 1, cal)
         == ParseFields(tail, f.(pred := Some(p)), 1, cal)
  {
    FormReadBack(p, tail, 1, cal);
    AlreadyNamed(p);
    hide *;
    PredicateTokensOf(p, cal);
    OutcomeOf(true, p, tail);
    PredFieldOf(TokensOf(PredicateLexemes(p, cal)) + tail, p, f, tail, cal);
    FieldStep(Field("pred", PredicateLexemes(p, cal)), tail, f, f.(pred := Some(p)), 1, cal);
  }

  lemma PredFieldOf(ts: Stream, p: Predicate, f: Fields, tail: Stream, cal: Calendar)
    requires ParseForm(ts, 1, cal) == Ok((p, tail))
    ensures ParseField("pred", ts, f, 1, cal) == Ok((f.(pred := Some(p)), tail))
  {
    hide ParseForm;
  }

  // ----- short forms -----

  lemma DateReadBack(day: int, rest: Stream, cal: Calendar)
    requires Lawful(cal) && IsDay(day)
    ensures ParseTime([DateText(cal.showDate(day))] + rest, cal) == Ok((Midnight(day), rest))
  {
    AdvanceCons(DateText(cal.showDate(day)), rest);
    hide Advance;
  }

  lemma DateTokens(end: Option<int>, cal: Calendar)
    ensures TokensOf(if end.Some? then [DateLexeme(end.value, cal)] else [])
         == if end.Some? then [DateText(cal.showDate(end.value))] else []
  {
    if end.Some? {
      TokensOfShort(DateLexeme(end.value, cal), Spelled(LParen));
    }
  }

  lemma SinceReadBack(day: int, end: Option<int>, rest: Stream, cal: Calendar)
    requires Lawful(cal) && IsDay(day) && (end.Some? ==> IsDay(end.value))
    ensures ParseValidity(TokensOf(SinceLexemes(day, end, cal)) + rest, cal)
         == Ok((Window(Midnight(day), if end.Some? then Some(Midnight(end.value)) else None), rest))
  {
    var last := if end.Some? then [DateLexeme(end.value, cal)] else [];
    var more := if end.Some? then [DateText(cal.showDate(end.value))] else [];
    DateTokens(end, cal);
    TaggedTokens("window", DateLexeme(day, cal), last, rest);
    assert DateLexeme(day, cal).token == DateText(cal.showDate(day));
    hide TokensOf, TaggedLexemes, Lawful, Advance, ParseTime, ParseValidity, IsDay, Midnight, DateLexeme;
    var close: Stream := [RParen] + rest;
    var tail: Stream := more + close;
    var times: Stream := [DateText(cal.showDate(day))] + tail;
    DateReadBack(day, tail, cal);
    AdvanceCons(RParen, rest);
    if end.Some? {
      DateReadBack(end.value, close, cal);
      AdvanceCons(DateText(cal.showDate(end.value)), close);
      ClosedWindow(times, Midnight(day), tail, Midnight(end.value), close, rest, cal);
    } else {
      assert tail == close;
      OpenWindow(times, Midnight(day), tail, rest, cal);
    }
  }

  lemma BoundsReadBack(span: Span, all: Stream, rest: Stream)
    requires all == TokensOf(Bounds(span)) + rest
    ensures ParseSpan(all) == Ok((span, rest))
  {
    BoundsTokens(span, rest);
    hide TokensOf, NatText, ParseU32, Bounds;
    var second: Stream := [Number(NatText(span.end))] + rest;
    U32ReadBack(span.start, second);
    U32ReadBack(span.end, rest);
    assert all[0] == Number(NatText(span.start));
  }

  lemma BoundsTokens(span: Span, rest: seq<Token>)
    ensures TokensOf(Bounds(span)) + rest == [Number(NatText(span.start))] + ([Number(NatText(span.end))] + rest)
  {
    TokensOfShort(Bounds(span)[0], Bounds(span)[1]);
    hide TokensOf, NatText;
  }

  lemma WordReadBack(s: Text, rest: Stream)
    ensures ParseText([Symbol(s)] + rest) == Ok((s, rest))
  {
    AdvanceCons(Symbol(s), rest);
    hide Advance;
  }

  lemma BareModel(model: Text, version: Text, all: Stream, rest: Stream)
    requires all == [Symbol(model)] + ([Symbol(version)] + rest)
    ensures ParseModel(all) == Ok(((model, version), rest))
  {
    WordReadBack(model, [Symbol(version)] + rest);
    WordReadBack(version, rest);
    hide ParseText;
  }

  lemma ShortSpanned(kind: Text, doc: Text, span: Span, all: Stream, tail: Stream, rest: Stream)
    requires kind == "verbatim" || kind == "summary"
    requires all == [Symbol(doc)] + tail && tail == TokensOf(Bounds(span)) + rest
    ensures ParseProvenanceOf(kind, all)
         == Ok((if kind == "verbatim" then Verbatim(doc, span) else Summary(doc, span), rest))
  {
    BoundsReadBack(span, tail, rest);
    WordReadBack(doc, tail);
    hide TokensOf, Bounds, ParseSpan, ParseText;
  }

  lemma ShortExtracted(
      doc: Text, span: Span, model: Text, version: Text, all: Stream, tail: Stream, end: Stream, rest: Stream)
    requires all == [Symbol(doc)] + tail && tail == TokensOf(Bounds(span)) + end
    requires end == [Symbol(model)] + ([Symbol(version)] + rest)
    ensures ParseProvenanceOf("extracted", all) == Ok((Extracted(doc, span, model, version), rest))
  {
    BoundsReadBack(span, tail, end);
    BareModel(model, version, end, rest);
    WordReadBack(doc, tail);
    hide TokensOf, Bounds, ParseSpan, ParseText, ParseModel;
  }

  lemma ShortDerived(from: Text, rule: Text, all: Stream, rest: Stream)
    requires all == [Symbol(from)] + ([Symbol(rule)] + rest)
    ensures ParseProvenanceOf("derived", all) == Ok((Derived(from, rule), rest))
  {
    WordReadBack(rule, rest);
    AdvanceCons(Symbol(from), [Symbol(rule)] + rest);
    hide ParseText, Advance;
  }

  lemma ShortAsserted(principal: Text, rest: Stream)
    ensures ParseProvenanceOf("asserted", [Symbol(principal)] + rest) == Ok((Asserted(principal), rest))
  {
    WordReadBack(principal, rest);
    hide ParseText;
  }

  /** The tokens of a tagged form with more in it. */
  lemma ShortTokens(tag: Text, word: Text, more: seq<Lexeme>, rest: seq<Token>)
    ensures TokensOf(TaggedLexemes(tag, Spelled(Symbol(word))) + more + [Spelled(RParen)]) + rest
         == [LParen] + ([Symbol(tag)] + ([Symbol(word)] + (TokensOf(more) + ([RParen] + rest))))
  {
    TaggedTokens(tag, Spelled(Symbol(word)), more, rest);
    hide TokensOf, TaggedLexemes;
  }

  lemma CitedSpanned(kind: Text, doc: Text, span: Span, all: Stream, rest: Stream)
    requires kind == "verbatim" || kind == "summary"
    requires all == [LParen] + ([Symbol(kind)] + ([Symbol(doc)] + (TokensOf(Bounds(span)) + ([RParen] + rest))))
    ensures ParseProvenance(all)
         == Ok((if kind == "verbatim" then Verbatim(doc, span) else Summary(doc, span), rest))
  {
    hide *;
    var close: Stream := [RParen] + rest;
    var tail: Stream := TokensOf(Bounds(span)) + close;
    ShortSpanned(kind, doc, span, [Symbol(doc)] + tail, tail, close);
    ProvenanceForm(kind, all, [Symbol(doc)] + tail,
                   if kind == "verbatim" then Verbatim(doc, span) else Summary(doc, span), close, rest);
  }

  lemma CitedExtracted(doc: Text, span: Span, model: Text, version: Text, all: Stream, rest: Stream)
    requires all == [LParen] + ([Symbol("extracted")] + ([Symbol(doc)] + (
                      TokensOf(Bounds(span) + [Spelled(Symbol(model)), Spelled(Symbol(version))]) + ([RParen] + rest))))
    ensures ParseProvenance(all) == Ok((Extracted(doc, span, model, version), rest))
  {
    hide *;
    var close: Stream := [RParen] + rest;
    TokensOfConcat(Bounds(span), [Spelled(Symbol(model)), Spelled(Symbol(version))]);
    ModelNames(model, version);
    var end: Stream := [Symbol(model)] + ([Symbol(version)] + close);
    var tail: Stream := TokensOf(Bounds(span)) + end;
    Associated(TokensOf(Bounds(span)), [Symbol(model), Symbol(version)], close);
    assert [Symbol(model), Symbol(version)] + close == end;
    ShortExtracted(doc, span, model, version, [Symbol(doc)] + tail, tail, end, close);
    ProvenanceForm("extracted", all, [Symbol(doc)] + tail, Extracted(doc, span, model, version), close, rest);
  }

  lemma CitedDerived(from: Text, rule: Text, all: Stream, rest: Stream)
    requires all == [LParen] + ([Symbol("derived")] + ([Symbol(from)] + (
                      TokensOf([Spelled(Symbol(rule))]) + ([RParen] + rest))))
    ensures ParseProvenance(all) == Ok((Derived(from, rule), rest))
  {
    hide *;
    var close: Stream := [RParen] + rest;
    OneWord(rule);
    ShortDerived(from, rule, [Symbol(from)] + ([Symbol(rule)] + close), close);
    ProvenanceForm("derived", all, [Symbol(from)] + ([Symbol(rule)] + close), Derived(from, rule), close, rest);
  }

  lemma CitedAsserted(principal: Text, all: Stream, rest: Stream)
    requires all == [LParen] + ([Symbol("asserted")] + ([Symbol(principal)] + (TokensOf([]) + ([RParen] + rest))))
    ensures ParseProvenance(all) == Ok((Asserted(principal), rest))
  {
    hide *;
    var close: Stream := [RParen] + rest;
    NothingRendered();
    assert [] + close == close;
    ShortAsserted(principal, close);
    ProvenanceForm("asserted", all, [Symbol(principal)] + close, Asserted(principal), close, rest);
  }

  lemma CitedReadBack(p: Provenance, all: Stream, rest: Stream)
    requires all == TokensOf(CitedLexemes(p)) + rest
    ensures ParseProvenance(all) == Ok((p, rest))
  {
    hide TokensOf, ParseProvenance, ParseProvenanceOf, TaggedLexemes, Spelled, Bounds;
    match p {
      case Verbatim(doc, span) =>
        ShortTokens("verbatim", doc, Bounds(span), rest);
        CitedSpanned("verbatim", doc, span, all, rest);
      case Summary(doc, span) =>
        ShortTokens("summary", doc, Bounds(span), rest);
        CitedSpanned("summary", doc, span, all, rest);
      case Extracted(doc, span, model, version) =>
        ShortTokens("extracted", doc, Bounds(span) + [Spelled(Symbol(model)), Spelled(Symbol(version))], rest);
        CitedExtracted(doc, span, model, version, all, rest);
      case Derived(from, rule) =>
        ShortTokens("derived", from, [Spelled(Symbol(rule))], rest);
        CitedDerived(from, rule, all, rest);
      case Asserted(principal) =>
        ShortTokens("asserted", principal, [], rest);
        CitedAsserted(principal, all, rest);
    }
  }

  lemma ModelNames(model: Text, version: Text)
    ensures TokensOf([Spelled(Symbol(model)), Spelled(Symbol(version))]) == [Symbol(model), Symbol(version)]
  {
    TokensOfShort(Spelled(Symbol(model)), Spelled(Symbol(version)));
    hide TokensOf;
  }

  lemma OneWord(s: Text)
    ensures TokensOf([Spelled(Symbol(s))]) == [Symbol(s)]
  {
    TokensOfShort(Spelled(Symbol(s)), Spelled(Symbol(s)));
    hide TokensOf;
  }

  lemma SinceField(day: int, end: Option<int>, f: Fields, tail: Stream, cal: Calendar)
    requires Lawful(cal) && IsDay(day) && (end.Some? ==> IsDay(end.value))
    ensures ParseFields([Keyword("valid")] + (TokensOf(SinceLexemes(day, end, cal)) + tail), f, 1, cal)
         == ParseFields(tail, Set(f, Since(day, end)), 1, cal)
  {
    SinceReadBack(day, end, tail, cal);
    hide TokensOf, SinceLexemes, ParseFields, ParseValidity, Lawful, IsDay, Midnight;
    FieldStep(Field("valid", SinceLexemes(day, end, cal)), tail, f, Set(f, Since(day, end)), 1, cal);
  }

  lemma CitedField(p: Provenance, f: Fields, all: Stream, tail: Stream, cal: Calendar)
    requires all == [Keyword("src")] + (TokensOf(CitedLexemes(p)) + tail)
    ensures ParseFields(all, f, 1, cal) == ParseFields(tail, f.(provenance := p), 1, cal)
  {
    hide *;
    var value: Stream := TokensOf(CitedLexemes(p)) + tail;
    CitedReadBack(p, value, tail);
    SourceField(p, value, tail, f, cal);
    FieldStep(Field("src", CitedLexemes(p)), tail, f, f.(provenance := p), 1, cal);
  }

  lemma WordField(key: Text, s: Text, f: Fields, tail: Stream, cal: Calendar)
    requires key == "deps" || key == "note"
    ensures ParseFields([Keyword(key)] + (TokensOf([Spelled(Symbol(s))]) + tail), f, 1, cal)
         == ParseFields(tail, if key == "deps" then f.(deps := [s]) else f.(note := Some(s)), 1, cal)
  {
    OneWord(s);
    hide TokensOf, ParseFields, Advance;
    AdvanceCons(Symbol(s), tail);
    FieldStep(Field(key, [Spelled(Symbol(s))]), tail, f,
              if key == "deps" then f.(deps := [s]) else f.(note := Some(s)), 1, cal);
  }

  lemma GivenReadBack(g: Given, f: Fields, all: Stream, tail: Stream, cal: Calendar)
    requires GivenFits(g) && Lawful(cal)
    requires all == [Keyword(FieldOf(g, cal).key)] + (TokensOf(FieldOf(g, cal).block) + tail)
    ensures ParseFields(all, f, 1, cal) == ParseFields(tail, Set(f, g), 1, cal)
  {
    hide TokensOf, ParseFields, PredicateLexemes, ValidityLexemes, ProvenanceLexemes, DepsLexemes, ScoreText,
      PermissionText, Lawful, PredicateFits, HeadsNamed, PredicateNesting, ProvenanceFits, Score.Normal, Score.InUnit,
      PermissionFits, Spelled, SinceLexemes, CitedLexemes, IsDay, Midnight;
    match g
    case Since(day, end) => SinceField(day, end, f, tail, cal);
    case Cited(p) => CitedField(p, f, all, tail, cal);
    case DependsOn(id) => WordField("deps", id, f, tail, cal);
    case Word(s) => WordField("note", s, f, tail, cal);
    case Pred(p) => PredGiven(p, f, tail, cal);
    case Valid(v) => ValidityField(v, f, tail, cal);
    case Src(p) => ProvenanceField(p, f, all, tail, cal);
    case Conf(s) => ScoreField("conf", s, f, tail, cal);
    case Auth(s) => ScoreField("auth", s, f, tail, cal);
    case Perm(tag) => PermissionField(tag, f, tail, cal);
    case Deps(ids) => DepsGiven(ids, f, tail, cal);
    case Note(s) => NoteGiven(s, f, tail, cal);
  }

  // ----- all fields -----

  lemma FitCons(gs: seq<Given>)
    requires gs != [] && AllGivenFit(gs)
    ensures GivenFits(gs[0]) && AllGivenFit(gs[1..])
  {
    hide GivenFits;
  }

  lemma ForCons(gs: seq<Given>, cal: Calendar)
    ensures gs == [] ==> FieldsFor(gs, cal) == []
    ensures gs != [] ==> FieldsFor(gs, cal) == [FieldOf(gs[0], cal)] + FieldsFor(gs[1..], cal)
  {
    hide FieldOf;
  }

  lemma SetCons(f: Fields, gs: seq<Given>)
    requires AllGivenFit(gs)
    ensures gs == [] ==> SetAll(f, gs) == f
    ensures gs != [] ==>
              && GivenFits(gs[0]) && AllGivenFit(gs[1..])
              && (gs[0].Since? ==> IsDay(gs[0].day) && (gs[0].end.Some? ==> IsDay(gs[0].end.value)))
              && SetAll(f, gs) == SetAll(Set(f, gs[0]), gs[1..])
  {
    FirstFits(gs);
  }

  /** The fields given are read one after the other, whatever follows them. */
  lemma {:induction false} GivenFieldsRead(gs: seq<Given>, f: Fields, all: Stream, tail: Stream, cal: Calendar)
    requires AllGivenFit(gs) && Lawful(cal) && all == FieldsTokens(FieldsFor(gs, cal)) + tail
    ensures ParseFields(all, f, 1, cal) == ParseFields(tail, SetAll(f, gs), 1, cal)
    decreases gs
  {
    hide *;
    ForCons(gs, cal);
    SetCons(f, gs);
    if gs == [] {
      NoFields(tail);
    } else {
      var next: Stream := FieldsTokens(FieldsFor(gs[1..], cal)) + tail;
      FitCons(gs);
      FieldsTokensCons(FieldOf(gs[0], cal), FieldsFor(gs[1..], cal), tail);
      GivenReadBack(gs[0], f, all, next, cal);
      GivenFieldsRead(gs[1..], Set(f, gs[0]), next, tail, cal);
    }
  }

  lemma GivenFieldsReadBack(gs: seq<Given>, f: Fields, all: Stream, close: Stream, cal: Calendar)
    requires AllGivenFit(gs) && Lawful(cal) && close[0] == RParen && all == FieldsTokens(FieldsFor(gs, cal)) + close
    ensures ParseFields(all, f, 1, cal) == Ok((SetAll(f, gs), close))
  {
    hide *;
    GivenFieldsRead(gs, f, all, close, cal);
    FieldsDone(close, SetAll(f, gs), cal);
  }

  // ----- spelling -----

  lemma GivenSpelled(g: Given, cal: Calendar)
    requires GivenFits(g) && Lawful(cal)
    ensures FieldSpelled(FieldOf(g, cal))
  {
    ContentKeys();
    WeightKeys();
    hide WellSpelled, IsName, PredicateLexemes, ValidityLexemes, ProvenanceLexemes, DepsLexemes, ScoreText,
      PermissionText, Lawful, PredicateFits, HeadsNamed, PredicateNesting, ProvenanceFits, Score.Normal, Score.InUnit,
      PermissionFits, Spelled, IsNumber, FieldSpelled, SinceLexemes, CitedLexemes, IsSymbol;
    match g
    case Since(day, end) =>
      SinceSpelled(day, end, cal);
      KeyedBlock("valid", SinceLexemes(day, end, cal));
    case Cited(p) =>
      CitedSpelled(p);
      KeyedBlock("src", CitedLexemes(p));
    case DependsOn(id) =>
      SymbolSpelled(id);
      KeyedOne("deps", Spelled(Symbol(id)));
    case Word(s) =>
      SymbolSpelled(s);
      KeyedOne("note", Spelled(Symbol(s)));
    case Pred(p) =>
      PredicateSpelled(p, cal);
      KeyedBlock("pred", PredicateLexemes(p, cal));
    case Valid(v) =>
      ValiditySpelled(v, cal);
      KeyedBlock("valid", ValidityLexemes(v, cal));
    case Src(p) =>
      ProvenanceSpelled(p);
      KeyedBlock("src", ProvenanceLexemes(p));
    case Conf(s) =>
      ScoreTextIsNumber(s);
      NumberSpelled(ScoreText(s));
      KeyedOne("conf", Spelled(Number(ScoreText(s))));
    case Auth(s) =>
      ScoreTextIsNumber(s);
      NumberSpelled(ScoreText(s));
      KeyedOne("auth", Spelled(Number(ScoreText(s))));
    case Perm(tag) =>
      PermissionSpelled(tag);
      KeyedOne("perm", Spelled(Symbol(PermissionText(tag))));
    case Deps(ids) =>
      DepsSpelled(ids);
      KeyedBlock("deps", DepsLexemes(ids));
    case Note(s) =>
      QuoteSpelled(s);
      KeyedOne("note", Spelled(QuotedText(s)));
  }

  lemma DateSpelled(day: int, cal: Calendar)
    requires Lawful(cal)
    ensures WellSpelled(DateLexeme(day, cal))
  {
  }

  lemma SinceSpelled(day: int, end: Option<int>, cal: Calendar)
    requires Lawful(cal)
    ensures AllWellSpelled(SinceLexemes(day, end, cal))
  {
    LettersAreSymbols("window");
    BracketsSpelled();
    DateSpelled(day, cal);
    if end.Some? {
      DateSpelled(end.value, cal);
    }
    hide WellSpelled, IsSymbol, TaggedLexemes, DateLexeme, Lawful;
    TaggedSpelled("window", DateLexeme(day, cal));
  }

  lemma ShortSpelled(tag: Text, word: Text, more: seq<Lexeme>)
    requires IsSymbol(tag) && IsSymbol(word) && AllWellSpelled(more)
    ensures AllWellSpelled(TaggedLexemes(tag, Spelled(Symbol(word))) + more + [Spelled(RParen)])
  {
    BracketsSpelled();
    SymbolSpelled(word);
    hide WellSpelled, IsSymbol, TaggedLexemes;
    TaggedSpelled(tag, Spelled(Symbol(word)));
  }

  lemma BoundsSpelled(span: Span)
    ensures AllWellSpelled(Bounds(span))
  {
    NatTextIsNumber(span.start);
    NatTextIsNumber(span.end);
    hide IsNumber;
  }

  lemma CitedSpelled(p: Provenance)
    requires AllSymbols(p)
    ensures AllWellSpelled(CitedLexemes(p))
  {
    hide WellSpelled, IsSymbol, TaggedLexemes, Spelled, Bounds;
    match p
    case Verbatim(doc, span) =>
      LettersAreSymbols("verbatim");
      BoundsSpelled(span);
      ShortSpelled("verbatim", doc, Bounds(span));
    case Summary(doc, span) =>
      LettersAreSymbols("summary");
      BoundsSpelled(span);
      ShortSpelled("summary", doc, Bounds(span));
    case Extracted(doc, span, model, version) =>
      LettersAreSymbols("extracted");
      BoundsSpelled(span);
      SymbolSpelled(model);
      SymbolSpelled(version);
      ShortSpelled("extracted", doc, Bounds(span) + [Spelled(Symbol(model)), Spelled(Symbol(version))]);
    case Derived(from, rule) =>
      LettersAreSymbols("derived");
      SymbolSpelled(rule);
      ShortSpelled("derived", from, [Spelled(Symbol(rule))]);
    case Asserted(principal) =>
      LettersAreSymbols("asserted");
      ShortSpelled("asserted", principal, []);
  }

  lemma QuoteSpelled(s: Text)
    requires Utf8.Valid(s)
    ensures WellSpelled(Spelled(QuotedText(s)))
  {
    hide Utf8.Valid, Escape, IsPlain;
  }

  lemma {:induction false} AllGivenSpelled(gs: seq<Given>, cal: Calendar)
    requires AllGivenFit(gs) && Lawful(cal)
    ensures AllFieldsSpelled(FieldsFor(gs, cal))
  {
    hide *;
    ForCons(gs, cal);
    if gs == [] {
      NoneSpelled();
    } else {
      FitCons(gs);
      GivenSpelled(gs[0], cal);
      AllGivenSpelled(gs[1..], cal);
      SpelledCons(FieldOf(gs[0], cal), FieldsFor(gs[1..], cal));
    }
  }

  lemma NoneSpelled()
    ensures AllFieldsSpelled([])
  {
  }

  lemma SpelledCons(f: Field, fs: seq<Field>)
    requires FieldSpelled(f) && AllFieldsSpelled(fs)
    ensures AllFieldsSpelled([f] + fs)
  {
    hide FieldSpelled;
  }

  // ----- whole forms -----

  function FormLexemes(id: Text, gs: seq<Given>, cal: Calendar): seq<Lexeme> {
    AppendFields(NodeHeader(id), FieldsFor(gs, cal)) + [Spelled(RParen)]
  }

  lemma FormSpelled(id: Text, gs: seq<Given>, cal: Calendar)
    requires IsSymbol(id) && AllGivenFit(gs) && Lawful(cal)
    ensures AllWellSpelled(FormLexemes(id, gs, cal))
  {
    HeaderSpelled(id);
    AllGivenSpelled(gs, cal);
    BracketsSpelled();
    hide FieldSpelled, FieldsFor, WellSpelled, NodeHeader;
    FieldsSpelled(NodeHeader(id), FieldsFor(gs, cal));
  }

  lemma FormTokens(id: Text, gs: seq<Given>, cal: Calendar, rest: seq<Token>)
    ensures TokensOf(FormLexemes(id, gs, cal)) + rest
         == [LParen] + ([Symbol("node")] + ([Symbol(id)] + (FieldsTokens(FieldsFor(gs, cal)) + ([RParen] + rest))))
  {
    var header, close := NodeHeader(id), Spelled(RParen);
    HeaderTokens(id, FieldsTokens(FieldsFor(gs, cal)) + ([RParen] + rest));
    TokensOfShort(close, close);
    assert close.token == RParen;
    FormIs(id, gs, cal);
    hide *;
    AppendFieldsTokens(header, FieldsFor(gs, cal));
    TokensOfConcat(AppendFields(header, FieldsFor(gs, cal)), [close]);
    var h, f := TokensOf(header), FieldsTokens(FieldsFor(gs, cal));
    Associated(h + f, [RParen], rest);
    Associated(h, f, [RParen] + rest);
  }

  lemma FormIs(id: Text, gs: seq<Given>, cal: Calendar)
    ensures FormLexemes(id, gs, cal) == AppendFields(NodeHeader(id), FieldsFor(gs, cal)) + [Spelled(RParen)]
  {
  }

  /** What a form that gives nothing says. */
  const OMITTED := Fields(None, Forever, Asserted("system"), Score(6, 1), Score(5, 1), 1, [], None)

  function FormNode(id: Text, p: Predicate, f: Fields): Node {
    Node(id, p, f.validity, f.provenance, f.confidence, f.authority, f.permissions, f.deps, Active, f.note)
  }

  /** A node form with any fields in any order, read from text: of a field given more than once the last counts, a field
      left out has the default written in `OMITTED`, and only a form without a predicate is refused. */
  lemma FormParses(id: Text, gs: seq<Given>, cal: Calendar)
    requires IsSymbol(id) && AllGivenFit(gs) && Lawful(cal) && |FormLexemes(id, gs, cal)| < MAX_TOKENS
    ensures Parse(Render(FormLexemes(id, gs, cal)), cal)
         == if SetAll(OMITTED, gs).pred.Some?
            then Ok([FormNode(id, SetAll(OMITTED, gs).pred.value, SetAll(OMITTED, gs))])
            else Err(MissingPredField)
  {
    OmittedIsDefault();
    hide *;
    FormSpelled(id, gs, cal);
    SourceTokens(FormLexemes(id, gs, cal));
    FormTokens(id, gs, cal, [Eof]);
    var all: Stream := TokensOf(FormLexemes(id, gs, cal)) + [Eof];
    var close: Stream := [RParen] + [Eof];
    var inner: Stream := FieldsTokens(FieldsFor(gs, cal)) + close;
    GivenFieldsReadBack(gs, DEFAULT_FIELDS, inner, close, cal);
    ParsesSource(Render(FormLexemes(id, gs, cal)), all, cal);
    OneForm(id, all, inner, SetAll(OMITTED, gs), close, cal);
  }

  lemma OmittedIsDefault()
    ensures DEFAULT_FIELDS == OMITTED
  {
  }

  lemma OneForm(id: Text, all: Stream, inner: Stream, f: Fields, close: Stream, cal: Calendar)
    requires all == [LParen] + ([Symbol("node")] + ([Symbol(id)] + inner)) && close == [RParen] + [Eof]
    requires ParseFields(inner, DEFAULT_FIELDS, 1, cal) == Ok((f, close))
    ensures ParseNodes(all, cal)
         == if f.pred.Some? then Ok([FormNode(id, f.pred.value, f)]) else Err(MissingPredField)
  {
    hide Advance, ParseFields;
    AdvanceCons(Symbol(id), inner);
    AdvanceCons(Symbol("node"), [Symbol(id)] + inner);
    AdvanceCons(LParen, [Symbol("node")] + ([Symbol(id)] + inner));
    AdvanceCons(RParen, [Eof]);
    assert AtNode(all);
    hide AtNode;
    assert ParseNodes([Eof], cal) == Ok([]);
    if f.pred.Some? {
      assert [FormNode(id, f.pred.value, f)] + [] == [FormNode(id, f.pred.value, f)];
    }
  }

  /** The smallest form: in force forever, asserted by the system, confidence 0.6, authority 0.5, public. */
  lemma SmallestForm(id: Text, p: Predicate, cal: Calendar)
    requires IsSymbol(id) && GivenFits(Pred(p)) && Lawful(cal) && |FormLexemes(id, [Pred(p)], cal)| < MAX_TOKENS
    ensures Parse(Render(FormLexemes(id, [Pred(p)], cal)), cal)
         == Ok([Node(id, p, Forever, Asserted("system"), Score(6, 1), Score(5, 1), 1, [], Active, None)])
    ensures Score(6, 1).Value() == 0.6 && Score(5, 1).Value() == 0.5
  {
    hide GivenFits, FormLexemes, Render, Parse;
    assert AllGivenFit([Pred(p)]);
    FormParses(id, [Pred(p)], cal);
    assert [Pred(p)][1..] == [];
    assert SetAll(OMITTED, [Pred(p)]) == OMITTED.(pred := Some(p));
  }

  // ----- forms that are refused -----

  lemma FieldsRefused(tail: Stream, f: Fields, cal: Calendar)
    ensures tail[0] == Eof ==> ParseFields(tail, f, 1, cal) == Ok((f, tail))
    ensures tail[0].Keyword? && tail[0].text !in ["pred", "valid", "src", "conf", "auth", "perm", "deps", "note"] ==>
              ParseFields(tail, f, 1, cal) == Err(UnknownNodeField)
    ensures !tail[0].Keyword? && tail[0] != RParen && tail[0] != Eof ==>
              ParseFields(tail, f, 1, cal) == Err(FieldExpected)
  {
    hide Advance;
  }

  /** After any fields a form is refused: for an unknown keyword, for anything else that is not a keyword, and at the
      end of the text for the parenthesis that is missing. */
  lemma FormRefused(id: Text, gs: seq<Given>, all: Stream, tail: Stream, cal: Calendar)
    requires AllGivenFit(gs) && Lawful(cal)
    requires all == [LParen] + ([Symbol("node")] + ([Symbol(id)] + (FieldsTokens(FieldsFor(gs, cal)) + tail)))
    ensures tail[0] == Eof ==> ParseNodes(all, cal) == Err(UnbalancedParen)
    ensures !tail[0].Keyword? && tail[0] != RParen && tail[0] != Eof ==> ParseNodes(all, cal) == Err(FieldExpected)
    ensures tail[0].Keyword? && tail[0].text !in ["pred", "valid", "src", "conf", "auth", "perm", "deps", "note"] ==>
              ParseNodes(all, cal) == Err(UnknownNodeField)
  {
    hide *;
    var inner: Stream := FieldsTokens(FieldsFor(gs, cal)) + tail;
    GivenFieldsRead(gs, DEFAULT_FIELDS, inner, tail, cal);
    FieldsRefused(tail, SetAll(DEFAULT_FIELDS, gs), cal);
    FormFails(id, all, inner, cal);
  }

  lemma FormFails(id: Text, all: Stream, inner: Stream, cal: Calendar)
    requires all == [LParen] + ([Symbol("node")] + ([Symbol(id)] + inner))
    ensures ParseFields(inner, DEFAULT_FIELDS, 1, cal).Err? ==>
              ParseNodes(all, cal) == Err(ParseFields(inner, DEFAULT_FIELDS, 1, cal).error)
    ensures ParseFields(inner, DEFAULT_FIELDS, 1, cal).Ok?
            && ParseFields(inner, DEFAULT_FIELDS, 1, cal).value.1[0] == Eof ==>
              ParseNodes(all, cal) == Err(UnbalancedParen)
  {
    hide Advance, ParseFields, DEFAULT_FIELDS;
    AdvanceCons(Symbol(id), inner);
    AdvanceCons(Symbol("node"), [Symbol(id)] + inner);
    AdvanceCons(LParen, [Symbol("node")] + ([Symbol(id)] + inner));
    assert AtNode(all);
  }

  /** Without an id, or deeper than the parser goes, there is no node. */
  lemma NoId(all: Stream, tail: Stream, cal: Calendar)
    requires all == [LParen] + ([Symbol("node")] + tail) && !tail[0].Symbol?
    ensures ParseNodes(all, cal) == Err(NodeIdExpected)
  {
    hide Advance, ParseFields;
    AdvanceCons(Symbol("node"), tail);
    AdvanceCons(LParen, [Symbol("node")] + tail);
    assert AtNode(all);
  }

  /** Canonical strings hold no line breaks and no tabs. */
  lemma {:induction false} EscapedIsOneLine(s: Text)
    ensures '\n' !in Escape(s) && '\t' !in Escape(s) && '\r' !in Escape(s)
  {
    if s != [] {
      EscapedIsOneLine(s[1..]);
    }
  }

  // ----- permissions -----

  /** The four names and their bits; no other name is read. */
  lemma PermissionNames(ts: Stream)
    requires ts[0].Symbol?
    ensures ParsePermission(ts).Ok? ==>
              var tag := ParsePermission(ts).value.0;
              || (ts[0].text == "public" && tag == 1) || (ts[0].text == "internal" && tag == 2)
              || (ts[0].text == "confidential" && tag == 4) || (ts[0].text == "restricted" && tag == 8)
    ensures ParsePermission(ts).Ok?
       <==> ts[0].text in ["public", "internal", "confidential", "restricted"]
    ensures PermissionText(1) == "public" && PermissionText(2) == "internal"
    ensures PermissionText(4) == "confidential" && PermissionText(8) == "restricted"
  {
    hide Advance;
  }

  // ----- durations -----

  lemma UnitText(digits: Text, unit: Text)
    requires digits != [] && AllDigits(digits) && unit in ["s", "m", "h", "d"]
    ensures var s := digits + unit;
            && Trim(s) == s && StripNs(s) == None && DigitRun(s) == |digits|
            && s[..|digits|] == digits && s[|digits|..] == unit
  {
    var s := digits + unit;
    assert s[0] == digits[0] && s[|s| - 1] == unit[0] && s[|s| - 2] == digits[|digits| - 1];
    assert s[|s| - 2..][0] == digits[|digits| - 1];
    assert s[|s| - 2..] != "ns";
    DigitRunFollowed(digits, unit);
    DigitRunAll(digits);
  }

  lemma UnitForm(s: Text, n: nat, unit: Text, seconds: nat)
    requires Trim(s) == s && StripNs(s) == None && UnitSeconds(unit) == Some(seconds)
    requires ParseUnsigned(s[..DigitRun(s)], U64_LIMIT) == Some(n) && s[DigitRun(s)..] == unit
    ensures ParseDuration(s) == Some(n * seconds % U64_LIMIT * NANOS)
  {
    hide Trim, StripNs, ParseUnsigned, DigitRun, UnitSeconds;
  }

  lemma TextOfNat(n: nat)
    ensures NatText(n) != [] && AllDigits(NatText(n))
  {
  }

  lemma UnitReadBack(n: nat, unit: Text, seconds: nat)
    requires n < U64_LIMIT && unit in ["s", "m", "h", "d"] && UnitSeconds(unit) == Some(seconds)
    ensures ParseDuration(NatText(n) + unit) == Some(n * seconds % U64_LIMIT * NANOS)
  {
    NatReadBack(n, U64_LIMIT);
    TextOfNat(n);
    hide NatText, UnitSeconds, ParseUnsigned, DigitRun, Trim, StripNs, ParseDuration;
    UnitText(NatText(n), unit);
    UnitForm(NatText(n) + unit, n, unit, seconds);
  }

  /** A number of seconds, minutes, hours or days, in nanoseconds; the seconds wrap at 64 bits. */
  lemma DurationUnits(n: nat)
    requires n < 0x1_0000_0000_0000_0000
    ensures ParseDuration(NatText(n) + "s") == Some(n * 1_000_000_000)
    ensures ParseDuration(NatText(n) + "m") == Some(n * 60 % 0x1_0000_0000_0000_0000 * 1_000_000_000)
    ensures ParseDuration(NatText(n) + "h") == Some(n * 3600 % 0x1_0000_0000_0000_0000 * 1_000_000_000)
    ensures ParseDuration(NatText(n) + "d") == Some(n * 86400 % 0x1_0000_0000_0000_0000 * 1_000_000_000)
    ensures ParseDuration(NatText(n) + "ns") == Some(n)
  {
    LimitsAre();
    hide *;
    DurationReadBack(n);
    UnitsAre();
    UnitReadBack(n, "s", 1);
    UnitReadBack(n, "m", 60);
    UnitReadBack(n, "h", 3600);
    UnitReadBack(n, "d", 86400);
    Whole(n);
  }

  lemma LimitsAre()
    ensures U64_LIMIT == 0x1_0000_0000_0000_0000 && NANOS == 1_000_000_000
  {
  }

  lemma UnitsAre()
    ensures UnitSeconds("s") == Some(1) && UnitSeconds("m") == Some(60)
    ensures UnitSeconds("h") == Some(3600) && UnitSeconds("d") == Some(86400)
    ensures "s" in ["s", "m", "h", "d"] && "m" in ["s", "m", "h", "d"]
    ensures "h" in ["s", "m", "h", "d"] && "d" in ["s", "m", "h", "d"]
  {
  }

  lemma Whole(n: nat)
    requires n < 0x1_0000_0000_0000_0000
    ensures n * 1 % 0x1_0000_0000_0000_0000 == n
  {
  }

  // ----- characters -----

  /** Letters, digits, `-`, `_` and everything outside ASCII. */
  predicate NameByte(c: char) {
    'a' <= c <= 'z' || 'A' <= c <= 'Z' || '0' <= c <= '9' || c == '-' || c == '_' || c >= '\U{80}'
  }

  /** What variables and keywords, entities, symbols and URIs are made of. */
  lemma NamesAre(s: Text)
    requires s != [] && Utf8.Valid(s)
    ensures IsName(s) <==> forall c <- s :: NameByte(c)
    ensures IsEntityName(s) <==> forall c <- s :: NameByte(c) || c == ':' || c == '.'
    ensures IsSymbol(s)
       <==> && (forall c <- s :: c !in "()[] \t\n\r;\":?@<#")
            && !('0' <= s[0] <= '9') && !(s[0] == '-' && |s| > 1 && '0' <= s[1] <= '9')
    ensures IsUri(s) <==> '>' !in s
  {
    hide Utf8.Valid;
    ClassesAre();
    hide InClass;
    InSeq(s, NameChars);
    InSeq(s, EntityChars);
    InSeq(s, SymbolChars);
    InSeq(s, UriChars);
  }

  lemma ClassesAre()
    ensures forall c :: InClass(c, NameChars) <==> NameByte(c)
    ensures forall c :: InClass(c, EntityChars) <==> NameByte(c) || c == ':' || c == '.'
    ensures forall c :: InClass(c, SymbolChars) <==> c !in "()[] \t\n\r;\":?@<#"
    ensures forall c :: InClass(c, UriChars) <==> c != '>'
  {
  }

  lemma InSeq(s: Text, charClass: CharClass)
    ensures AllIn(s, charClass) <==> forall c <- s :: InClass(c, charClass)
  {
    hide InClass;
    if forall c <- s :: InClass(c, charClass) {
      assert forall i :: 0 <= i < |s| ==> s[i] in s;
    }
  }

  /** A backslash and an ASCII character: a line feed, tab or carriage return, or the character itself. */
  lemma EscapeRead(c: char, rest: Text)
    requires c < '\U{80}'
    ensures Next("\"\\" + [c] + "\"" + rest)
         == Ok((QuotedText(if c == 'n' then "\n" else if c == 't' then "\t" else if c == 'r' then "\r" else [c]), 4))
  {
    var all := "\"\\" + [c] + "\"" + rest;
    var body := all[1..];
    assert body[0] == '\\' && body[1] == c && body[2..][0] == '"';
    assert StringBody(body[2..]) == Ok(([], 1));
    assert Unescape(c) + [] == Unescape(c);
    assert StringBody(body) == Ok((Unescape(c), 3));
    assert all[0] == '"';
    hide StringBody;
  }

  /** A number has at most one point. */
  lemma TwoPoints(a: Text, b: Text, c: char, rest: Text)
    requires a != [] && AllDigits(a) && AllDigits(b) && '0' <= c <= '9'
    ensures Next(a + ("." + (b + ("." + ([c] + rest))))) == Err(MultiDotNumber)
  {
    var tail := "." + ([c] + rest);
    var more := "." + (b + tail);
    var all := a + more;
    DigitRunFollowed(a, more);
    DigitRunAll(a);
    DigitRunFollowed(b, tail);
    DigitRunAll(b);
    assert all[0] == a[0] && IsDigit(a[0]);
    hide DigitRun, AllDigits;
    assert all[|a|] == '.';
    assert all[|a| + 1..] == b + tail;
    SecondPoint(all, |a|, |b|, b, tail);
    assert LexNumber(all) == Err(MultiDotNumber);
    DigitFirst(all);
  }

  lemma SecondPoint(all: Text, a: nat, n: nat, b: Text, tail: Text)
    requires a + 1 <= |all| && all[a + 1..] == b + tail && n == |b| && all[a] == '.' && StartsNumber(all)
    requires all[0] != '-' && DigitRun(all) == a && DigitRun(b + tail) == n
    requires |tail| > 1 && tail[0] == '.' && IsDigit(tail[1])
    ensures LexNumber(all) == Err(MultiDotNumber)
  {
    LengthToPoint(all, a);
    hide DigitRun, NumberLength, StartsNumber;
    assert all[a + 1..][n] == '.' && IsDigit(all[a + 1..][n + 1]);
  }

  lemma LengthToPoint(all: Text, a: nat)
    requires a < |all| && all[a] == '.' && StartsNumber(all) && all[0] != '-' && DigitRun(all) == a
    ensures NumberLength(all) == a + 1 + DigitRun(all[a + 1..])
  {
    hide DigitRun, StartsNumber;
    assert all[0..] == all;
  }

  lemma DigitFirst(all: Text)
    requires all != [] && IsDigit(all[0])
    ensures Next(all) == LexNumber(all)
  {
    hide NumberLength;
  }

  /** A string that is not closed is refused. */
  lemma {:induction false} Unclosed(s: Text)
    requires Utf8.Valid(s) && '"' !in s && '\\' !in s
    ensures StringBody(s) == Err(UnterminatedString)
    decreases |s|
  {
    if s != [] {
      var piece, tail := FirstChar(s);
      PieceOff(piece, tail);
      Unclosed(tail);
    }
  }

  // ----- scores -----

  lemma InUnitIs(s: Score)
    ensures s.InUnit() <==> 0.0 <= s.Value() <= 1.0
  {
    UnitBounds(s.units as real, Pow10(s.places) as real);
    hide Pow10;
  }

  lemma UnitBounds(u: real, p: real)
    requires p > 0.0
    ensures 0.0 <= u <= p <==> 0.0 <= u / p <= 1.0
  {
    var v := u / p;
    assert v * p == u;
    if 0.0 <= v <= 1.0 {
      Product(v, p);
      Product(1.0 - v, p);
      assert (1.0 - v) * p == p - u;
    } else if v < 0.0 {
      assert (0.0 - v) * p > 0.0;
    } else {
      assert (v - 1.0) * p > 0.0;
    }
  }

  lemma Product(a: real, b: real)
    requires a >= 0.0 && b >= 0.0
    ensures a * b >= 0.0
  {
  }

  /** A confidence or authority is accepted if and only if it is a number from zero to one. */
  lemma ScoresAre(ts: Stream)
    requires ts[0].Number?
    ensures ParseUnitScore(ts).Ok?
       <==> ParseScore(ts[0].text).Some? && 0.0 <= ParseScore(ts[0].text).value.Value() <= 1.0
  {
    hide ParseScore, Score.InUnit, Score.Value, Advance;
    if ParseScore(ts[0].text).Some? {
      InUnitIs(ParseScore(ts[0].text).value);
    }
  }

  /** The value of a plain decimal: its digits over the power of ten of the places behind the point. */
  lemma ScoreValue(text: Text)
    requires ParseScore(text).Some?
    ensures var parts := Split(text);
            ParseScore(text).value.Value()
            == Signed(parts.negative, DigitsValue(parts.whole + parts.frac)) as real / Pow10(|parts.frac|) as real
  {
    var parts := Split(text);
    NormalValue(Signed(parts.negative, DigitsValue(parts.whole + parts.frac)), |parts.frac|);
    hide Split, DigitsValue, Normalize, Score.Value;
  }

  lemma {:induction false} NormalValue(units: int, places: nat)
    ensures Normalize(units, places).Value() == Score(units, places).Value()
    decreases places
  {
    if places > 0 && units % 10 == 0 {
      NormalValue(units / 10, places - 1);
      TenTimes(units / 10, Pow10(places - 1));
      assert units == 10 * (units / 10);
    }
  }

  lemma TenTimes(u: int, p: int)
    requires p > 0
    ensures (10 * u) as real / (10 * p) as real == u as real / p as real
  {
    var a, b := u as real, p as real;
    assert (10 * u) as real == 10.0 * a && (10 * p) as real == 10.0 * b;
    assert a / b * (10.0 * b) == 10.0 * a;
  }

  // ----- limits -----

  /** The limits, by what the texts of a node come to. */
  lemma LimitsAreKept(n: Node, cal: Calendar)
    requires NodeFits(n) && Lawful(cal)
    ensures Parse(NodeText(n, cal), cal)
         == if |NodeLexemes(n, cal)| > 1_000_000 then Err(LexFailed(LexError.TooManyTokens))
            else if |NodeLexemes(n, cal)| == 1_000_000 then Err(TokenLimit)
            else if 2 + PredicateNesting(n.pred) <= 128 then Ok([Carried(n)])
            else Err(DepthLimitExceeded)
  {
    NodeRoundTrip(n, cal);
    TokenCountIs(n, cal);
    hide NodeFits, Lawful, Parse, NodeText, NodeLexemes, PredicateNesting, TokenCount, Carried;
  }
}
