/** The canonical text of a whole node as a rendering of well-spelled tokens. */
module NodePrinting {
  import opened Types
  import opened Decimal
  import opened Lexer
  import opened Serialize
  import opened Lexemes
  import opened Printing
  import Utf8

  // ----- node fields as spelled tokens -----

  function SpanLexemes(span: Span): seq<Lexeme> {
    [Spelled(LBracket), Spelled(Number(NatText(span.start))), Spelled(Number(NatText(span.end))), Spelled(RBracket)]
  }

  function ModelLexemes(model: Text, version: Text): seq<Lexeme> {
    [Spelled(LParen), Spelled(Symbol("model")), RawQuoted(model), RawQuoted(version), Spelled(RParen)]
  }

  function TaggedLexemes(tag: Text, item: Lexeme): seq<Lexeme> {
    [Spelled(LParen), Spelled(Symbol(tag)), item]
  }

  function ValidityLexemes(v: Validity, cal: Calendar): seq<Lexeme> {
    match v
    case Forever => [Spelled(Symbol("forever"))]
    case Window(from, until) =>
      TaggedLexemes("window", RawQuoted(cal.showTime(from)))
      + (if until.Some? then [RawQuoted(cal.showTime(until.value))] else []) + [Spelled(RParen)]
  }

  function ProvenanceLexemes(p: Provenance): seq<Lexeme> {
    match p
    case Verbatim(doc, span) => TaggedLexemes("verbatim", RawQuoted(doc)) + SpanLexemes(span) + [Spelled(RParen)]
    case Summary(doc, span) => TaggedLexemes("summary", RawQuoted(doc)) + SpanLexemes(span) + [Spelled(RParen)]
    case Extracted(doc, span, model, version) =>
      TaggedLexemes("extracted", RawQuoted(doc)) + SpanLexemes(span) + ModelLexemes(model, version)
      + [Spelled(RParen)]
    case Derived(from, rule) => TaggedLexemes("derived", Spelled(Symbol(from))) + [RawQuoted(rule)] + [Spelled(RParen)]
    case Asserted(principal) => TaggedLexemes("asserted", RawQuoted(principal)) + [Spelled(RParen)]
  }

  function IdsLexemes(ids: seq<Text>): seq<Lexeme> {
    if ids == [] then [] else [Spelled(Symbol(ids[0]))] + IdsLexemes(ids[1..])
  }

  function DepsLexemes(deps: seq<Text>): seq<Lexeme> {
    [Spelled(LBracket)] + IdsLexemes(deps) + [Spelled(RBracket)]
  }

  function NodeHeader(id: Text): seq<Lexeme> {
    [Spelled(LParen), Spelled(Symbol("node")), Spelled(Symbol(id))]
  }

  /** A keyword with its value. */
  datatype Field = Field(key: Text, block: seq<Lexeme>)

  function AppendField(pre: seq<Lexeme>, f: Field): seq<Lexeme> {
    pre + [Spelled(Keyword(f.key))] + f.block
  }

  function ContentFields(n: Node, cal: Calendar): seq<Field> {
    [Field("pred", PredicateLexemes(n.pred, cal)),
     Field("valid", ValidityLexemes(n.validity, cal)),
     Field("src", ProvenanceLexemes(n.provenance))]
  }

  function WeightFields(n: Node): seq<Field> {
    [Field("conf", [Spelled(Number(ScoreText(n.confidence)))]),
     Field("auth", [Spelled(Number(ScoreText(n.authority)))]),
     Field("perm", [Spelled(Symbol(PermissionText(n.permissions)))])]
  }

  function DepsField(n: Node): seq<Field> {
    if n.deps == [] then [] else [Field("deps", DepsLexemes(n.deps))]
  }

  function NoteField(n: Node): seq<Field> {
    if n.note.Some? then [Field("note", [Spelled(QuotedText(n.note.value))])] else []
  }

  /** Fields in the order they are printed. */
  function FieldsOf(n: Node, cal: Calendar): seq<Field> {
    ContentFields(n, cal) + WeightFields(n) + DepsField(n) + NoteField(n)
  }

  function AppendFields(pre: seq<Lexeme>, fs: seq<Field>): seq<Lexeme>
    decreases fs
  {
    if fs == [] then pre else AppendFields(AppendField(pre, fs[0]), fs[1..])
  }

  function NodeLexemes(n: Node, cal: Calendar): seq<Lexeme> {
    AppendFields(NodeHeader(n.id), FieldsOf(n, cal)) + [Spelled(RParen)]
  }

  // ----- well-formedness -----

  /** Printed without escapes, between quotes or as one symbol. */
  predicate ProvenanceFits(p: Provenance) {
    match p
    case Verbatim(doc, span) => IsPlain(doc)
    case Summary(doc, span) => IsPlain(doc)
    case Extracted(doc, span, model, version) => IsPlain(doc) && IsPlain(model) && IsPlain(version)
    case Derived(from, rule) => IsSymbol(from) && IsPlain(rule)
    case Asserted(principal) => IsPlain(principal)
  }

  predicate IdsFit(ids: seq<Text>) {
    forall i :: 0 <= i < |ids| ==> IsSymbol(ids[i])
  }

  predicate PermissionFits(tag: bv32) {
    tag == PUBLIC || tag == INTERNAL || tag == CONFIDENTIAL || tag == RESTRICTED
  }

  /** The canonical text carries the node: its names are names, unescaped strings need no escape, the
      permission is one of the four tags and the scores are in the unit interval. */
  ghost predicate NodeFits(n: Node) {
    && IsSymbol(n.id) && PredicateFits(n.pred) && ProvenanceFits(n.provenance)
    && n.confidence.Normal() && n.confidence.InUnit() && n.authority.Normal() && n.authority.InUnit()
    && PermissionFits(n.permissions) && IdsFit(n.deps)
    && (n.note.Some? ==> Utf8.Valid(n.note.value))
  }

  // ----- spelling -----

  lemma {:induction false} LettersAreSymbols(s: Text)
    requires s != [] && forall i :: 0 <= i < |s| ==> 'a' <= s[i] <= 'z'
    ensures IsSymbol(s)
  {
    if |s| > 1 {
      LettersAreSymbols(s[1..]);
      assert forall i :: 1 <= i < |s| ==> s[i] == s[1..][i - 1];
    }
  }

  lemma NatTextIsNumber(n: nat)
    ensures IsNumber(NatText(n))
  {
    DigitRunAll(NatText(n));
    assert NatText(n)[0..] == NatText(n);
  }

  lemma ScoreTextIsNumber(s: Score)
    ensures IsNumber(ScoreText(s))
  {
    hide IsNumber, DecText;
    DecTextIsNumber(10 * s.units, 1);
    DecTextIsNumber(s.units, s.places);
  }

  lemma TaggedSpelled(tag: Text, item: Lexeme)
    requires IsSymbol(tag) && WellSpelled(item)
    ensures AllWellSpelled(TaggedLexemes(tag, item))
  {
    assert WellSpelled(Spelled(LParen)) && WellSpelled(Spelled(Symbol(tag)));
  }

  lemma ValiditySpelled(v: Validity, cal: Calendar)
    requires Lawful(cal)
    ensures AllWellSpelled(ValidityLexemes(v, cal))
  {
    LettersAreSymbols("forever");
    LettersAreSymbols("window");
    hide IsSymbol;
    match v
    case Forever =>
    case Window(from, until) =>
      TaggedSpelled("window", RawQuoted(cal.showTime(from)));
  }

  lemma SpanSpelled(span: Span)
    ensures AllWellSpelled(SpanLexemes(span))
  {
    NatTextIsNumber(span.start);
    NatTextIsNumber(span.end);
    hide IsNumber;
  }

  lemma ModelSpelled(model: Text, version: Text)
    requires IsPlain(model) && IsPlain(version)
    ensures AllWellSpelled(ModelLexemes(model, version))
  {
    LettersAreSymbols("model");
    hide IsPlain, IsSymbol;
    assert WellSpelled(Spelled(LParen)) && WellSpelled(Spelled(Symbol("model"))) && WellSpelled(Spelled(RParen));
    assert WellSpelled(RawQuoted(model)) && WellSpelled(RawQuoted(version));
  }

  lemma RawQuotedSpelled(s: Text)
    requires IsPlain(s)
    ensures WellSpelled(RawQuoted(s))
  {
  }

  lemma BracketsSpelled()
    ensures WellSpelled(Spelled(LParen)) && WellSpelled(Spelled(RParen))
    ensures WellSpelled(Spelled(LBracket)) && WellSpelled(Spelled(RBracket))
  {
  }

  lemma SpannedSpelled(tag: Text, doc: Text, span: Span)
    requires IsSymbol(tag) && IsPlain(doc)
    ensures AllWellSpelled(TaggedLexemes(tag, RawQuoted(doc)) + SpanLexemes(span))
  {
    hide WellSpelled, IsPlain, IsSymbol, TaggedLexemes, SpanLexemes;
    RawQuotedSpelled(doc);
    TaggedSpelled(tag, RawQuoted(doc));
    SpanSpelled(span);
  }

  lemma ProvenanceSpelled(p: Provenance)
    requires ProvenanceFits(p)
    ensures AllWellSpelled(ProvenanceLexemes(p))
  {
    hide WellSpelled, IsPlain, IsSymbol, TaggedLexemes, SpanLexemes, ModelLexemes, Spelled, RawQuoted;
    BracketsSpelled();
    match p
    case Verbatim(doc, span) =>
      LettersAreSymbols("verbatim");
      SpannedSpelled("verbatim", doc, span);
    case Summary(doc, span) =>
      LettersAreSymbols("summary");
      SpannedSpelled("summary", doc, span);
    case Extracted(doc, span, model, version) =>
      LettersAreSymbols("extracted");
      SpannedSpelled("extracted", doc, span);
      ModelSpelled(model, version);
    case Derived(from, rule) =>
      LettersAreSymbols("derived");
      SymbolSpelled(from);
      TaggedSpelled("derived", Spelled(Symbol(from)));
      RawQuotedSpelled(rule);
    case Asserted(principal) =>
      LettersAreSymbols("asserted");
      RawQuotedSpelled(principal);
      TaggedSpelled("asserted", RawQuoted(principal));
  }

  lemma SymbolSpelled(s: Text)
    requires IsSymbol(s)
    ensures WellSpelled(Spelled(Symbol(s)))
  {
  }

  lemma {:induction false} IdsSpelled(ids: seq<Text>)
    requires IdsFit(ids)
    ensures AllWellSpelled(IdsLexemes(ids))
  {
    if ids != [] {
      assert IsSymbol(ids[0]) && forall i :: 0 <= i < |ids[1..]| ==> ids[1..][i] == ids[i + 1];
      IdsSpelled(ids[1..]);
    }
  }

  predicate FieldSpelled(f: Field) {
    IsName(f.key) && AllWellSpelled(f.block)
  }

  predicate AllFieldsSpelled(fs: seq<Field>) {
    forall i :: 0 <= i < |fs| ==> FieldSpelled(fs[i])
  }

  lemma {:induction false} FieldsSpelled(pre: seq<Lexeme>, fs: seq<Field>)
    requires AllWellSpelled(pre) && AllFieldsSpelled(fs)
    ensures AllWellSpelled(AppendFields(pre, fs))
    decreases fs
  {
    if fs != [] {
      assert FieldSpelled(fs[0]) && WellSpelled(Spelled(Keyword(fs[0].key)));
      hide WellSpelled;
      FieldsSpelled(AppendField(pre, fs[0]), fs[1..]);
    }
  }

  lemma {:induction false} LettersAreNames(s: Text)
    requires s != [] && forall i :: 0 <= i < |s| ==> 'a' <= s[i] <= 'z'
    ensures IsName(s)
  {
    if |s| > 1 {
      LettersAreNames(s[1..]);
      assert forall i :: 1 <= i < |s| ==> s[i] == s[1..][i - 1];
    }
  }

  lemma DepsSpelled(deps: seq<Text>)
    requires IdsFit(deps)
    ensures AllWellSpelled(DepsLexemes(deps))
  {
    BracketsSpelled();
    IdsSpelled(deps);
    hide WellSpelled, IdsLexemes;
  }

  lemma HeaderSpelled(id: Text)
    requires IsSymbol(id)
    ensures AllWellSpelled(NodeHeader(id))
  {
    LettersAreSymbols("node");
    SymbolSpelled("node");
    SymbolSpelled(id);
    BracketsSpelled();
    hide WellSpelled;
  }

  lemma NumberSpelled(text: Text)
    requires IsNumber(text)
    ensures WellSpelled(Spelled(Number(text)))
  {
  }

  lemma PermissionSpelled(tag: bv32)
    requires PermissionFits(tag)
    ensures WellSpelled(Spelled(Symbol(PermissionText(tag))))
  {
    LettersAreSymbols(PermissionText(tag));
    hide PermissionText;
    SymbolSpelled(PermissionText(tag));
  }

  lemma SimpleFieldsSpelled(n: Node)
    requires NodeFits(n)
    ensures WellSpelled(Spelled(Number(ScoreText(n.confidence))))
    ensures WellSpelled(Spelled(Number(ScoreText(n.authority))))
    ensures WellSpelled(Spelled(Symbol(PermissionText(n.permissions))))
    ensures n.note.Some? ==> WellSpelled(Spelled(QuotedText(n.note.value)))
  {
    NoteFits(n);
    hide *;
    ScoreTextIsNumber(n.confidence);
    ScoreTextIsNumber(n.authority);
    NumberSpelled(ScoreText(n.confidence));
    NumberSpelled(ScoreText(n.authority));
    PermissionSpelled(n.permissions);
  }

  lemma NoteFits(n: Node)
    requires NodeFits(n)
    ensures PermissionFits(n.permissions)
    ensures n.note.Some? ==> WellSpelled(Spelled(QuotedText(n.note.value)))
  {
    hide Utf8.Valid, Escape;
  }

  lemma ContentKeys()
    ensures IsName("pred") && IsName("valid") && IsName("src") && IsName("deps")
  {
    LettersAreNames("pred");
    LettersAreNames("valid");
    LettersAreNames("src");
    LettersAreNames("deps");
  }

  lemma WeightKeys()
    ensures IsName("conf") && IsName("auth") && IsName("perm") && IsName("note")
  {
    LettersAreNames("conf");
    LettersAreNames("auth");
    LettersAreNames("perm");
    LettersAreNames("note");
  }

  lemma ContentFieldsSpelled(n: Node, cal: Calendar)
    requires NodeFits(n) && Lawful(cal)
    ensures AllFieldsSpelled(ContentFields(n, cal))
  {
    hide *;
    FitsContent(n);
    PredicateSpelled(n.pred, cal);
    ValiditySpelled(n.validity, cal);
    ProvenanceSpelled(n.provenance);
    ContentKeys();
    KeyedBlock("pred", PredicateLexemes(n.pred, cal));
    KeyedBlock("valid", ValidityLexemes(n.validity, cal));
    KeyedBlock("src", ProvenanceLexemes(n.provenance));
    ContentFieldsAre(n, cal);
  }

  lemma FitsContent(n: Node)
    requires NodeFits(n)
    ensures PredicateFits(n.pred) && ProvenanceFits(n.provenance)
  {
  }

  lemma ContentFieldsAre(n: Node, cal: Calendar)
    requires FieldSpelled(Field("pred", PredicateLexemes(n.pred, cal)))
    requires FieldSpelled(Field("valid", ValidityLexemes(n.validity, cal)))
    requires FieldSpelled(Field("src", ProvenanceLexemes(n.provenance)))
    ensures AllFieldsSpelled(ContentFields(n, cal))
  {
    hide FieldSpelled, PredicateLexemes, ValidityLexemes, ProvenanceLexemes;
  }

  lemma KeyedBlock(key: Text, block: seq<Lexeme>)
    requires IsName(key) && AllWellSpelled(block)
    ensures FieldSpelled(Field(key, block))
  {
  }

  lemma KeyedOne(key: Text, l: Lexeme)
    requires IsName(key) && WellSpelled(l)
    ensures FieldSpelled(Field(key, [l]))
  {
    hide IsName, WellSpelled;
  }

  lemma WeightFieldsSpelled(n: Node)
    requires NodeFits(n)
    ensures AllFieldsSpelled(WeightFields(n)) && AllFieldsSpelled(NoteField(n))
  {
    hide WellSpelled, NodeFits, ScoreText, PermissionText, Spelled, IsName, FieldSpelled;
    SimpleFieldsSpelled(n);
    WeightKeys();
    KeyedOne("conf", Spelled(Number(ScoreText(n.confidence))));
    KeyedOne("auth", Spelled(Number(ScoreText(n.authority))));
    KeyedOne("perm", Spelled(Symbol(PermissionText(n.permissions))));
    if n.note.Some? {
      KeyedOne("note", Spelled(QuotedText(n.note.value)));
    }
  }

  lemma FieldsOfSpelled(n: Node, cal: Calendar)
    requires NodeFits(n) && Lawful(cal)
    ensures AllFieldsSpelled(FieldsOf(n, cal))
  {
    hide *;
    ContentFieldsSpelled(n, cal);
    WeightFieldsSpelled(n);
    DepsFieldSpelled(n);
    FieldsConcat(ContentFields(n, cal), WeightFields(n), DepsField(n), NoteField(n));
    FieldsOfParts(n, cal);
  }

  lemma FieldsOfParts(n: Node, cal: Calendar)
    ensures FieldsOf(n, cal) == ContentFields(n, cal) + WeightFields(n) + DepsField(n) + NoteField(n)
  {
  }

  lemma FieldsConcat(a: seq<Field>, b: seq<Field>, c: seq<Field>, d: seq<Field>)
    requires AllFieldsSpelled(a) && AllFieldsSpelled(b) && AllFieldsSpelled(c) && AllFieldsSpelled(d)
    ensures AllFieldsSpelled(a + b + c + d)
  {
    hide FieldSpelled;
  }

  lemma DepsFieldSpelled(n: Node)
    requires NodeFits(n)
    ensures AllFieldsSpelled(DepsField(n))
  {
    ContentKeys();
    DepsSpelled(n.deps);
    hide IsName, WellSpelled, NodeFits;
  }

  /** Every token of a node that fits is well spelled. */
  lemma NodeSpelled(n: Node, cal: Calendar)
    requires NodeFits(n) && Lawful(cal)
    ensures AllWellSpelled(NodeLexemes(n, cal))
  {
    FieldsOfSpelled(n, cal);
    HeaderSpelled(n.id);
    BracketsSpelled();
    hide FieldSpelled, FieldsOf, NodeFits, WellSpelled, NodeHeader;
    FieldsSpelled(NodeHeader(n.id), FieldsOf(n, cal));
  }

  // ----- rendering -----

  lemma AppendOne(pre: seq<Lexeme>, l: Lexeme)
    requires pre != [] && !Opens(l) && !Closes(l)
    ensures Render(pre + [l]) == Render(pre) + (if Opens(pre[|pre| - 1]) then "" else " ") + l.text
  {
    RenderOne(l);
    hide Render;
    AppendBlock(pre, [l]);
  }

  lemma TaggedRender(tag: Text, item: Lexeme)
    requires !Opens(item) && !Closes(item)
    ensures Render(TaggedLexemes(tag, item)) == "(" + tag + " " + item.text
  {
    var open, word := Spelled(LParen), Spelled(Symbol(tag));
    RenderOne(open);
    hide Render;
    AppendOne([open], word);
    AppendOne([open] + [word], item);
    assert TaggedLexemes(tag, item) == [open] + [word] + [item];
  }

  lemma SpanRender(span: Span)
    ensures IsBlock(SpanLexemes(span)) && Render(SpanLexemes(span)) == SpanText(span)
  {
    hide NatText;
    NumbersRender(NatText(span.start), NatText(span.end));
  }

  lemma NumbersRender(start: Text, end: Text)
    ensures Render([Spelled(LBracket), Spelled(Number(start)), Spelled(Number(end)), Spelled(RBracket)])
         == "[" + start + " " + end + "]"
  {
    var open, first, second := Spelled(LBracket), Spelled(Number(start)), Spelled(Number(end));
    RenderOne(open);
    hide Render;
    AppendOne([open], first);
    AppendOne([open] + [first], second);
    AppendClose([open] + [first] + [second], Spelled(RBracket));
    assert [open, first, second, Spelled(RBracket)] == [open] + [first] + [second] + [Spelled(RBracket)];
  }

  /** A tagged form closed after `more`. */
  lemma ClosedRender(tag: Text, item: Lexeme, more: seq<Lexeme>, text: Text)
    requires !Opens(item) && !Closes(item)
    requires Render(TaggedLexemes(tag, item) + more) == text
    ensures var ls := TaggedLexemes(tag, item) + more + [Spelled(RParen)];
            IsBlock(ls) && Render(ls) == text + ")"
  {
    hide Render;
    AppendClose(TaggedLexemes(tag, item) + more, Spelled(RParen));
  }

  lemma ModelRender(model: Text, version: Text)
    ensures IsBlock(ModelLexemes(model, version))
    ensures Render(ModelLexemes(model, version)) == "(model " + Quote(model) + " " + Quote(version) + ")"
  {
    var item := RawQuoted(model);
    QuotedItem(model);
    PairRender("model", item, version);
    ModelTexts(Quote(model), Quote(version));
    assert ModelLexemes(model, version) == TaggedLexemes("model", item) + [RawQuoted(version)] + [Spelled(RParen)];
    hide Render, Quote, TaggedLexemes, IsBlock, RawQuoted;
  }

  lemma ModelTexts(model: Text, version: Text)
    ensures "(" + "model" + " " + model + " " + version + ")" == "(model " + model + " " + version + ")"
  {
  }

  lemma WindowRender(from: Text, until: Text)
    ensures var ls := TaggedLexemes("window", RawQuoted(from)) + [RawQuoted(until)] + [Spelled(RParen)];
            IsBlock(ls) && Render(ls) == "(window " + Quote(from) + (" " + Quote(until)) + ")"
  {
    var text := "(window " + Quote(from) + (" " + Quote(until));
    WindowTimesRender(from, until);
    hide Render, Quote;
    ClosedRender("window", RawQuoted(from), [RawQuoted(until)], text);
  }

  lemma WindowTimesRender(from: Text, until: Text)
    ensures Render(TaggedLexemes("window", RawQuoted(from)) + [RawQuoted(until)])
         == "(window " + Quote(from) + (" " + Quote(until))
  {
    var item, last := RawQuoted(from), RawQuoted(until);
    assert TaggedLexemes("window", item) != [] && !Opens(TaggedLexemes("window", item)[2]) && last.text == Quote(until);
    TaggedRender("window", item);
    WindowTexts(Quote(from), Quote(until));
    hide Render, Quote, TaggedLexemes;
    AppendOne(TaggedLexemes("window", item), last);
  }

  lemma WindowTexts(from: Text, until: Text)
    ensures "(" + "window" + " " + from + " " + until == "(window " + from + (" " + until)
  {
  }

  lemma OpenWindowRender(from: Text)
    ensures var ls := TaggedLexemes("window", RawQuoted(from)) + [] + [Spelled(RParen)];
            IsBlock(ls) && Render(ls) == "(window " + Quote(from) + "" + ")"
  {
    var pre := TaggedLexemes("window", RawQuoted(from));
    TaggedRender("window", RawQuoted(from));
    assert pre + [] == pre;
    hide Render;
    ClosedRender("window", RawQuoted(from), [], "(window " + Quote(from));
  }

  lemma ValidityRender(v: Validity, cal: Calendar)
    ensures IsBlock(ValidityLexemes(v, cal)) && Render(ValidityLexemes(v, cal)) == ValidityText(v, cal)
  {
    match v
    case Forever => RenderOne(Spelled(Symbol("forever")));
    case Window(from, until) =>
      hide Render, IsBlock, TaggedLexemes;
      if until.Some? {
        WindowRender(cal.showTime(from), cal.showTime(until.value));
      } else {
        OpenWindowRender(cal.showTime(from));
      }
  }

  /** A tagged form with a span in it. */
  lemma SpannedRender(tag: Text, doc: Text, span: Span)
    ensures var ls := TaggedLexemes(tag, RawQuoted(doc)) + SpanLexemes(span);
            Render(ls) == "(" + tag + " " + Quote(doc) + " " + SpanText(span) && !Opens(ls[|ls| - 1])
  {
    TaggedRender(tag, RawQuoted(doc));
    SpanRender(span);
    hide Render, SpanText, SpanLexemes;
    AppendBlock(TaggedLexemes(tag, RawQuoted(doc)), SpanLexemes(span));
  }

  lemma VerbatimRender(tag: Text, doc: Text, span: Span)
    ensures var ls := TaggedLexemes(tag, RawQuoted(doc)) + SpanLexemes(span) + [Spelled(RParen)];
            IsBlock(ls) && Render(ls) == "(" + tag + " " + Quote(doc) + " " + SpanText(span) + ")"
  {
    SpannedRender(tag, doc, span);
    hide Render, SpanText, SpanLexemes;
    ClosedRender(tag, RawQuoted(doc), SpanLexemes(span), "(" + tag + " " + Quote(doc) + " " + SpanText(span));
  }

  lemma ProvenanceRender(p: Provenance)
    ensures IsBlock(ProvenanceLexemes(p)) && Render(ProvenanceLexemes(p)) == ProvenanceText(p)
  {
    hide Render, SpanText, SpanLexemes, IsBlock, TaggedLexemes, RawQuoted, Quote, Spelled, ModelLexemes;
    match p
    case Verbatim(doc, span) =>
      VerbatimRender("verbatim", doc, span);
      assert "(" + "verbatim" + " " == "(verbatim ";
    case Summary(doc, span) =>
      VerbatimRender("summary", doc, span);
      assert "(" + "summary" + " " == "(summary ";
    case Extracted(doc, span, model, version) => ExtractedRender(doc, span, model, version);
    case Derived(from, rule) => DerivedRender(from, rule);
    case Asserted(principal) => AssertedRender(principal);
  }

  lemma DerivedRender(from: Text, rule: Text)
    ensures var ls := ProvenanceLexemes(Derived(from, rule));
            IsBlock(ls) && Render(ls) == "(derived " + from + " " + Quote(rule) + ")"
  {
    var item := Spelled(Symbol(from));
    PairRender("derived", item, rule);
    DerivedTexts(from, Quote(rule));
    hide Render, Quote, TaggedLexemes, IsBlock;
  }

  lemma DerivedTexts(from: Text, rule: Text)
    ensures "(" + "derived" + " " + from + " " + rule + ")" == "(derived " + from + " " + rule + ")"
  {
  }

  /** A tagged form of an item and a quoted text. */
  lemma PairRender(tag: Text, item: Lexeme, second: Text)
    requires !Opens(item) && !Closes(item)
    ensures var ls := TaggedLexemes(tag, item) + [RawQuoted(second)] + [Spelled(RParen)];
            IsBlock(ls) && Render(ls) == "(" + tag + " " + item.text + " " + Quote(second) + ")"
  {
    TaggedRender(tag, item);
    QuotedItem(second);
    TaggedEnds(tag, item);
    hide Render, Quote, TaggedLexemes, RawQuoted, Opens, Closes, IsBlock;
    AppendOne(TaggedLexemes(tag, item), RawQuoted(second));
    Associates("(" + tag + " " + item.text, " ", Quote(second));
    ClosedRender(tag, item, [RawQuoted(second)], "(" + tag + " " + item.text + " " + Quote(second));
  }

  lemma QuotedItem(s: Text)
    ensures !Opens(RawQuoted(s)) && !Closes(RawQuoted(s)) && RawQuoted(s).text == Quote(s)
  {
  }

  lemma TaggedEnds(tag: Text, item: Lexeme)
    ensures |TaggedLexemes(tag, item)| == 3 && TaggedLexemes(tag, item)[2] == item
  {
  }

  lemma AssertedRender(principal: Text)
    ensures var ls := ProvenanceLexemes(Asserted(principal));
            IsBlock(ls) && Render(ls) == "(asserted " + Quote(principal) + ")"
  {
    var pre := TaggedLexemes("asserted", RawQuoted(principal));
    TaggedRender("asserted", RawQuoted(principal));
    assert pre + [] == pre;
    hide Render;
    ClosedRender("asserted", RawQuoted(principal), [], "(asserted " + Quote(principal));
  }

  lemma ExtractedRender(doc: Text, span: Span, model: Text, version: Text)
    ensures var p := Extracted(doc, span, model, version);
            IsBlock(ProvenanceLexemes(p)) && Render(ProvenanceLexemes(p)) == ProvenanceText(p)
  {
    var pre := TaggedLexemes("extracted", RawQuoted(doc));
    var more := SpanLexemes(span) + ModelLexemes(model, version);
    SpannedRender("extracted", doc, span);
    ModelRender(model, version);
    assert pre + SpanLexemes(span) != [];
    hide Render, SpanText, IsBlock, ModelLexemes, SpanLexemes, TaggedLexemes, Quote, RawQuoted, Spelled;
    AppendBlock(pre + SpanLexemes(span), ModelLexemes(model, version));
    assert pre + SpanLexemes(span) + ModelLexemes(model, version) == pre + more;
    var text := "(extracted " + Quote(doc) + " " + SpanText(span) + " ("
                + ("model " + Quote(model) + " " + Quote(version) + ")");
    ExtractedTexts(Quote(doc), SpanText(span), Quote(model), Quote(version));
    ExtractedItem(doc);
    ClosedRender("extracted", RawQuoted(doc), more, text);
  }

  lemma ExtractedItem(doc: Text)
    ensures !Opens(RawQuoted(doc)) && !Closes(RawQuoted(doc))
  {
  }

  lemma ExtractedTexts(doc: Text, span: Text, model: Text, version: Text)
    ensures "(" + "extracted" + " " + doc + " " + span + " " + ("(model " + model + " " + version + ")")
         == "(extracted " + doc + " " + span + " (" + ("model " + model + " " + version + ")")
    ensures "(extracted " + doc + " " + span + " (" + ("model " + model + " " + version + ")") + ")"
         == "(extracted " + doc + " " + span + " (model " + model + " " + version + "))"
  {
    var tail := model + " " + version + ")";
    assert "(model " + model + " " + version + ")" == "(" + ("model " + tail);
    assert "(" + "extracted" + " " == "(extracted ";
  }

  lemma IdsUnfold(ids: seq<Text>)
    requires ids != []
    ensures IdsLexemes(ids) == [Spelled(Symbol(ids[0]))] + IdsLexemes(ids[1..])
    ensures IdsText(ids) == " " + ids[0] + IdsText(ids[1..])
  {
  }

  lemma IdsNone()
    ensures IdsLexemes([]) == [] && IdsText([]) == []
  {
  }

  lemma Associates(a: Text, b: Text, c: Text)
    ensures a + b + c == a + (b + c)
  {
  }

  lemma AppendSymbol(pre: seq<Lexeme>, id: Text)
    requires pre != [] && !Opens(pre[|pre| - 1])
    ensures Render(pre + [Spelled(Symbol(id))]) == Render(pre) + (" " + id)
    ensures !Opens(Spelled(Symbol(id)))
  {
    AppendOne(pre, Spelled(Symbol(id)));
    Associates(Render(pre), " ", id);
    hide Render, Opens;
  }

  lemma {:induction false} IdsRender(pre: seq<Lexeme>, ids: seq<Text>)
    requires pre != [] && !Opens(pre[|pre| - 1])
    ensures Render(pre + IdsLexemes(ids)) == Render(pre) + IdsText(ids)
    decreases ids
  {
    hide *;
    if ids == [] {
      IdsNone();
      assert pre + [] == pre;
    } else {
      var first, more := [Spelled(Symbol(ids[0]))], IdsLexemes(ids[1..]);
      AppendSymbol(pre, ids[0]);
      assert (pre + first)[|pre|] == first[0];
      IdsRender(pre + first, ids[1..]);
      IdsUnfold(ids);
      assert pre + (first + more) == pre + first + more;
    }
  }

  lemma DepsStart(id: Text)
    ensures Render([Spelled(LBracket), Spelled(Symbol(id))]) == "[" + id
    ensures !Opens(Spelled(Symbol(id))) && !Closes(Spelled(LBracket))
  {
  }

  lemma DepsUnfold(deps: seq<Text>)
    requires deps != []
    ensures DepsLexemes(deps)
         == [Spelled(LBracket), Spelled(Symbol(deps[0]))] + IdsLexemes(deps[1..]) + [Spelled(RBracket)]
  {
    IdsUnfold(deps);
    hide IdsLexemes, IdsText;
    assert [Spelled(LBracket)] + ([Spelled(Symbol(deps[0]))] + IdsLexemes(deps[1..]))
        == [Spelled(LBracket), Spelled(Symbol(deps[0]))] + IdsLexemes(deps[1..]);
  }

  lemma BracketsBlock(inner: seq<Lexeme>)
    requires inner != [] && inner[0] == Spelled(LBracket)
    ensures IsBlock(inner + [Spelled(RBracket)])
  {
    assert (inner + [Spelled(RBracket)])[0] == Spelled(LBracket);
  }

  lemma DepsRender(deps: seq<Text>)
    requires deps != []
    ensures IsBlock(DepsLexemes(deps))
    ensures Render(DepsLexemes(deps)) == "[" + deps[0] + IdsText(deps[1..]) + "]"
  {
    hide *;
    var start := [Spelled(LBracket), Spelled(Symbol(deps[0]))];
    DepsStart(deps[0]);
    DepsUnfold(deps);
    IdsRender(start, deps[1..]);
    CloseBracket(start + IdsLexemes(deps[1..]));
    BracketsBlock(start + IdsLexemes(deps[1..]));
  }

  lemma CloseBracket(pre: seq<Lexeme>)
    requires pre != []
    ensures Render(pre + [Spelled(RBracket)]) == Render(pre) + "]"
  {
    AppendClose(pre, Spelled(RBracket));
    hide Render;
  }

  function FieldText(f: Field): Text {
    " :" + f.key + " " + Render(f.block)
  }

  function FieldsText(fs: seq<Field>): Text {
    if fs == [] then [] else FieldText(fs[0]) + FieldsText(fs[1..])
  }

  predicate AllBlocks(fs: seq<Field>) {
    forall i :: 0 <= i < |fs| ==> IsBlock(fs[i].block)
  }

  lemma {:induction false} FieldsRender(pre: seq<Lexeme>, fs: seq<Field>)
    requires pre != [] && !Opens(pre[|pre| - 1])
    requires AllBlocks(fs)
    ensures Render(AppendFields(pre, fs)) == Render(pre) + FieldsText(fs)
    ensures AppendFields(pre, fs) != []
    decreases fs
  {
    hide Render, IsBlock;
    if fs != [] {
      AppendKeyed(pre, fs[0].key, fs[0].block);
      FieldsRender(AppendField(pre, fs[0]), fs[1..]);
      var r, key, block := Render(pre), fs[0].key, Render(fs[0].block);
      assert r + " :" + key + " " + block == r + (" :" + key + " " + block);
    }
  }

  lemma FieldsTextCons(f: Field, b: seq<Field>)
    ensures FieldsText([f] + b) == FieldText(f) + FieldsText(b)
  {
    assert ([f] + b)[1..] == b;
  }

  lemma NoFieldsText()
    ensures FieldsText([]) == []
  {
  }

  lemma {:induction false} FieldsTextConcat(a: seq<Field>, b: seq<Field>)
    ensures FieldsText(a + b) == FieldsText(a) + FieldsText(b)
  {
    hide *;
    if a == [] {
      NoFieldsText();
      assert a + b == b;
    } else {
      var f, tail := a[0], a[1..];
      assert a == [f] + tail && a + b == [f] + (tail + b);
      FieldsTextConcat(tail, b);
      FieldsTextCons(f, tail);
      FieldsTextCons(f, tail + b);
    }
  }

  lemma ThreeFields(f: Field, g: Field, h: Field)
    ensures FieldsText([f, g, h]) == FieldText(f) + (FieldText(g) + FieldText(h))
  {
    hide FieldText;
    assert [f, g, h][1..] == [g, h] && [g, h][1..] == [h] && [h][1..] == [];
    assert FieldsText([h]) == FieldText(h) + FieldsText([]);
    assert FieldsText([g, h]) == FieldText(g) + FieldsText([h]);
  }

  lemma OneField(f: Field)
    ensures FieldsText([f]) == FieldText(f)
  {
    assert [f][1..] == [];
  }

  lemma ContentRender(n: Node, cal: Calendar)
    ensures FieldsText(ContentFields(n, cal)) == ContentText(n, cal)
  {
    hide Render, PredicateLexemes, ValidityLexemes, ProvenanceLexemes, PredicateText, ValidityText, ProvenanceText,
      IsBlock, FieldsText;
    PredicateRender(n.pred, cal);
    ValidityRender(n.validity, cal);
    ProvenanceRender(n.provenance);
    ThreeFields(ContentFields(n, cal)[0], ContentFields(n, cal)[1], ContentFields(n, cal)[2]);
    KeyText("pred", PredicateText(n.pred, cal));
    KeyText("valid", ValidityText(n.validity, cal));
    KeyText("src", ProvenanceText(n.provenance));
    assert " :" + "pred" + " " == " :pred " && " :" + "valid" + " " == " :valid " && " :" + "src" + " " == " :src ";
  }

  lemma KeyText(key: Text, text: Text)
    ensures " :" + key + " " + text == " :" + key + " " + text
  {
  }

  lemma WeightRender(n: Node)
    ensures FieldsText(WeightFields(n)) == WeightText(n)
  {
    RenderOne(Spelled(Number(ScoreText(n.confidence))));
    RenderOne(Spelled(Number(ScoreText(n.authority))));
    RenderOne(Spelled(Symbol(PermissionText(n.permissions))));
    hide Render, ScoreText, PermissionText, FieldsText;
    ThreeFields(WeightFields(n)[0], WeightFields(n)[1], WeightFields(n)[2]);
    assert " :" + "conf" + " " == " :conf " && " :" + "auth" + " " == " :auth " && " :" + "perm" + " " == " :perm ";
  }

  lemma DepsFieldRender(n: Node)
    ensures FieldsText(DepsField(n)) == DepsText(n.deps)
  {
    if n.deps != [] {
      DepsRender(n.deps);
      OneField(DepsField(n)[0]);
      hide Render, IdsText, FieldsText, DepsLexemes;
      DepsTexts(n.deps[0], IdsText(n.deps[1..]));
    }
  }

  lemma DepsTexts(first: Text, more: Text)
    ensures " :" + "deps" + " " + ("[" + first + more + "]") == " :deps [" + first + more + "]"
  {
  }

  lemma NoteFieldRender(n: Node)
    ensures FieldsText(NoteField(n)) == NoteText(n.note)
  {
    if n.note.Some? {
      var quoted := Spelled(QuotedText(n.note.value));
      RenderOne(quoted);
      OneField(NoteField(n)[0]);
      hide Render, Escape, FieldsText;
      assert " :" + "note" + " " == " :note ";
    }
  }

  lemma HeaderRender(id: Text)
    ensures Render(NodeHeader(id)) == "(node " + id
    ensures NodeHeader(id) != [] && !Opens(NodeHeader(id)[|NodeHeader(id)| - 1])
  {
    TaggedRender("node", Spelled(Symbol(id)));
  }

  lemma ContentBlocks(n: Node, cal: Calendar)
    ensures AllBlocks(ContentFields(n, cal)) && AllBlocks(DepsField(n))
  {
    hide Render, PredicateLexemes, ValidityLexemes, ProvenanceLexemes, DepsLexemes, IsBlock;
    PredicateRender(n.pred, cal);
    ValidityRender(n.validity, cal);
    ProvenanceRender(n.provenance);
    if n.deps != [] {
      DepsRender(n.deps);
    }
  }

  lemma FieldBlocks(n: Node, cal: Calendar)
    ensures AllBlocks(FieldsOf(n, cal))
  {
    hide *;
    ContentBlocks(n, cal);
    OtherBlocks(n);
    FieldsOfParts(n, cal);
    BlocksConcat(ContentFields(n, cal), WeightFields(n), DepsField(n), NoteField(n));
  }

  lemma OtherBlocks(n: Node)
    ensures AllBlocks(WeightFields(n)) && AllBlocks(NoteField(n))
  {
  }

  lemma BlocksConcat(a: seq<Field>, b: seq<Field>, c: seq<Field>, d: seq<Field>)
    requires AllBlocks(a) && AllBlocks(b) && AllBlocks(c) && AllBlocks(d)
    ensures AllBlocks(a + b + c + d)
  {
    hide IsBlock;
  }

  /** The serializer prints exactly the rendering of the node's tokens. */
  lemma NodeRender(n: Node, cal: Calendar)
    ensures Render(NodeLexemes(n, cal)) == NodeText(n, cal)
  {
    var c, w, d, o := ContentFields(n, cal), WeightFields(n), DepsField(n), NoteField(n);
    HeaderRender(n.id);
    FieldBlocks(n, cal);
    ContentRender(n, cal);
    WeightRender(n);
    DepsFieldRender(n);
    NoteFieldRender(n);
    hide Render, FieldsText, IsBlock, NodeHeader, AppendFields, ContentText, WeightText, DepsText, NoteText,
      ContentFields, WeightFields, DepsField, NoteField;
    FieldsTextConcat(c + w + d, o);
    FieldsTextConcat(c + w, d);
    FieldsTextConcat(c, w);
    FieldsRender(NodeHeader(n.id), FieldsOf(n, cal));
    AppendClose(AppendFields(NodeHeader(n.id), FieldsOf(n, cal)), Spelled(RParen));
  }
}
