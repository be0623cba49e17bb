/** The text form carries a node: parsing its canonical text gives the node back. */
module RoundTrip {
  import opened Types
  import opened Decimal
  import opened Lexer
  import opened Serialize
  import opened Grammar
  import opened Lexemes
  import opened Printing
  import opened NodePrinting
  import opened Parsing

  /** The node as its text carries it: heads by name, and active, since the text has no status. */
  function Carried(n: Node): Node {
    n.(pred := NamedPredicate(n.pred), status := Active)
  }

  // ----- tokens of short forms, one at a time -----

  lemma AdvanceCons(t: Token, rest: Stream)
    requires t != Eof
    ensures var ts: Stream := [t] + rest; ts[0] == t && Advance(ts) == rest
  {
    assert ([t] + rest)[1..] == rest;
  }

  lemma ExpectCons(t: Token, rest: Stream)
    requires t != Eof
    ensures Expect([t] + rest, t) == Ok(rest)
  {
    AdvanceCons(t, rest);
    hide Advance;
  }

  lemma Associated(a: seq<Token>, b: seq<Token>, c: seq<Token>)
    ensures a + b + c == a + (b + c)
  {
  }

  lemma TokensOfThree(a: Lexeme, b: Lexeme, c: Lexeme, rest: seq<Token>)
    ensures TokensOf([a, b, c]) + rest == [a.token] + ([b.token] + ([c.token] + rest))
  {
    assert [a, b, c][1..] == [b, c];
    TokensOfShort(b, c);
    hide TokensOf;
    TokensOfCons(a, [b, c]);
    assert [a] + [b, c] == [a, b, c];
  }

  lemma SpanTokens(span: Span, rest: seq<Token>)
    ensures TokensOf(SpanLexemes(span)) + rest
         == [LBracket] + ([Number(NatText(span.start))] + ([Number(NatText(span.end))] + ([RBracket] + rest)))
  {
    var ls := SpanLexemes(span);
    TokensOfCons(ls[0], ls[1..]);
    TokensOfThree(ls[1], ls[2], ls[3], rest);
    assert ls == [ls[0]] + ls[1..] && ls[1..] == [ls[1], ls[2], ls[3]];
    hide TokensOf, NatText;
  }

  lemma ModelTokens(model: Text, version: Text, rest: seq<Token>)
    ensures TokensOf(ModelLexemes(model, version)) + rest
         == [LParen] + ([Symbol("model")] + ([QuotedText(model)] + ([QuotedText(version)] + ([RParen] + rest))))
  {
    var ls := ModelLexemes(model, version);
    TokensOfShort(ls[0], ls[1]);
    TokensOfThree(ls[2], ls[3], ls[4], rest);
    hide TokensOf;
    TokensOfConcat([ls[0], ls[1]], [ls[2], ls[3], ls[4]]);
    assert ls == [ls[0], ls[1]] + [ls[2], ls[3], ls[4]];
  }

  /** Tokens of a tagged form: what comes after the tag and its first item, closed. */
  lemma TaggedTokens(tag: Text, item: Lexeme, more: seq<Lexeme>, rest: seq<Token>)
    ensures TokensOf(TaggedLexemes(tag, item) + more + [Spelled(RParen)]) + rest
         == [LParen] + ([Symbol(tag)] + ([item.token] + (TokensOf(more) + ([RParen] + rest))))
  {
    var close := Spelled(RParen);
    TokensOfShort(close, close);
    TokensOfThree(Spelled(LParen), Spelled(Symbol(tag)), item, TokensOf(more) + ([RParen] + rest));
    hide TokensOf;
    TokensOfConcat(TaggedLexemes(tag, item) + more, [close]);
    TokensOfConcat(TaggedLexemes(tag, item), more);
  }

  // ----- field values -----

  lemma NatReadBack(n: nat, limit: nat)
    requires n < limit
    ensures ParseUnsigned(NatText(n), limit) == Some(n)
  {
  }

  lemma SpanReadBack(span: Span, rest: Stream)
    ensures ParseSpan(TokensOf(SpanLexemes(span)) + rest) == Ok((span, rest))
  {
    hide *;
    SpanTokens(span, rest);
    SpanTokensReadBack(span, NatText(span.start), NatText(span.end), rest);
  }

  lemma SpanTokensReadBack(span: Span, start: Text, end: Text, rest: Stream)
    requires start == NatText(span.start) && end == NatText(span.end)
    ensures ParseSpan([LBracket] + ([Number(start)] + ([Number(end)] + ([RBracket] + rest)))) == Ok((span, rest))
  {
    hide NatText, ParseU32, Advance;
    var r3: Stream := [RBracket] + rest;
    var r2: Stream := [Number(end)] + r3;
    var r1: Stream := [Number(start)] + r2;
    U32ReadBack(span.start, r2);
    U32ReadBack(span.end, r3);
    AdvanceCons(LBracket, r1);
    AdvanceCons(RBracket, rest);
  }

  lemma U32ReadBack(n: U32, rest: Stream)
    ensures ParseU32([Number(NatText(n))] + rest) == Ok((n, rest))
  {
    NatReadBack(n, U32_LIMIT);
    hide NatText, ParseUnsigned, Advance;
    AdvanceCons(Number(NatText(n)), rest);
  }

  lemma ModelReadBack(model: Text, version: Text, rest: Stream)
    ensures ParseModel(TokensOf(ModelLexemes(model, version)) + rest) == Ok(((model, version), rest))
  {
    ModelTokens(model, version, rest);
    hide TokensOf, Advance, ModelLexemes;
    var r4: Stream := [RParen] + rest;
    var r3: Stream := [QuotedText(version)] + r4;
    var r2: Stream := [QuotedText(model)] + r3;
    var r1: Stream := [Symbol("model")] + r2;
    AdvanceCons(LParen, r1);
    AdvanceCons(Symbol("model"), r2);
    AdvanceCons(QuotedText(model), r3);
    AdvanceCons(QuotedText(version), r4);
    AdvanceCons(RParen, rest);
  }

  /** A provenance form, from what its kind makes of the tokens after the kind symbol. */
  lemma ProvenanceForm(kind: Text, all: Stream, inner: Stream, p: Provenance, close: Stream, rest: Stream)
    requires ParseProvenanceOf(kind, inner) == Ok((p, close))
    requires close == [RParen] + rest && all == [LParen] + ([Symbol(kind)] + inner)
    ensures ParseProvenance(all) == Ok((p, rest))
  {
    hide ParseProvenanceOf, Advance, Expect;
    ExpectCons(LParen, [Symbol(kind)] + inner);
    AdvanceCons(Symbol(kind), inner);
    ExpectCons(RParen, rest);
  }

  lemma SpannedReadBack(kind: Text, doc: Text, span: Span, all: Stream, tail: Stream, rest: Stream)
    requires kind == "verbatim" || kind == "summary"
    requires all == [QuotedText(doc)] + tail && tail == TokensOf(SpanLexemes(span)) + rest
    ensures ParseProvenanceOf(kind, all)
         == Ok((if kind == "verbatim" then Verbatim(doc, span) else Summary(doc, span), rest))
  {
    hide TokensOf, SpanLexemes, ParseSpan, Advance;
    SpanReadBack(span, rest);
    AdvanceCons(QuotedText(doc), tail);
  }

  lemma ExtractedReadBack(
      doc: Text, span: Span, model: Text, version: Text, all: Stream, inner: Stream, tail: Stream, rest: Stream)
    requires all == [QuotedText(doc)] + inner && inner == TokensOf(SpanLexemes(span)) + tail
    requires tail == TokensOf(ModelLexemes(model, version)) + rest
    ensures ParseProvenanceOf("extracted", all) == Ok((Extracted(doc, span, model, version), rest))
  {
    hide TokensOf, SpanLexemes, ModelLexemes, ParseSpan, ParseModel, Advance;
    ModelReadBack(model, version, rest);
    SpanReadBack(span, tail);
    AdvanceCons(QuotedText(doc), inner);
  }

  lemma ProvenanceReadBack(p: Provenance, all: Stream, rest: Stream)
    requires all == TokensOf(ProvenanceLexemes(p)) + rest
    ensures ParseProvenance(all) == Ok((p, rest))
  {
    hide TokensOf, ParseProvenance, TaggedLexemes, SpanLexemes, ModelLexemes;
    match p
    case Verbatim(doc, span) => SpannedFormReadBack("verbatim", doc, span, all, rest);
    case Summary(doc, span) => SpannedFormReadBack("summary", doc, span, all, rest);
    case Extracted(doc, span, model, version) => ExtractedFormReadBack(doc, span, model, version, all, rest);
    case Derived(from, rule) => DerivedReadBack(from, rule, all, rest);
    case Asserted(principal) => AssertedReadBack(principal, all, rest);
  }

  lemma SpannedFormReadBack(kind: Text, doc: Text, span: Span, all: Stream, rest: Stream)
    requires kind == "verbatim" || kind == "summary"
    requires all == TokensOf(TaggedLexemes(kind, RawQuoted(doc)) + SpanLexemes(span) + [Spelled(RParen)]) + rest
    ensures ParseProvenance(all) == Ok((if kind == "verbatim" then Verbatim(doc, span) else Summary(doc, span), rest))
  {
    hide *;
    TaggedTokens(kind, RawQuoted(doc), SpanLexemes(span), rest);
    RawQuotedToken(doc);
    var close: Stream := [RParen] + rest;
    var tail: Stream := TokensOf(SpanLexemes(span)) + close;
    var inner: Stream := [QuotedText(doc)] + tail;
    var p := if kind == "verbatim" then Verbatim(doc, span) else Summary(doc, span);
    SpannedReadBack(kind, doc, span, inner, tail, close);
    ProvenanceForm(kind, all, inner, p, close, rest);
  }

  lemma RawQuotedToken(s: Text)
    ensures RawQuoted(s).token == QuotedText(s)
  {
  }

  lemma ExtractedFormReadBack(doc: Text, span: Span, model: Text, version: Text, all: Stream, rest: Stream)
    requires all == TokensOf(ProvenanceLexemes(Extracted(doc, span, model, version))) + rest
    ensures ParseProvenance(all) == Ok((Extracted(doc, span, model, version), rest))
  {
    hide *;
    var close: Stream := [RParen] + rest;
    var tail: Stream := TokensOf(ModelLexemes(model, version)) + close;
    var spanned: Stream := TokensOf(SpanLexemes(span)) + tail;
    var inner: Stream := [QuotedText(doc)] + spanned;
    ExtractedTokens(doc, span, model, version, rest);
    ExtractedReadBack(doc, span, model, version, inner, spanned, tail, close);
    ProvenanceForm("extracted", all, inner, Extracted(doc, span, model, version), close, rest);
  }

  lemma ExtractedTokens(doc: Text, span: Span, model: Text, version: Text, rest: seq<Token>)
    ensures TokensOf(ProvenanceLexemes(Extracted(doc, span, model, version))) + rest
         == [LParen] + ([Symbol("extracted")] + ([QuotedText(doc)] + (TokensOf(SpanLexemes(span))
            + (TokensOf(ModelLexemes(model, version)) + ([RParen] + rest)))))
  {
    var spanned, modelled := SpanLexemes(span), ModelLexemes(model, version);
    var more := spanned + modelled;
    ExtractedLexemes(doc, span, model, version);
    hide *;
    TaggedTokens("extracted", RawQuoted(doc), more, rest);
    TokensOfConcat(spanned, modelled);
    RawQuotedToken(doc);
    Associated(TokensOf(spanned), TokensOf(modelled), [RParen] + rest);
  }

  lemma ExtractedLexemes(doc: Text, span: Span, model: Text, version: Text)
    ensures ProvenanceLexemes(Extracted(doc, span, model, version))
         == TaggedLexemes("extracted", RawQuoted(doc)) + (SpanLexemes(span) + ModelLexemes(model, version))
            + [Spelled(RParen)]
  {
    hide SpanLexemes, ModelLexemes, TaggedLexemes;
  }

  lemma DerivedReadBack(from: Text, rule: Text, all: Stream, rest: Stream)
    requires all == TokensOf(ProvenanceLexemes(Derived(from, rule))) + rest
    ensures ParseProvenance(all) == Ok((Derived(from, rule), rest))
  {
    DerivedTokens(from, rule, rest);
    hide *;
    var close: Stream := [RParen] + rest;
    var tail: Stream := [QuotedText(rule)] + close;
    var inner: Stream := [Symbol(from)] + tail;
    DerivedOf(from, rule, inner, tail, close);
    ProvenanceForm("derived", all, inner, Derived(from, rule), close, rest);
  }

  lemma DerivedTokens(from: Text, rule: Text, rest: seq<Token>)
    ensures TokensOf(ProvenanceLexemes(Derived(from, rule))) + rest
         == [LParen] + ([Symbol("derived")] + ([Symbol(from)] + ([QuotedText(rule)] + ([RParen] + rest))))
  {
    TaggedTokens("derived", Spelled(Symbol(from)), [RawQuoted(rule)], rest);
    TokensOfShort(RawQuoted(rule), RawQuoted(rule));
    RawQuotedToken(rule);
    hide TokensOf, TaggedLexemes;
  }

  lemma DerivedOf(from: Text, rule: Text, all: Stream, tail: Stream, rest: Stream)
    requires all == [Symbol(from)] + tail && tail == [QuotedText(rule)] + rest
    ensures ParseProvenanceOf("derived", all) == Ok((Derived(from, rule), rest))
  {
    hide Advance;
    AdvanceCons(Symbol(from), tail);
    AdvanceCons(QuotedText(rule), rest);
  }

  lemma AssertedReadBack(principal: Text, all: Stream, rest: Stream)
    requires all == TokensOf(ProvenanceLexemes(Asserted(principal))) + rest
    ensures ParseProvenance(all) == Ok((Asserted(principal), rest))
  {
    AssertedTokens(principal, rest);
    hide *;
    var close: Stream := [RParen] + rest;
    var inner: Stream := [QuotedText(principal)] + close;
    AssertedOf(principal, close);
    ProvenanceForm("asserted", all, inner, Asserted(principal), close, rest);
  }

  lemma AssertedTokens(principal: Text, rest: seq<Token>)
    ensures TokensOf(ProvenanceLexemes(Asserted(principal))) + rest
         == [LParen] + ([Symbol("asserted")] + ([QuotedText(principal)] + ([RParen] + rest)))
  {
    var item := RawQuoted(principal);
    TaggedTokens("asserted", item, [], rest);
    assert TaggedLexemes("asserted", item) + [] == TaggedLexemes("asserted", item);
    assert TokensOf([]) == [] && [] + ([RParen] + rest) == [RParen] + rest;
    hide TokensOf, TaggedLexemes;
  }

  lemma AssertedOf(principal: Text, rest: Stream)
    ensures ParseProvenanceOf("asserted", [QuotedText(principal)] + rest) == Ok((Asserted(principal), rest))
  {
    hide Advance;
    AdvanceCons(QuotedText(principal), rest);
  }

  lemma TimeReadBack(t: Instant, rest: Stream, cal: Calendar)
    requires Lawful(cal)
    ensures ParseTime([QuotedText(cal.showTime(t))] + rest, cal) == Ok((t, rest))
  {
    AdvanceCons(QuotedText(cal.showTime(t)), rest);
    hide Advance;
  }

  lemma ForeverReadBack(rest: Stream, cal: Calendar)
    ensures ParseValidity(TokensOf(ValidityLexemes(Forever, cal)) + rest, cal) == Ok((Forever, rest))
  {
    TokensOfShort(Spelled(Symbol("forever")), Spelled(Symbol("forever")));
    hide TokensOf, Advance;
    AdvanceCons(Symbol("forever"), rest);
  }

  lemma WindowReadBack(from: Instant, until: Option<Instant>, rest: Stream, cal: Calendar)
    requires Lawful(cal)
    ensures ParseValidity(TokensOf(ValidityLexemes(Window(from, until), cal)) + rest, cal)
         == Ok((Window(from, until), rest))
  {
    var item := RawQuoted(cal.showTime(from));
    var last := if until.Some? then [RawQuoted(cal.showTime(until.value))] else [];
    var more := if until.Some? then [QuotedText(cal.showTime(until.value))] else [];
    TaggedTokens("window", item, last, rest);
    assert TokensOf(last) == more;
    hide TokensOf, TaggedLexemes, Lawful;
    WindowTokensReadBack(from, until, more, rest, cal);
  }

  lemma WindowTokensReadBack(from: Instant, until: Option<Instant>, more: seq<Token>, rest: Stream, cal: Calendar)
    requires Lawful(cal) && more == if until.Some? then [QuotedText(cal.showTime(until.value))] else []
    ensures ParseValidity(
              [LParen] + ([Symbol("window")] + ([QuotedText(cal.showTime(from))] + (more + ([RParen] + rest)))), cal)
         == Ok((Window(from, until), rest))
  {
    hide Advance, Lawful, ParseTime, ParseValidity;
    var close: Stream := [RParen] + rest;
    var tail: Stream := more + close;
    var times: Stream := [QuotedText(cal.showTime(from))] + tail;
    TimeReadBack(from, tail, cal);
    AdvanceCons(RParen, rest);
    if until.Some? {
      TimeReadBack(until.value, close, cal);
      AdvanceCons(QuotedText(cal.showTime(until.value)), close);
      ClosedWindow(times, from, tail, until.value, close, rest, cal);
    } else {
      assert tail == close;
      OpenWindow(times, from, tail, rest, cal);
    }
  }

  lemma OpenWindow(times: Stream, from: Instant, tail: Stream, rest: Stream, cal: Calendar)
    requires ParseTime(times, cal) == Ok((from, tail)) && tail[0] == RParen && Advance(tail) == rest
    ensures ParseValidity([LParen] + ([Symbol("window")] + times), cal) == Ok((Window(from, None), rest))
  {
    hide Advance, ParseTime;
    AdvanceCons(LParen, [Symbol("window")] + times);
    AdvanceCons(Symbol("window"), times);
  }

  lemma ClosedWindow(
      times: Stream, from: Instant, tail: Stream, until: Instant, close: Stream, rest: Stream, cal: Calendar)
    requires ParseTime(times, cal) == Ok((from, tail)) && tail[0] != RParen
    requires ParseTime(tail, cal) == Ok((until, close))
    requires close[0] == RParen && Advance(close) == rest
    ensures ParseValidity([LParen] + ([Symbol("window")] + times), cal) == Ok((Window(from, Some(until)), rest))
  {
    hide Advance, ParseTime;
    AdvanceCons(LParen, [Symbol("window")] + times);
    AdvanceCons(Symbol("window"), times);
  }

  lemma ValidityReadBack(v: Validity, rest: Stream, cal: Calendar)
    requires Lawful(cal)
    ensures ParseValidity(TokensOf(ValidityLexemes(v, cal)) + rest, cal) == Ok((v, rest))
  {
    match v
    case Forever => ForeverReadBack(rest, cal);
    case Window(from, until) => WindowReadBack(from, until, rest, cal);
  }

  lemma ScoreReadBack(s: Score, rest: Stream)
    requires s.Normal() && s.InUnit()
    ensures ParseUnitScore(TokensOf([Spelled(Number(ScoreText(s)))]) + rest) == Ok((s, rest))
  {
    ScoreRoundTrip(s);
    TokensOfShort(Spelled(Number(ScoreText(s))), Spelled(Number(ScoreText(s))));
    hide TokensOf, ScoreText, ParseScore, Advance;
    AdvanceCons(Number(ScoreText(s)), rest);
  }

  lemma PermissionReadBack(tag: bv32, rest: Stream)
    requires PermissionFits(tag)
    ensures ParsePermission(TokensOf([Spelled(Symbol(PermissionText(tag)))]) + rest) == Ok((tag, rest))
  {
    TokensOfShort(Spelled(Symbol(PermissionText(tag))), Spelled(Symbol(PermissionText(tag))));
    hide TokensOf, Advance;
    AdvanceCons(Symbol(PermissionText(tag)), rest);
  }

  lemma {:induction false} IdsReadBack(ids: seq<Text>, rest: Stream)
    ensures ParseIds(TokensOf(IdsLexemes(ids)) + ([RBracket] + rest)) == Ok((ids, [RBracket] + rest))
  {
    hide *;
    var close: Stream := [RBracket] + rest;
    if ids == [] {
      NoIds(rest);
    } else {
      var more := IdsLexemes(ids[1..]);
      var tail: Stream := TokensOf(more) + close;
      IdsReadBack(ids[1..], rest);
      IdStep(ids[0], tail, ids[1..], close);
      IdsTokens(ids, close);
      assert ids == [ids[0]] + ids[1..];
    }
  }

  lemma NoIds(rest: Stream)
    ensures ParseIds(TokensOf(IdsLexemes([])) + ([RBracket] + rest)) == Ok(([], [RBracket] + rest))
  {
    assert TokensOf(IdsLexemes([])) + ([RBracket] + rest) == [RBracket] + rest;
  }

  lemma IdsTokens(ids: seq<Text>, rest: seq<Token>)
    requires ids != []
    ensures TokensOf(IdsLexemes(ids)) + rest == [Symbol(ids[0])] + (TokensOf(IdsLexemes(ids[1..])) + rest)
  {
    var first := Spelled(Symbol(ids[0]));
    assert first.token == Symbol(ids[0]);
    hide *;
    IdsUnfold(ids);
    TokensOfCons(first, IdsLexemes(ids[1..]));
    Associated([first.token], TokensOf(IdsLexemes(ids[1..])), rest);
  }

  lemma IdStep(id: Text, tail: Stream, ids: seq<Text>, rest: Stream)
    requires ParseIds(tail) == Ok((ids, rest))
    ensures ParseIds([Symbol(id)] + tail) == Ok(([id] + ids, rest))
  {
    AdvanceCons(Symbol(id), tail);
    hide Advance;
  }

  lemma DepsReadBack(deps: seq<Text>, rest: Stream)
    ensures ParseIdList(TokensOf(DepsLexemes(deps)) + rest) == Ok((deps, rest))
  {
    var open, close := Spelled(LBracket), Spelled(RBracket);
    TokensOfShort(open, open);
    TokensOfShort(close, close);
    hide TokensOf, IdsLexemes, ParseIds, Advance;
    TokensOfConcat([open] + IdsLexemes(deps), [close]);
    TokensOfConcat([open], IdsLexemes(deps));
    IdsReadBack(deps, rest);
    var tail: Stream := [RBracket] + rest;
    var inner: Stream := TokensOf(IdsLexemes(deps)) + tail;
    AdvanceCons(LBracket, inner);
    AdvanceCons(RBracket, rest);
    assert [LBracket] + TokensOf(IdsLexemes(deps)) + [RBracket] + rest == [LBracket] + inner;
  }

  // ----- the fields of a node -----

  function FieldsTokens(fs: seq<Field>): seq<Token> {
    if fs == [] then [] else [Keyword(fs[0].key)] + TokensOf(fs[0].block) + FieldsTokens(fs[1..])
  }

  lemma FieldsTokensCons(f: Field, fs: seq<Field>, rest: seq<Token>)
    ensures FieldsTokens([f] + fs) + rest == [Keyword(f.key)] + (TokensOf(f.block) + (FieldsTokens(fs) + rest))
  {
    hide TokensOf;
    assert ([f] + fs)[1..] == fs;
  }

  lemma NoFields(rest: seq<Token>)
    ensures FieldsTokens([]) + rest == rest
  {
  }

  lemma AppendFieldTokens(pre: seq<Lexeme>, f: Field)
    ensures TokensOf(AppendField(pre, f)) == TokensOf(pre) + ([Keyword(f.key)] + TokensOf(f.block))
  {
    var word := Spelled(Keyword(f.key));
    TokensOfShort(word, word);
    hide TokensOf;
    TokensOfConcat(pre + [word], f.block);
    TokensOfConcat(pre, [word]);
  }

  lemma AppendFieldsUnfold(pre: seq<Lexeme>, fs: seq<Field>)
    ensures fs == [] ==> AppendFields(pre, fs) == pre
    ensures fs != [] ==> AppendFields(pre, fs) == AppendFields(AppendField(pre, fs[0]), fs[1..])
  {
  }

  lemma {:induction false} AppendFieldsTokens(pre: seq<Lexeme>, fs: seq<Field>)
    ensures TokensOf(AppendFields(pre, fs)) == TokensOf(pre) + FieldsTokens(fs)
    decreases fs
  {
    hide *;
    AppendFieldsUnfold(pre, fs);
    if fs == [] {
      NoFields([]);
      assert FieldsTokens(fs) + [] == FieldsTokens(fs);
      assert TokensOf(pre) + [] == TokensOf(pre);
    } else {
      var f, more := fs[0], fs[1..];
      assert fs == [f] + more;
      AppendFieldTokens(pre, f);
      AppendFieldsTokens(AppendField(pre, f), more);
      FieldsTokensCons(f, more, []);
      var p, k, b, t := TokensOf(pre), [Keyword(f.key)], TokensOf(f.block), FieldsTokens(more);
      assert FieldsTokens(fs) + [] == FieldsTokens(fs) && t + [] == t;
      assert p + (k + b) + t == p + (k + (b + t));
    }
  }

  /** One field in the loop of `parse_node`. */
  lemma FieldStep(field: Field, tail: Stream, before: Fields, after: Fields, depth: int, cal: Calendar)
    requires ParseField(field.key, TokensOf(field.block) + tail, before, depth, cal) == Ok((after, tail))
    ensures ParseFields([Keyword(field.key)] + (TokensOf(field.block) + tail), before, depth, cal)
         == ParseFields(tail, after, depth, cal)
  {
    hide TokensOf, ParseField, Advance;
    AdvanceCons(Keyword(field.key), TokensOf(field.block) + tail);
  }

  lemma FieldFails(field: Field, tail: Stream, before: Fields, depth: int, cal: Calendar)
    requires ParseField(field.key, TokensOf(field.block) + tail, before, depth, cal) == Err(DepthLimitExceeded)
    ensures ParseFields([Keyword(field.key)] + (TokensOf(field.block) + tail), before, depth, cal)
         == Err(DepthLimitExceeded)
  {
    hide TokensOf, ParseField, Advance;
    AdvanceCons(Keyword(field.key), TokensOf(field.block) + tail);
  }

  lemma FormReadBack(p: Predicate, rest: Stream, depth: int, cal: Calendar)
    requires PredicateFits(p) && Lawful(cal) && depth < MAX_PARSE_DEPTH
    ensures ParseForm(PredicateTokens(p, cal) + rest, depth, cal)
         == Outcome(depth + 1 + PredicateNesting(p) <= MAX_PARSE_DEPTH, NamedPredicate(p), rest)
  {
    hide *;
    PredicateTokensForm(p, cal, rest);
    var close: Stream := [RParen] + rest;
    var named: Stream := NamedTokens(p.named, cal) + close;
    var args: Stream := ArgsTokens(p.args, cal) + named;
    BodyReadBack(p, rest, depth + 1, cal);
    FormStep([Symbol(HeadText(p.head))] + args, depth + 1 + PredicateNesting(p) <= MAX_PARSE_DEPTH,
             NamedPredicate(p), rest, depth, cal);
  }

  lemma FormStep(body: Stream, fits: bool, pred: Predicate, rest: Stream, depth: int, cal: Calendar)
    requires depth < MAX_PARSE_DEPTH && ParseBody(body, depth + 1, cal) == Outcome(fits, pred, [RParen] + rest)
    ensures ParseForm([LParen] + body, depth, cal) == Outcome(fits, pred, rest)
  {
    hide Advance, ParseBody;
    AdvanceCons(LParen, body);
    AdvanceCons(RParen, rest);
  }

  /** The fields after the content of `n` has been read. */
  function WithContent(f: Fields, n: Node): Fields {
    f.(pred := Some(NamedPredicate(n.pred)), validity := n.validity, provenance := n.provenance)
  }

  function WithWeights(f: Fields, n: Node): Fields {
    f.(confidence := n.confidence, authority := n.authority, permissions := n.permissions)
  }

  predicate Shallow(n: Node) {
    2 + PredicateNesting(n.pred) <= MAX_PARSE_DEPTH
  }

  lemma PredFieldReadBack(n: Node, f: Fields, tail: Stream, cal: Calendar)
    requires PredicateFits(n.pred) && Lawful(cal)
    ensures ParseFields([Keyword("pred")] + (TokensOf(PredicateLexemes(n.pred, cal)) + tail), f, 1, cal)
         == if Shallow(n) then ParseFields(tail, f.(pred := Some(NamedPredicate(n.pred))), 1, cal)
            else Err(DepthLimitExceeded)
  {
    FormReadBack(n.pred, tail, 1, cal);
    var field := Field("pred", PredicateLexemes(n.pred, cal));
    assert TokensOf(field.block) == PredicateTokens(n.pred, cal);
    hide TokensOf, ParseForm, PredicateTokens, PredicateNesting, NamedPredicate, PredicateFits, Lawful,
      PredicateLexemes, ParseFields;
    if Shallow(n) {
      FieldStep(field, tail, f, f.(pred := Some(NamedPredicate(n.pred))), 1, cal);
    } else {
      FieldFails(field, tail, f, 1, cal);
    }
  }

  lemma ContentReadBack(n: Node, all: Stream, f: Fields, tail: Stream, cal: Calendar)
    requires PredicateFits(n.pred) && Lawful(cal) && all == FieldsTokens(ContentFields(n, cal)) + tail
    ensures ParseFields(all, f, 1, cal)
         == if Shallow(n) then ParseFields(tail, WithContent(f, n), 1, cal) else Err(DepthLimitExceeded)
  {
    hide TokensOf, PredicateLexemes, ValidityLexemes, ProvenanceLexemes, ParseFields, PredicateFits, Lawful,
      FieldsTokens;
    var fs := ContentFields(n, cal);
    var f1 := f.(pred := Some(NamedPredicate(n.pred)));
    var t2: Stream := [Keyword("src")] + (TokensOf(fs[2].block) + tail);
    var t1: Stream := [Keyword("valid")] + (TokensOf(fs[1].block) + t2);
    ContentTokens(n, tail, cal);
    PredFieldReadBack(n, f, t1, cal);
    ValidityField(n.validity, f1, t2, cal);
    ProvenanceField(n.provenance, f1.(validity := n.validity), t2, tail, cal);
  }

  lemma ValidityField(v: Validity, f: Fields, tail: Stream, cal: Calendar)
    requires Lawful(cal)
    ensures ParseFields([Keyword("valid")] + (TokensOf(ValidityLexemes(v, cal)) + tail), f, 1, cal)
         == ParseFields(tail, f.(validity := v), 1, cal)
  {
    ValidityReadBack(v, tail, cal);
    hide TokensOf, ValidityLexemes, ParseFields, ParseValidity, Lawful;
    FieldStep(Field("valid", ValidityLexemes(v, cal)), tail, f, f.(validity := v), 1, cal);
  }

  lemma ProvenanceField(p: Provenance, f: Fields, all: Stream, tail: Stream, cal: Calendar)
    requires all == [Keyword("src")] + (TokensOf(ProvenanceLexemes(p)) + tail)
    ensures ParseFields(all, f, 1, cal) == ParseFields(tail, f.(provenance := p), 1, cal)
  {
    hide *;
    var value: Stream := TokensOf(ProvenanceLexemes(p)) + tail;
    ProvenanceReadBack(p, value, tail);
    SourceField(p, value, tail, f, cal);
    FieldStep(Field("src", ProvenanceLexemes(p)), tail, f, f.(provenance := p), 1, cal);
  }

  lemma SourceField(p: Provenance, value: Stream, tail: Stream, f: Fields, cal: Calendar)
    requires ParseProvenance(value) == Ok((p, tail))
    ensures ParseField("src", value, f, 1, cal) == Ok((f.(provenance := p), tail))
  {
    hide ParseProvenance;
  }

  lemma ThreeFieldsTokens(f: Field, g: Field, h: Field, rest: seq<Token>)
    ensures FieldsTokens([f, g, h]) + rest
         == [Keyword(f.key)] + (TokensOf(f.block)
            + ([Keyword(g.key)] + (TokensOf(g.block) + ([Keyword(h.key)] + (TokensOf(h.block) + rest)))))
  {
    hide *;
    FieldsTokensCons(f, [g, h], rest);
    FieldsTokensCons(g, [h], rest);
    FieldsTokensCons(h, [], rest);
    NoFields(rest);
    assert [f] + [g, h] == [f, g, h] && [g] + [h] == [g, h] && [h] + [] == [h];
  }

  lemma ContentTokens(n: Node, rest: seq<Token>, cal: Calendar)
    ensures FieldsTokens(ContentFields(n, cal)) + rest
         == [Keyword("pred")] + (TokensOf(ContentFields(n, cal)[0].block)
            + ([Keyword("valid")] + (TokensOf(ContentFields(n, cal)[1].block)
               + ([Keyword("src")] + (TokensOf(ContentFields(n, cal)[2].block) + rest)))))
  {
    var fs := ContentFields(n, cal);
    ThreeFieldsTokens(fs[0], fs[1], fs[2], rest);
    hide TokensOf, FieldsTokens, PredicateLexemes, ValidityLexemes, ProvenanceLexemes;
  }

  lemma WeightTokens(n: Node, rest: seq<Token>)
    ensures FieldsTokens(WeightFields(n)) + rest
         == [Keyword("conf")] + (TokensOf(WeightFields(n)[0].block)
            + ([Keyword("auth")] + (TokensOf(WeightFields(n)[1].block)
               + ([Keyword("perm")] + (TokensOf(WeightFields(n)[2].block) + rest)))))
  {
    var fs := WeightFields(n);
    ThreeFieldsTokens(fs[0], fs[1], fs[2], rest);
    hide TokensOf, FieldsTokens, ScoreText, PermissionText, Spelled;
  }

  lemma ScoreField(key: Text, score: Score, f: Fields, tail: Stream, cal: Calendar)
    requires key == "conf" || key == "auth"
    requires score.Normal() && score.InUnit()
    ensures ParseFields([Keyword(key)] + (TokensOf([Spelled(Number(ScoreText(score)))]) + tail), f, 1, cal)
         == ParseFields(tail, if key == "conf" then f.(confidence := score) else f.(authority := score), 1, cal)
  {
    hide *;
    var ls := [Spelled(Number(ScoreText(score)))];
    ScoreReadBack(score, tail);
    ScoreFieldOf(key, TokensOf(ls) + tail, score, f, tail, cal);
    FieldStep(Field(key, ls), tail, f, if key == "conf" then f.(confidence := score) else f.(authority := score), 1,
              cal);
  }

  lemma ScoreFieldOf(key: Text, ts: Stream, score: Score, f: Fields, tail: Stream, cal: Calendar)
    requires key == "conf" || key == "auth"
    requires ParseUnitScore(ts) == Ok((score, tail))
    ensures ParseField(key, ts, f, 1, cal)
         == Ok((if key == "conf" then f.(confidence := score) else f.(authority := score), tail))
  {
    hide ParseUnitScore, ParseForm, ParseValidity, ParseProvenance, ParsePermission, ParseIdList;
  }

  lemma PermissionField(tag: bv32, f: Fields, tail: Stream, cal: Calendar)
    requires PermissionFits(tag)
    ensures ParseFields([Keyword("perm")] + (TokensOf([Spelled(Symbol(PermissionText(tag)))]) + tail), f, 1, cal)
         == ParseFields(tail, f.(permissions := tag), 1, cal)
  {
    PermissionReadBack(tag, tail);
    var field := Field("perm", [Spelled(Symbol(PermissionText(tag)))]);
    hide TokensOf, Spelled, ParseFields, ParsePermission, PermissionText;
    FieldStep(field, tail, f, f.(permissions := tag), 1, cal);
  }

  lemma WeightsReadBack(n: Node, f: Fields, tail: Stream, cal: Calendar)
    requires n.confidence.Normal() && n.confidence.InUnit() && n.authority.Normal() && n.authority.InUnit()
    requires PermissionFits(n.permissions)
    ensures ParseFields(FieldsTokens(WeightFields(n)) + tail, f, 1, cal) == ParseFields(tail, WithWeights(f, n), 1, cal)
  {
    hide TokensOf, Spelled, ParseFields, FieldsTokens, ScoreText, PermissionText, PermissionFits, Pow10;
    var fs := WeightFields(n);
    var f1 := f.(confidence := n.confidence);
    var f2 := f1.(authority := n.authority);
    var t2: Stream := [Keyword("perm")] + (TokensOf(fs[2].block) + tail);
    var t1: Stream := [Keyword("auth")] + (TokensOf(fs[1].block) + t2);
    WeightTokens(n, tail);
    ScoreField("conf", n.confidence, f, t1, cal);
    ScoreField("auth", n.authority, f1, t2, cal);
    PermissionField(n.permissions, f2, tail, cal);
  }

  lemma DepsFieldReadBack(n: Node, f: Fields, tail: Stream, cal: Calendar)
    requires f.deps == []
    ensures ParseFields(FieldsTokens(DepsField(n)) + tail, f, 1, cal) == ParseFields(tail, f.(deps := n.deps), 1, cal)
  {
    hide TokensOf, ParseFields, FieldsTokens, ParseIdList, DepsLexemes;
    if n.deps == [] {
      NoFields(tail);
    } else {
      var field := Field("deps", DepsLexemes(n.deps));
      DepsReadBack(n.deps, tail);
      FieldsTokensCons(field, [], tail);
      NoFields(tail);
      assert [field] + [] == [field];
      FieldStep(field, tail, f, f.(deps := n.deps), 1, cal);
    }
  }

  lemma NoteFieldReadBack(n: Node, f: Fields, tail: Stream, cal: Calendar)
    requires f.note == None
    ensures ParseFields(FieldsTokens(NoteField(n)) + tail, f, 1, cal) == ParseFields(tail, f.(note := n.note), 1, cal)
  {
    if n.note.None? {
      NoFields(tail);
    } else {
      var quoted := Spelled(QuotedText(n.note.value));
      var field := Field("note", [quoted]);
      TokensOfShort(quoted, quoted);
      hide TokensOf, ParseFields, FieldsTokens, Advance, Escape;
      AdvanceCons(QuotedText(n.note.value), tail);
      FieldsTokensCons(field, [], tail);
      NoFields(tail);
      assert [field] + [] == [field];
      FieldStep(field, tail, f, f.(note := n.note), 1, cal);
    }
  }

  /** The fields of a node read back from their tokens. */
  function FieldsRead(n: Node): Fields {
    Fields(
      Some(NamedPredicate(n.pred)), n.validity, n.provenance, n.confidence, n.authority, n.permissions, n.deps, n.note)
  }

  lemma {:induction false} FieldsTokensConcat(a: seq<Field>, b: seq<Field>)
    ensures FieldsTokens(a + b) == FieldsTokens(a) + FieldsTokens(b)
  {
    hide *;
    if a == [] {
      NoFields(FieldsTokens(b));
      assert a + b == b;
    } else {
      var f, tail := a[0], a[1..];
      assert a == [f] + tail && a + b == [f] + (tail + b);
      FieldsTokensConcat(tail, b);
      FieldsTokensCons(f, tail, FieldsTokens(b));
      FieldsTokensCons(f, tail + b, []);
      assert FieldsTokens(a + b) + [] == FieldsTokens(a + b);
      assert FieldsTokens(tail + b) + [] == FieldsTokens(tail + b);
    }
  }

  lemma FieldsOfTokens(n: Node, rest: seq<Token>, cal: Calendar)
    ensures FieldsTokens(FieldsOf(n, cal)) + rest
         == FieldsTokens(ContentFields(n, cal))
            + (FieldsTokens(WeightFields(n)) + (FieldsTokens(DepsField(n)) + (FieldsTokens(NoteField(n)) + rest)))
  {
    var c, w, d, o := ContentFields(n, cal), WeightFields(n), DepsField(n), NoteField(n);
    hide *;
    FieldsOfParts(n, cal);
    FieldsTokensConcat(c + w + d, o);
    FieldsTokensConcat(c + w, d);
    FieldsTokensConcat(c, w);
    var tc, tw, td, to := FieldsTokens(c), FieldsTokens(w), FieldsTokens(d), FieldsTokens(o);
    assert tc + tw + td + to + rest == tc + (tw + (td + (to + rest)));
  }

  lemma FieldsReadBack(n: Node, all: Stream, close: Stream, cal: Calendar)
    requires NodeFits(n) && Lawful(cal)
    requires close[0] == RParen && all == FieldsTokens(FieldsOf(n, cal)) + close
    ensures ParseFields(all, DEFAULT_FIELDS, 1, cal) == Outcome(Shallow(n), FieldsRead(n), close)
  {
    hide *;
    FitsParts(n);
    var o: Stream := FieldsTokens(NoteField(n)) + close;
    var d: Stream := FieldsTokens(DepsField(n)) + o;
    var w: Stream := FieldsTokens(WeightFields(n)) + d;
    FieldsOfTokens(n, close, cal);
    assert all == FieldsTokens(ContentFields(n, cal)) + w;
    ContentReadBack(n, all, DEFAULT_FIELDS, w, cal);
    OutcomeOf(Shallow(n), FieldsRead(n), close);
    LaterFieldsReadBack(n, w, d, o, close, cal);
  }

  /** The fields after the content: `w` are the tokens left from the weights on, and so on. */
  lemma LaterFieldsReadBack(n: Node, w: Stream, d: Stream, o: Stream, close: Stream, cal: Calendar)
    requires n.confidence.Normal() && n.confidence.InUnit() && n.authority.Normal() && n.authority.InUnit()
    requires PermissionFits(n.permissions) && close[0] == RParen
    requires w == FieldsTokens(WeightFields(n)) + d && d == FieldsTokens(DepsField(n)) + o
    requires o == FieldsTokens(NoteField(n)) + close
    ensures ParseFields(w, WithContent(DEFAULT_FIELDS, n), 1, cal) == Ok((FieldsRead(n), close))
  {
    hide *;
    var f1 := WithContent(DEFAULT_FIELDS, n);
    var f2 := WithWeights(f1, n);
    var f3 := f2.(deps := n.deps);
    FieldsFilled(n);
    WeightsReadBack(n, f1, d, cal);
    DepsFieldReadBack(n, f2, o, cal);
    NoteFieldReadBack(n, f3, close, cal);
    FieldsDone(close, FieldsRead(n), cal);
  }

  lemma OutcomeOf<T>(fits: bool, value: T, rest: Stream)
    ensures Outcome(fits, value, rest) == if fits then Ok((value, rest)) else Err(DepthLimitExceeded)
  {
  }

  lemma FitsParts(n: Node)
    requires NodeFits(n)
    ensures n.confidence.Normal() && n.confidence.InUnit() && n.authority.Normal() && n.authority.InUnit()
    ensures PermissionFits(n.permissions) && PredicateFits(n.pred)
  {
  }

  lemma FieldsFilled(n: Node)
    ensures var f2 := WithWeights(WithContent(DEFAULT_FIELDS, n), n);
            f2.deps == [] && f2.note == None && f2.(deps := n.deps).(note := n.note) == FieldsRead(n)
  {
    hide NamedPredicate;
  }

  lemma FieldsDone(close: Stream, f: Fields, cal: Calendar)
    requires close[0] == RParen
    ensures ParseFields(close, f, 1, cal) == Ok((f, close))
  {
  }

  // ----- whole texts -----

  lemma NodeTokens(n: Node, rest: seq<Token>, cal: Calendar)
    ensures TokensOf(NodeLexemes(n, cal)) + rest
         == [LParen] + ([Symbol("node")] + ([Symbol(n.id)] + (FieldsTokens(FieldsOf(n, cal)) + ([RParen] + rest))))
  {
    var header, close := NodeHeader(n.id), Spelled(RParen);
    HeaderTokens(n.id, FieldsTokens(FieldsOf(n, cal)) + ([RParen] + rest));
    TokensOfShort(close, close);
    assert close.token == RParen;
    NodeLexemesOf(n, cal);
    hide *;
    AppendFieldsTokens(header, FieldsOf(n, cal));
    TokensOfConcat(AppendFields(header, FieldsOf(n, cal)), [close]);
    var h, f := TokensOf(header), FieldsTokens(FieldsOf(n, cal));
    Associated(h + f, [RParen], rest);
    Associated(h, f, [RParen] + rest);
  }

  lemma NodeLexemesOf(n: Node, cal: Calendar)
    ensures NodeLexemes(n, cal) == AppendFields(NodeHeader(n.id), FieldsOf(n, cal)) + [Spelled(RParen)]
  {
  }

  lemma HeaderTokens(id: Text, rest: seq<Token>)
    ensures TokensOf(NodeHeader(id)) + rest == [LParen] + ([Symbol("node")] + ([Symbol(id)] + rest))
  {
    TokensOfThree(Spelled(LParen), Spelled(Symbol("node")), Spelled(Symbol(id)), rest);
    hide TokensOf;
  }

  lemma NodeStep(id: Text, all: Stream, inner: Stream, fits: bool, n: Node, close: Stream, rest: Stream, cal: Calendar)
    requires ParseFields(inner, DEFAULT_FIELDS, 1, cal) == Outcome(fits, FieldsRead(n), close) && n.id == id
    requires close == [RParen] + rest && all == [LParen] + ([Symbol("node")] + ([Symbol(id)] + inner))
    ensures ParseNode(all, 0, cal) == Outcome(fits, Carried(n), rest)
  {
    hide Advance, ParseFields, NamedPredicate;
    AdvanceCons(Symbol(id), inner);
    AdvanceCons(Symbol("node"), [Symbol(id)] + inner);
    AdvanceCons(LParen, [Symbol("node")] + ([Symbol(id)] + inner));
    AdvanceCons(RParen, rest);
  }

  lemma NodeReadBack(n: Node, all: Stream, rest: Stream, cal: Calendar)
    requires NodeFits(n) && Lawful(cal) && all == TokensOf(NodeLexemes(n, cal)) + rest
    ensures ParseNode(all, 0, cal) == Outcome(Shallow(n), Carried(n), rest)
  {
    hide *;
    var close: Stream := [RParen] + rest;
    var inner: Stream := FieldsTokens(FieldsOf(n, cal)) + close;
    NodeTokens(n, rest, cal);
    FieldsReadBack(n, inner, close, cal);
    NodeStep(n.id, all, inner, Shallow(n), n, close, rest, cal);
  }

  lemma OneNode(ts: Stream, fits: bool, n: Node, cal: Calendar)
    requires AtNode(ts) && ParseNode(ts, 0, cal) == Outcome(fits, n, [Eof])
    ensures ParseNodes(ts, cal) == if fits then Ok([n]) else Err(DepthLimitExceeded)
  {
    hide ParseNode;
    assert ParseNodes([Eof], cal) == Ok([]);
    assert [n] + [] == [n];
  }

  lemma NodeAt(n: Node, cal: Calendar)
    ensures AtNode(TokensOf(NodeLexemes(n, cal)) + [Eof])
  {
    hide TokensOf, NodeLexemes, FieldsTokens, FieldsOf;
    NodeTokens(n, [Eof], cal);
  }

  /** What the lexer and the token guard make of a rendered text. */
  lemma SourceTokens(ls: seq<Lexeme>)
    requires AllWellSpelled(ls) && |ls| < MAX_TOKENS
    ensures TokensOfSource(Render(ls)) == Ok(TokensOf(ls) + [Eof])
  {
    hide LexFrom, TokensOf, Render, AllWellSpelled;
    LexRender(ls, 0);
  }

  /** The number of tokens in a node's canonical text. */
  function TokenCount(n: Node, cal: Calendar): nat {
    |NodeLexemes(n, cal)|
  }

  /** What parsing the canonical text of a node that fits returns, for every such node: beyond the token limit the
      lexer's or the parser's token error, for terms nested too deeply the depth error, and otherwise exactly that
      node, its note included. */
  lemma NodeRoundTrip(n: Node, cal: Calendar)
    requires NodeFits(n) && Lawful(cal)
    ensures Parse(NodeText(n, cal), cal)
         == if TokenCount(n, cal) > MAX_TOKENS then Err(LexFailed(LexError.TooManyTokens))
            else if TokenCount(n, cal) == MAX_TOKENS then Err(TokenLimit)
            else if Shallow(n) then Ok([Carried(n)])
            else Err(DepthLimitExceeded)
  {
    hide *;
    TokenCountIs(n, cal);
    NodeSpelled(n, cal);
    NodeRender(n, cal);
    if TokenCount(n, cal) >= MAX_TOKENS {
      BeyondTokenLimit(NodeLexemes(n, cal), NodeText(n, cal), cal);
    } else {
      SourceTokens(NodeLexemes(n, cal));
      var all: Stream := TokensOf(NodeLexemes(n, cal)) + [Eof];
      NodeReadBack(n, all, [Eof], cal);
      NodeAt(n, cal);
      OneNode(all, Shallow(n), Carried(n), cal);
      ParsesSource(NodeText(n, cal), all, cal);
    }
  }

  lemma BeyondTokenLimit(ls: seq<Lexeme>, src: Text, cal: Calendar)
    requires AllWellSpelled(ls) && |ls| >= MAX_TOKENS && src == Render(ls)
    ensures |ls| > MAX_TOKENS ==> Parse(src, cal) == Err(LexFailed(LexError.TooManyTokens))
    ensures |ls| == MAX_TOKENS ==> Parse(src, cal) == Err(TokenLimit)
  {
    assert MAX_TOKENS > 0;
    hide LexFrom, Render, AllWellSpelled, TokensOf, ParseNodes, MAX_TOKENS;
    if |ls| > MAX_TOKENS {
      LexTooMany(ls, "", "", 0);
      assert "" + (Render(ls) + "") == Render(ls);
    } else {
      LexRender(ls, 0);
      assert |TokensOf(ls) + [Eof]| == |ls| + 1;
    }
  }

  lemma TokenCountIs(n: Node, cal: Calendar)
    ensures TokenCount(n, cal) == |NodeLexemes(n, cal)|
  {
    hide NodeLexemes;
  }

  lemma ParsesSource(src: Text, all: Stream, cal: Calendar)
    requires TokensOfSource(src) == Ok(all)
    ensures Parse(src, cal) == ParseNodes(all, cal)
  {
    hide TokensOfSource, ParseNodes;
  }

  /** `parse_predicate` on the canonical text of a predicate. */
  lemma PredicateRoundTrip(p: Predicate, cal: Calendar)
    requires PredicateFits(p) && Lawful(cal) && |PredicateLexemes(p, cal)| < MAX_TOKENS
    ensures ParsePredicate(PredicateText(p, cal), cal)
         == if 1 + PredicateNesting(p) <= MAX_PARSE_DEPTH then Ok(NamedPredicate(p)) else Err(DepthLimitExceeded)
  {
    assert 1 <= MAX_PARSE_DEPTH;
    hide *;
    PredicateSourceTokens(p, cal);
    BodyReadBack(p, [Eof], 1, cal);
    PredicateSource(PredicateText(p, cal), BodyTokens(p, cal), 1 + PredicateNesting(p) <= MAX_PARSE_DEPTH,
                    NamedPredicate(p), cal);
  }

  /** The tokens of a whole predicate text after its opening parenthesis. */
  function BodyTokens(p: Predicate, cal: Calendar): (ts: Stream)
    ensures ts == [Symbol(HeadText(p.head))]
                  + (ArgsTokens(p.args, cal) + (NamedTokens(p.named, cal) + ([RParen] + [Eof])))
  {
    var close: Stream := [RParen] + [Eof];
    var named: Stream := NamedTokens(p.named, cal) + close;
    var args: Stream := ArgsTokens(p.args, cal) + named;
    [Symbol(HeadText(p.head))] + args
  }

  lemma PredicateSourceTokens(p: Predicate, cal: Calendar)
    requires PredicateFits(p) && Lawful(cal) && |PredicateLexemes(p, cal)| < MAX_TOKENS
    ensures TokensOfSource(PredicateText(p, cal)) == Ok([LParen] + BodyTokens(p, cal))
  {
    hide *;
    PredicateSpelled(p, cal);
    PredicateRender(p, cal);
    SourceTokens(PredicateLexemes(p, cal));
    PredicateTokensForm(p, cal, [Eof]);
    PredicateTokensOf(p, cal);
  }

  lemma PredicateTokensOf(p: Predicate, cal: Calendar)
    ensures PredicateTokens(p, cal) == TokensOf(PredicateLexemes(p, cal))
  {
  }

  lemma PredicateSource(src: Text, body: Stream, fits: bool, p: Predicate, cal: Calendar)
    requires TokensOfSource(src) == Ok([LParen] + body)
    requires ParseBody(body, 1, cal) == Outcome(fits, p, [RParen] + [Eof])
    ensures ParsePredicate(src, cal) == if fits then Ok(p) else Err(DepthLimitExceeded)
  {
    hide TokensOfSource, ParseBody, Expect;
    ExpectCons(LParen, body);
    ExpectCons(RParen, [Eof]);
  }

  // ----- the canonical text as a signature -----

  lemma {:induction false} NamedTermText(t: Term, cal: Calendar)
    ensures TermText(NamedTerm(t), cal) == TermText(t, cal)
    decreases t, 1
  {
    match t
    case Compound(pred) => NamedPredicateText(pred, cal);
    case List(items) => NamedArgsText(items, cal);
    case _ =>
  }

  lemma {:induction false} NamedArgsText(args: seq<Term>, cal: Calendar)
    ensures ArgsText(NamedTerms(args), cal) == ArgsText(args, cal)
    ensures ItemsText(NamedTerms(args), cal) == ItemsText(args, cal)
    decreases args, 0
  {
    if args != [] {
      NamedTermText(args[0], cal);
      NamedArgsText(args[1..], cal);
      NamedTermsUnfold(args);
      hide TermText, NamedTerm, NamedTerms;
    }
  }

  lemma NamedTermsUnfold(args: seq<Term>)
    requires args != []
    ensures NamedTerms(args) == [NamedTerm(args[0])] + NamedTerms(args[1..])
    ensures NamedTerms(args)[0] == NamedTerm(args[0]) && NamedTerms(args)[1..] == NamedTerms(args[1..])
  {
  }

  lemma NamedValuesUnfold(named: seq<NamedArg>)
    requires named != []
    ensures NamedValues(named) == [NamedArg(named[0].key, NamedTerm(named[0].value))] + NamedValues(named[1..])
    ensures NamedValues(named)[0] == NamedArg(named[0].key, NamedTerm(named[0].value))
    ensures NamedValues(named)[1..] == NamedValues(named[1..])
  {
  }

  lemma {:induction false} NamedValuesText(named: seq<NamedArg>, cal: Calendar)
    ensures NamedText(NamedValues(named), cal) == NamedText(named, cal)
    decreases named, 0
  {
    if named != [] {
      NamedTermText(named[0].value, cal);
      NamedValuesText(named[1..], cal);
      NamedValuesUnfold(named);
      hide TermText, NamedTerm, NamedValues;
    }
  }

  lemma {:induction false} NamedPredicateText(p: Predicate, cal: Calendar)
    ensures PredicateText(NamedPredicate(p), cal) == PredicateText(p, cal)
    decreases p, 1
  {
    NamedArgsText(p.args, cal);
    NamedValuesText(p.named, cal);
    hide ArgsText, NamedText, NamedTerms, NamedValues;
  }

  /** The tokens after the opening parenthesis, lexed and parsed with limits wide enough for `p`. */
  lemma WideReadBack(p: Predicate, cal: Calendar)
    requires PredicateFits(p) && Lawful(cal)
    ensures forall count | count + |PredicateLexemes(p, cal)| <= MAX_TOKENS ::
            LexFrom(PredicateText(p, cal), count) == Ok([LParen] + BodyTokens(p, cal))
    ensures forall depth | depth + PredicateNesting(p) <= MAX_PARSE_DEPTH ::
            ParseBody(BodyTokens(p, cal), depth, cal) == Ok((NamedPredicate(p), [RParen] + [Eof]))
  {
    hide *;
    PredicateSpelled(p, cal);
    PredicateRender(p, cal);
    PredicateTokensForm(p, cal, [Eof]);
    PredicateTokensOf(p, cal);
    forall count | count + |PredicateLexemes(p, cal)| <= MAX_TOKENS
      ensures LexFrom(PredicateText(p, cal), count) == Ok([LParen] + BodyTokens(p, cal))
    {
      LexRender(PredicateLexemes(p, cal), count);
    }
    forall depth | depth + PredicateNesting(p) <= MAX_PARSE_DEPTH
      ensures ParseBody(BodyTokens(p, cal), depth, cal) == Ok((NamedPredicate(p), [RParen] + [Eof]))
    {
      BodyReadBack(p, [Eof], depth, cal);
      OutcomeOf(true, NamedPredicate(p), [RParen] + [Eof]);
    }
  }

  /** Two predicates that fit have the same canonical text exactly when they are the same predicate up to
      writing a resolved head `Id(n)` as the name `M<n>`; without resolved heads the text decides equality.
      No token or depth limit is involved. */
  lemma SameTextSamePredicate(p: Predicate, q: Predicate, cal: Calendar)
    requires PredicateFits(p) && PredicateFits(q) && Lawful(cal)
    ensures PredicateText(p, cal) == PredicateText(q, cal) <==> NamedPredicate(p) == NamedPredicate(q)
  {
    hide *;
    if NamedPredicate(p) == NamedPredicate(q) {
      NamedPredicateText(p, cal);
      NamedPredicateText(q, cal);
    }
    if PredicateText(p, cal) == PredicateText(q, cal) {
      WideReadBack(p, cal);
      WideReadBack(q, cal);
      var count := MAX_TOKENS - |PredicateLexemes(p, cal)| - |PredicateLexemes(q, cal)|;
      assert LexFrom(PredicateText(p, cal), count) == LexFrom(PredicateText(q, cal), count);
      SameTail(BodyTokens(p, cal), BodyTokens(q, cal));
      var depth := MAX_PARSE_DEPTH - PredicateNesting(p) - PredicateNesting(q);
      assert ParseBody(BodyTokens(p, cal), depth, cal) == ParseBody(BodyTokens(q, cal), depth, cal);
    }
  }

  lemma SameTail(a: seq<Token>, b: seq<Token>)
    ensures [LParen] + a == [LParen] + b ==> a == b
  {
    assert ([LParen] + a)[1..] == a && ([LParen] + b)[1..] == b;
  }

  // ----- predicates whose heads are all names -----

  predicate TermHeadsNamed(t: Term) {
    match t
    case Compound(pred) => HeadsNamed(pred)
    case List(items) => ArgsHeadsNamed(items)
    case _ => true
  }

  predicate ArgsHeadsNamed(args: seq<Term>) {
    args == [] || (TermHeadsNamed(args[0]) && ArgsHeadsNamed(args[1..]))
  }

  predicate ValuesHeadsNamed(named: seq<NamedArg>) {
    named == [] || (TermHeadsNamed(named[0].value) && ValuesHeadsNamed(named[1..]))
  }

  /** No head in the predicate is a resolved index: what every parsed predicate looks like. */
  predicate HeadsNamed(p: Predicate) {
    p.head.Name? && ArgsHeadsNamed(p.args) && ValuesHeadsNamed(p.named)
  }

  lemma {:induction false} TermAlreadyNamed(t: Term)
    ensures TermHeadsNamed(t) <==> NamedTerm(t) == t
    decreases t, 1
  {
    match t
    case Compound(pred) => AlreadyNamed(pred);
    case List(items) => ArgsAlreadyNamed(items);
    case _ =>
  }

  lemma ConsEqual<T>(a: T, b: T, s: seq<T>, t: seq<T>)
    ensures [a] + s == [b] + t <==> a == b && s == t
  {
    if [a] + s == [b] + t {
      assert ([a] + s)[0] == a && ([b] + t)[0] == b;
      assert ([a] + s)[1..] == s && ([b] + t)[1..] == t;
    }
  }

  lemma {:induction false} ArgsAlreadyNamed(args: seq<Term>)
    ensures ArgsHeadsNamed(args) <==> NamedTerms(args) == args
    decreases args, 0
  {
    if args != [] {
      TermAlreadyNamed(args[0]);
      ArgsAlreadyNamed(args[1..]);
      hide NamedTerm, TermHeadsNamed;
      ConsEqual(NamedTerm(args[0]), args[0], NamedTerms(args[1..]), args[1..]);
      assert args == [args[0]] + args[1..];
    }
  }

  lemma {:induction false} ValuesAlreadyNamed(named: seq<NamedArg>)
    ensures ValuesHeadsNamed(named) <==> NamedValues(named) == named
    decreases named, 0
  {
    if named != [] {
      TermAlreadyNamed(named[0].value);
      ValuesAlreadyNamed(named[1..]);
      hide NamedTerm, TermHeadsNamed;
      ConsEqual(NamedArg(named[0].key, NamedTerm(named[0].value)), named[0], NamedValues(named[1..]), named[1..]);
      assert named == [named[0]] + named[1..];
    }
  }

  lemma {:induction false} AlreadyNamed(p: Predicate)
    ensures HeadsNamed(p) <==> NamedPredicate(p) == p
    decreases p, 1
  {
    ArgsAlreadyNamed(p.args);
    ValuesAlreadyNamed(p.named);
    hide NamedTerms, NamedValues, ArgsHeadsNamed, ValuesHeadsNamed;
  }

  /** Grouping by signature is grouping by equality, for the predicates a parser can have produced. */
  lemma SignatureDecidesEquality(p: Predicate, q: Predicate, cal: Calendar)
    requires PredicateFits(p) && PredicateFits(q) && HeadsNamed(p) && HeadsNamed(q) && Lawful(cal)
    ensures PredicateText(p, cal) == PredicateText(q, cal) <==> p == q
  {
    hide *;
    SameTextSamePredicate(p, q, cal);
    AlreadyNamed(p);
    AlreadyNamed(q);
  }
}
