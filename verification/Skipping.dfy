/** What `skip_sexp` of `factum-core/src/parser.rs` skips. It counts brackets of both kinds up but only those of the
    starting kind down, so a form that holds a bracket of the other kind does not end at its own closing bracket. */
module Skipping {
  import opened Types
  import opened Decimal
  import opened Lexer
  import opened Serialize
  import opened Grammar
  import opened Lexemes
  import opened Printing
  import opened NodePrinting
  import opened Parsing
  import opened RoundTrip
  import opened Sources

  predicate IsOpen(t: Token) {
    t == LParen || t == LBracket
  }

  function Partner(open: Token): Token {
    if open == LParen then RParen else RBracket
  }

  /** Well-bracketed tokens that also close the brackets of `stack`, innermost first. */
  predicate Nested(ts: seq<Token>, stack: seq<Token>) {
    if ts == [] then stack == []
    else if ts[0] == Eof then false
    else if IsOpen(ts[0]) then Nested(ts[1..], [ts[0]] + stack)
    else if ts[0] == RParen || ts[0] == RBracket then
      stack != [] && IsOpen(stack[0]) && ts[0] == Partner(stack[0]) && Nested(ts[1..], stack[1..])
    else Nested(ts[1..], stack)
  }

  /** The brackets that `close` closes. */
  function Own(stack: seq<Token>, close: Token): nat {
    if stack == [] then 0 else (if Partner(stack[0]) == close then 1 else 0) + Own(stack[1..], close)
  }

  /** How many brackets of the other kind are opened. */
  function Others(ts: seq<Token>, close: Token): nat {
    if ts == [] then 0 else (if IsOpen(ts[0]) && Partner(ts[0]) != close then 1 else 0) + Others(ts[1..], close)
  }

  /** The brackets still open after a token, outermost last. */
  function Pushed(t: Token, stack: seq<Token>): seq<Token> {
    if IsOpen(t) then [t] + stack
    else if (t == RParen || t == RBracket) && stack != [] then stack[1..]
    else stack
  }

  /** The program's count after a token. */
  function Counted(t: Token, open: int, close: Token): int {
    if IsOpen(t) then open + 1 else if t == close then open - 1 else open
  }

  lemma SkipOne(ts: Stream, rest: Stream, open: nat, close: Token)
    requires open > 0 && ts[0] != Eof && ts[1..] == rest
    ensures SkipOpen(ts, open, close) == SkipOpen(rest, Counted(ts[0], open, close), close)
  {
  }

  lemma NestedStep(ts: seq<Token>, stack: seq<Token>, close: Token)
    requires Nested(ts, stack) && (close == RParen || close == RBracket)
    ensures ts == [] ==> Others(ts, close) == 0 && Own(stack, close) == 0
    ensures ts != [] ==>
              && ts[0] != Eof && Nested(ts[1..], Pushed(ts[0], stack))
              && Counted(ts[0], Own(stack, close), close) + Others(ts[1..], close)
                 == Others(ts, close) + Own(Pushed(ts[0], stack), close)
              && Counted(ts[0], Own(stack, close), close) >= Own(Pushed(ts[0], stack), close)
  {
    if ts != [] && IsOpen(ts[0]) {
      assert ([ts[0]] + stack)[1..] == stack;
    }
  }

  /** After well-bracketed tokens the count is up by the brackets of the other kind. */
  lemma {:induction false} SkipNested(
      ts: seq<Token>, stack: seq<Token>, all: Stream, after: Stream, open: nat, close: Token)
    requires Nested(ts, stack) && all == ts + after && (close == RParen || close == RBracket)
    requires open >= 1 + Own(stack, close)
    ensures SkipOpen(all, open, close) == SkipOpen(after, open + Others(ts, close) - Own(stack, close), close)
    decreases |ts|
  {
    hide *;
    NestedStep(ts, stack, close);
    if ts == [] {
      assert all == after;
    } else {
      var rest: Stream := ts[1..] + after;
      assert all[0] == ts[0] && all[1..] == rest;
      CountedMore(ts[0], open, Own(stack, close), close);
      SkipOne(all, rest, open, close);
      SkipNested(ts[1..], Pushed(ts[0], stack), rest, after, Counted(ts[0], open, close), close);
    }
  }

  lemma CountedMore(t: Token, open: int, own: int, close: Token)
    ensures Counted(t, open, close) == open - own + Counted(t, own, close)
  {
  }

  /** What is skipped of a bracketed form: up to its own closing bracket if it holds no bracket of the other kind, and
      otherwise as many more closing brackets of its own kind as it holds of those. */
  lemma SkipForm(open: Token, inner: seq<Token>, all: Stream, after: Stream)
    requires IsOpen(open) && Nested(inner, []) && all == [open] + inner + [Partner(open)] + after
    ensures SkipSexp(all) == SkipOpen(after, Others(inner, Partner(open)), Partner(open))
  {
    hide *;
    var close: Stream := [Partner(open)] + after;
    var rest: Stream := inner + close;
    assert all[0] == open && all[1..] == rest;
    assert close[0] == Partner(open) && close[1..] == after;
    PartnerCloses(open, Others(inner, Partner(open)));
    SkipStarts(all, rest);
    SkipNested(inner, [], rest, close, 1, Partner(open));
    SkipOne(close, after, 1 + Others(inner, Partner(open)), Partner(open));
  }

  lemma PartnerCloses(open: Token, others: nat)
    requires IsOpen(open)
    ensures Partner(open) == RParen || Partner(open) == RBracket
    ensures Own([], Partner(open)) == 0 && Counted(Partner(open), 1 + others, Partner(open)) == others
  {
  }

  lemma SkipStarts(all: Stream, rest: Stream)
    requires IsOpen(all[0]) && all[1..] == rest
    ensures SkipSexp(all) == SkipOpen(rest, 1, Partner(all[0]))
  {
    hide SkipOpen;
  }

  /** Skipping a balanced form stops right after its own closing bracket if and only if it holds no bracket of the other
      kind, or nothing follows. */
  lemma SkipStopsIff(open: Token, inner: seq<Token>, all: Stream, after: Stream)
    requires IsOpen(open) && Nested(inner, []) && all == [open] + inner + [Partner(open)] + after
    ensures SkipSexp(all) == after <==> Others(inner, Partner(open)) == 0 || after[0] == Eof
  {
    hide Nested, Others;
    SkipForm(open, inner, all, after);
    hide SkipSexp;
    if Others(inner, Partner(open)) > 0 && after[0] != Eof {
      SkipMoves(after, Others(inner, Partner(open)), Partner(open));
    }
  }

  lemma SkipMoves(ts: Stream, open: nat, close: Token)
    requires open > 0 && ts[0] != Eof
    ensures |SkipOpen(ts, open, close)| < |ts|
  {
    hide Advance;
    AdvanceLess(ts);
  }

  lemma AdvanceLess(ts: Stream)
    requires ts[0] != Eof
    ensures |Advance(ts)| < |ts|
  {
  }

  lemma SkipEnd(open: nat, close: Token)
    ensures SkipOpen([Eof], open, close) == [Eof]
  {
  }

  /** Such a form swallows whatever well-bracketed tokens follow it. */
  lemma SkipSwallows(open: Token, inner: seq<Token>, all: Stream, body: seq<Token>)
    requires IsOpen(open) && Nested(inner, []) && all == [open] + inner + [Partner(open)] + (body + [Eof])
    requires Nested(body, []) && Others(inner, Partner(open)) > 0
    ensures SkipSexp(all) == [Eof]
  {
    hide *;
    var after: Stream := body + [Eof];
    SkipForm(open, inner, all, after);
    PartnerCloses(open, Others(body, Partner(open)));
    SkipNested(body, [], after, [Eof], Others(inner, Partner(open)), Partner(open));
    SkipEnd(Others(inner, Partner(open)) + Others(body, Partner(open)), Partner(open));
  }

  /** An unknown form at the top level of a well-bracketed file: without a list in it parsing goes on after it, with one
      everything that follows is lost without an error. */
  lemma UnknownForm(inner: seq<Token>, all: Stream, body: seq<Token>, cal: Calendar)
    requires Nested(inner, []) && (inner != [] ==> inner[0] != Symbol("node")) && Nested(body, [])
    requires all == [LParen] + inner + [RParen] + (body + [Eof])
    ensures ParseNodes(all, cal) == if Others(inner, RParen) == 0 then ParseNodes(body + [Eof], cal) else Ok([])
  {
    hide Nested, Others;
    UnknownSkipped(inner, all, body + [Eof], cal);
    if Others(inner, RParen) > 0 {
      SkipSwallows(LParen, inner, all, body);
      hide ParseNodes, SkipSexp;
      NothingLeft(cal);
    } else {
      SkipStopsIff(LParen, inner, all, body + [Eof]);
    }
  }

  lemma NothingLeft(cal: Calendar)
    ensures ParseNodes([Eof], cal) == Ok([])
  {
  }

  lemma UnknownSkipped(inner: seq<Token>, all: Stream, after: Stream, cal: Calendar)
    requires inner != [] ==> inner[0] != Symbol("node")
    requires all == [LParen] + inner + [RParen] + after
    ensures ParseNodes(all, cal) == ParseNodes(SkipSexp(all), cal)
  {
    hide SkipSexp;
    assert all[0] == LParen && all[1] == if inner == [] then RParen else inner[0];
    assert !AtNode(all);
  }

  // ----- canonical text is well bracketed -----

  lemma {:induction false} NestedRun(a: seq<Token>, stack: seq<Token>, b: seq<Token>, below: seq<Token>)
    requires Nested(a, stack)
    ensures Nested(a + b, stack + below) == Nested(b, below)
    decreases |a|
  {
    if a == [] {
      assert a + b == b && stack + below == below;
    } else {
      hide Partner;
      assert (a + b)[0] == a[0] && (a + b)[1..] == a[1..] + b;
      NestedRun(a[1..], Pushed(a[0], stack), b, below);
      PushedBelow(a[0], stack, below);
    }
  }

  lemma PushedBelow(t: Token, stack: seq<Token>, below: seq<Token>)
    ensures [t] + stack + below == [t] + (stack + below)
    ensures stack != [] ==> (stack + below)[0] == stack[0] && (stack + below)[1..] == stack[1..] + below
  {
  }

  predicate Balanced(ls: seq<Lexeme>) {
    Nested(TokensOf(ls), [])
  }

  predicate IsLeaf(t: Token) {
    t != Eof && !IsOpen(t) && t != RParen && t != RBracket
  }

  lemma BalancedNothing()
    ensures Balanced([])
  {
  }

  lemma BalancedLeaf(l: Lexeme)
    requires IsLeaf(l.token)
    ensures Balanced([l])
  {
    assert TokensOf([l]) == [l.token];
    assert Nested([l.token][1..], []);
  }

  lemma BalancedConcat(a: seq<Lexeme>, b: seq<Lexeme>)
    requires Balanced(a) && Balanced(b)
    ensures Balanced(a + b)
  {
    hide Nested, TokensOf;
    TokensOfConcat(a, b);
    var none: seq<Token> := [];
    NestedRun(TokensOf(a), none, TokensOf(b), none);
    assert none + none == none;
  }

  lemma NestedForm(open: Token, inner: seq<Token>, rest: seq<Token>)
    requires IsOpen(open) && Nested(inner, []) && Nested(rest, [])
    ensures Nested([open] + (inner + ([Partner(open)] + rest)), [])
  {
    var after := [Partner(open)] + rest;
    NestedRun(inner, [], after, [open]);
    assert [] + [open] == [open] && [open] + [] == [open] && [open][1..] == [];
    assert after[0] == Partner(open) && after[1..] == rest;
    assert Nested(after, [open]);
    var all := [open] + (inner + after);
    assert all[0] == open && all[1..] == inner + after;
  }

  lemma BalancedForm(open: Lexeme, inner: seq<Lexeme>, close: Lexeme)
    requires IsOpen(open.token) && Balanced(inner) && close.token == Partner(open.token)
    ensures Balanced([open] + inner + [close])
  {
    assert Nested([], []);
    TokensOfShort(open, open);
    TokensOfShort(close, close);
    hide Nested, TokensOf;
    TokensOfConcat([open] + inner, [close]);
    TokensOfConcat([open], inner);
    NestedForm(open.token, TokensOf(inner), []);
    FormTokens(open.token, TokensOf(inner), close.token);
  }

  lemma FormTokens(open: Token, inner: seq<Token>, close: Token)
    ensures [open] + inner + [close] == [open] + (inner + ([close] + []))
  {
  }

  // terms and predicates

  lemma LeafTerm(t: Term, cal: Calendar)
    requires !t.Compound? && !t.List?
    ensures Balanced(TermLexemes(t, cal))
  {
    match t
    case Var(name) => BalancedLeaf(Spelled(Variable(name)));
    case Ent(entity) => BalancedLeaf(Spelled(EntityName(entity)));
    case Lit(lit) =>
      LiteralLeaf(lit, cal);
      BalancedLeaf(Spelled(LiteralToken(lit, cal)));
  }

  lemma LiteralLeaf(lit: Literal, cal: Calendar)
    ensures IsLeaf(LiteralToken(lit, cal))
  {
  }

  lemma {:induction false} TermBalanced(t: Term, cal: Calendar)
    ensures Balanced(TermLexemes(t, cal))
  {
    hide Balanced;
    match t
    case Compound(pred) => PredicateBalanced(pred, cal);
    case List(items) =>
      ArgsBalanced(items, cal);
      BalancedForm(Spelled(LBracket), ArgsLexemes(items, cal), Spelled(RBracket));
    case _ => LeafTerm(t, cal);
  }

  lemma {:induction false} ArgsBalanced(args: seq<Term>, cal: Calendar)
    ensures Balanced(ArgsLexemes(args, cal))
  {
    hide Balanced;
    BalancedNothing();
    if args != [] {
      TermBalanced(args[0], cal);
      ArgsBalanced(args[1..], cal);
      BalancedConcat(TermLexemes(args[0], cal), ArgsLexemes(args[1..], cal));
    }
  }

  lemma {:induction false} NamedBalanced(named: seq<NamedArg>, cal: Calendar)
    ensures Balanced(NamedLexemes(named, cal))
  {
    hide Balanced;
    BalancedNothing();
    if named != [] {
      var key := [Spelled(Keyword(named[0].key))];
      BalancedLeaf(key[0]);
      TermBalanced(named[0].value, cal);
      NamedBalanced(named[1..], cal);
      BalancedConcat(key, TermLexemes(named[0].value, cal));
      BalancedConcat(key + TermLexemes(named[0].value, cal), NamedLexemes(named[1..], cal));
    }
  }

  lemma {:induction false} PredicateBalanced(p: Predicate, cal: Calendar)
    ensures Balanced(PredicateLexemes(p, cal))
  {
    hide Balanced, Spelled;
    var head, args, named := [Spelled(Symbol(HeadText(p.head)))], ArgsLexemes(p.args, cal), NamedLexemes(p.named, cal);
    SpelledTokens(Symbol(HeadText(p.head)));
    BalancedLeaf(head[0]);
    ArgsBalanced(p.args, cal);
    NamedBalanced(p.named, cal);
    BalancedConcat(head, args);
    BalancedConcat(head + args, named);
    SpelledTokens(LParen);
    SpelledTokens(RParen);
    BalancedForm(Spelled(LParen), head + args + named, Spelled(RParen));
    LexemesAssociate(Spelled(LParen), head, args, named);
  }

  lemma SpelledTokens(t: Token)
    ensures Spelled(t).token == t
  {
  }

  lemma LexemesAssociate(open: Lexeme, head: seq<Lexeme>, args: seq<Lexeme>, named: seq<Lexeme>)
    requires |head| == 1
    ensures [open] + (head + args + named) == [open, head[0]] + args + named
  {
  }

  // nodes

  lemma BalancedTwo(a: Lexeme, b: Lexeme)
    requires IsLeaf(a.token) && IsLeaf(b.token)
    ensures Balanced([a, b])
  {
    hide Balanced;
    BalancedLeaf(a);
    BalancedLeaf(b);
    BalancedConcat([a], [b]);
    assert [a] + [b] == [a, b];
  }

  lemma BalancedPair(open: Token, a: Lexeme, b: Lexeme, close: Token)
    requires IsOpen(open) && IsLeaf(a.token) && IsLeaf(b.token) && close == Partner(open)
    ensures Balanced([Spelled(open), a, b, Spelled(close)])
  {
    hide Balanced, Spelled;
    SpelledTokens(open);
    SpelledTokens(close);
    BalancedTwo(a, b);
    BalancedForm(Spelled(open), [a, b], Spelled(close));
    assert [Spelled(open)] + [a, b] + [Spelled(close)] == [Spelled(open), a, b, Spelled(close)];
  }

  lemma TaggedBalanced(tag: Text, item: Lexeme, more: seq<Lexeme>)
    requires IsLeaf(item.token) && Balanced(more)
    ensures Balanced(TaggedLexemes(tag, item) + more + [Spelled(RParen)])
  {
    hide Balanced, Spelled;
    var word := Spelled(Symbol(tag));
    SpelledTokens(Symbol(tag));
    SpelledTokens(LParen);
    SpelledTokens(RParen);
    BalancedTwo(word, item);
    BalancedConcat([word, item], more);
    BalancedForm(Spelled(LParen), [word, item] + more, Spelled(RParen));
    assert [Spelled(LParen)] + ([word, item] + more) == TaggedLexemes(tag, item) + more;
  }

  lemma ValidityBalanced(v: Validity, cal: Calendar)
    ensures Balanced(ValidityLexemes(v, cal))
  {
    hide Balanced;
    match v
    case Forever => BalancedLeaf(Spelled(Symbol("forever")));
    case Window(from, until) =>
      BalancedNothing();
      if until.Some? {
        BalancedLeaf(RawQuoted(cal.showTime(until.value)));
      }
      TaggedBalanced("window", RawQuoted(cal.showTime(from)),
                     if until.Some? then [RawQuoted(cal.showTime(until.value))] else []);
  }

  lemma SpanBalanced(span: Span)
    ensures Balanced(SpanLexemes(span))
  {
    hide Balanced;
    BalancedPair(LBracket, Spelled(Number(NatText(span.start))), Spelled(Number(NatText(span.end))), RBracket);
  }

  lemma ModelBalanced(model: Text, version: Text)
    ensures Balanced(ModelLexemes(model, version))
  {
    hide Balanced;
    BalancedLeaf(RawQuoted(version));
    TaggedBalanced("model", RawQuoted(model), [RawQuoted(version)]);
    assert TaggedLexemes("model", RawQuoted(model)) + [RawQuoted(version)] + [Spelled(RParen)]
        == ModelLexemes(model, version);
  }

  lemma ProvenanceBalanced(p: Provenance)
    ensures Balanced(ProvenanceLexemes(p))
  {
    hide Balanced, TaggedLexemes, SpanLexemes, ModelLexemes;
    match p
    case Verbatim(doc, span) =>
      SpanBalanced(span);
      TaggedBalanced("verbatim", RawQuoted(doc), SpanLexemes(span));
    case Summary(doc, span) =>
      SpanBalanced(span);
      TaggedBalanced("summary", RawQuoted(doc), SpanLexemes(span));
    case Extracted(doc, span, model, version) =>
      SpanBalanced(span);
      ModelBalanced(model, version);
      BalancedConcat(SpanLexemes(span), ModelLexemes(model, version));
      TaggedBalanced("extracted", RawQuoted(doc), SpanLexemes(span) + ModelLexemes(model, version));
      MoreAssociates(TaggedLexemes("extracted", RawQuoted(doc)), SpanLexemes(span), ModelLexemes(model, version));
    case Derived(from, rule) =>
      BalancedLeaf(RawQuoted(rule));
      TaggedBalanced("derived", Spelled(Symbol(from)), [RawQuoted(rule)]);
    case Asserted(principal) =>
      BalancedNothing();
      TaggedBalanced("asserted", RawQuoted(principal), []);
      NothingMore(TaggedLexemes("asserted", RawQuoted(principal)));
  }

  lemma MoreAssociates(a: seq<Lexeme>, b: seq<Lexeme>, c: seq<Lexeme>)
    ensures a + (b + c) == a + b + c
  {
  }

  lemma NothingMore(a: seq<Lexeme>)
    ensures a + [] == a
  {
  }

  lemma {:induction false} IdsBalanced(ids: seq<Text>)
    ensures Balanced(IdsLexemes(ids))
  {
    hide Balanced;
    BalancedNothing();
    if ids != [] {
      BalancedLeaf(Spelled(Symbol(ids[0])));
      IdsBalanced(ids[1..]);
      BalancedConcat([Spelled(Symbol(ids[0]))], IdsLexemes(ids[1..]));
    }
  }

  lemma DepsBalanced(deps: seq<Text>)
    ensures Balanced(DepsLexemes(deps))
  {
    hide Balanced;
    IdsBalanced(deps);
    BalancedForm(Spelled(LBracket), IdsLexemes(deps), Spelled(RBracket));
  }

  predicate BalancedBlocks(fs: seq<Field>) {
    forall i :: 0 <= i < |fs| ==> Balanced(fs[i].block)
  }

  lemma ContentBalanced(n: Node, cal: Calendar)
    ensures BalancedBlocks(ContentFields(n, cal))
  {
    hide Balanced, PredicateLexemes, ValidityLexemes, ProvenanceLexemes;
    PredicateBalanced(n.pred, cal);
    ValidityBalanced(n.validity, cal);
    ProvenanceBalanced(n.provenance);
  }

  lemma OthersBalanced(n: Node)
    ensures BalancedBlocks(WeightFields(n)) && BalancedBlocks(DepsField(n)) && BalancedBlocks(NoteField(n))
  {
    hide Balanced, DepsLexemes;
    BalancedLeaf(Spelled(Number(ScoreText(n.confidence))));
    BalancedLeaf(Spelled(Number(ScoreText(n.authority))));
    BalancedLeaf(Spelled(Symbol(PermissionText(n.permissions))));
    if n.note.Some? {
      BalancedLeaf(Spelled(QuotedText(n.note.value)));
    }
    DepsBalanced(n.deps);
  }

  lemma FieldsBalanced(n: Node, cal: Calendar)
    ensures BalancedBlocks(FieldsOf(n, cal))
  {
    ContentBalanced(n, cal);
    OthersBalanced(n);
    hide Balanced, ContentFields, WeightFields, DepsField, NoteField;
  }

  lemma {:induction false} FieldsNested(fs: seq<Field>, rest: seq<Token>, below: seq<Token>)
    requires BalancedBlocks(fs)
    ensures Nested(FieldsTokens(fs) + rest, below) == Nested(rest, below)
  {
    hide *;
    if fs == [] {
      NoFields(rest);
    } else {
      BlocksCons(fs);
      KeywordIsLeaf(fs[0].key);
      assert fs == [fs[0]] + fs[1..];
      FieldsTokensCons(fs[0], fs[1..], rest);
      var tail := FieldsTokens(fs[1..]) + rest;
      LeafNested(Keyword(fs[0].key), TokensOf(fs[0].block) + tail, below);
      BalancedRun(fs[0].block, tail, below);
      FieldsNested(fs[1..], rest, below);
    }
  }

  lemma BlocksCons(fs: seq<Field>)
    requires BalancedBlocks(fs) && fs != []
    ensures Balanced(fs[0].block) && BalancedBlocks(fs[1..])
  {
    hide Balanced;
  }

  lemma BalancedRun(ls: seq<Lexeme>, rest: seq<Token>, below: seq<Token>)
    requires Balanced(ls)
    ensures Nested(TokensOf(ls) + rest, below) == Nested(rest, below)
  {
    hide Nested, TokensOf;
    NestedRun(TokensOf(ls), [], rest, below);
    assert [] + below == below;
  }

  lemma LeafNested(t: Token, rest: seq<Token>, below: seq<Token>)
    requires IsLeaf(t)
    ensures Nested([t] + rest, below) == Nested(rest, below)
  {
    assert ([t] + rest)[1..] == rest;
  }

  lemma KeywordIsLeaf(key: Text)
    ensures IsLeaf(Keyword(key)) && IsLeaf(Symbol(key))
  {
  }

  lemma FormNested(inner: seq<Token>, rest: seq<Token>, below: seq<Token>)
    ensures Nested([LParen] + inner, below) == Nested(inner, [LParen] + below)
    ensures Nested([RParen] + rest, [LParen] + below) == Nested(rest, below)
  {
    assert ([LParen] + inner)[1..] == inner;
    assert ([RParen] + rest)[1..] == rest && ([LParen] + below)[1..] == below;
  }

  lemma NodeNested(n: Node, rest: seq<Token>, cal: Calendar)
    ensures Nested(TokensOf(NodeLexemes(n, cal)) + rest, []) == Nested(rest, [])
  {
    hide *;
    var close := [RParen] + rest;
    var fields := FieldsTokens(FieldsOf(n, cal)) + close;
    NodeTokens(n, rest, cal);
    FieldsBalanced(n, cal);
    KeywordIsLeaf("node");
    KeywordIsLeaf(n.id);
    FormNested([Symbol("node")] + ([Symbol(n.id)] + fields), rest, []);
    LeafNested(Symbol("node"), [Symbol(n.id)] + fields, [LParen] + []);
    LeafNested(Symbol(n.id), fields, [LParen] + []);
    FieldsNested(FieldsOf(n, cal), close, [LParen] + []);
  }

  /** The tokens of any number of nodes are well bracketed. */
  lemma {:induction false} AllNested(nodes: seq<Node>, cal: Calendar)
    ensures Nested(AllTokens(nodes, cal), [])
  {
    if nodes != [] {
      AllNested(nodes[1..], cal);
      hide Nested, TokensOf, NodeLexemes;
      NodeNested(nodes[0], AllTokens(nodes[1..], cal), cal);
    }
  }

  // ----- a file with an unknown form before its nodes -----

  /** A bracketed form that is not a node. */
  ghost predicate IsUnknown(form: seq<Lexeme>, inner: seq<Token>) {
    && AllWellSpelled(form) && form != [] && TokensOf(form) == [LParen] + inner + [RParen] && Nested(inner, [])
    && (inner != [] ==> inner[0] != Symbol("node"))
  }

  /** An unknown form on the first line of a file of nodes is harmless without a list in it, and loses every node
      after it, without an error, with one. */
  lemma UnknownFormInFile(form: seq<Lexeme>, inner: seq<Token>, nodes: seq<Node>, cal: Calendar)
    requires IsUnknown(form, inner) && AllFit(nodes) && Lawful(cal)
    requires |form| + |AllTokens(nodes, cal)| < MAX_TOKENS
    ensures Parse(Render(form) + ("\n" + AllText(nodes, cal)), cal)
         == if Others(inner, RParen) == 0 then Parse(AllText(nodes, cal), cal) else Ok([])
  {
    hide *;
    UnknownFacts(form, inner);
    var body := AllTokens(nodes, cal);
    var all: Stream := TokensOf(form) + (body + [Eof]);
    var src := Render(form) + ("\n" + AllText(nodes, cal));
    AllNested(nodes, cal);
    LexAllNodes(nodes, |form|, cal);
    LexAllNodes(nodes, 0, cal);
    LineBreak(AllText(nodes, cal), |form|);
    LexThen(form, "", "\n" + AllText(nodes, cal), 0);
    assert "" + src == src;
    PrefixedMore(TokensOf(form), body);
    Associated(TokensOf(form), body, [Eof]);
    ParseLexed(src, all, cal);
    ParseLexed(AllText(nodes, cal), body + [Eof], cal);
    UnknownForm(inner, all, body, cal);
  }

  lemma UnknownFacts(form: seq<Lexeme>, inner: seq<Token>)
    requires IsUnknown(form, inner)
    ensures AllWellSpelled(form) && form != [] && TokensOf(form) == [LParen] + inner + [RParen] && Nested(inner, [])
    ensures inner != [] ==> inner[0] != Symbol("node")
  {
  }

  /** `(x [])` is such a form. */
  lemma ListLosesNodes(nodes: seq<Node>, cal: Calendar)
    requires AllFit(nodes) && Lawful(cal) && |AllTokens(nodes, cal)| < MAX_TOKENS - 5
    ensures Parse("(x [])" + ("\n" + AllText(nodes, cal)), cal) == Ok([])
  {
    var form := [Spelled(LParen), Spelled(Symbol("x")), Spelled(LBracket), Spelled(RBracket), Spelled(RParen)];
    ListForm(form);
    hide *;
    UnknownFormInFile(form, [Symbol("x"), LBracket, RBracket], nodes, cal);
  }

  lemma ListForm(form: seq<Lexeme>)
    requires form == [Spelled(LParen), Spelled(Symbol("x")), Spelled(LBracket), Spelled(RBracket), Spelled(RParen)]
    ensures IsUnknown(form, [Symbol("x"), LBracket, RBracket]) && Render(form) == "(x [])"
    ensures Others([Symbol("x"), LBracket, RBracket], RParen) == 1
  {
    LettersAreSymbols("x");
    BracketsSpelled();
    SymbolSpelled("x");
    hide WellSpelled;
    var inner := [Symbol("x"), LBracket, RBracket];
    var none: seq<Token> := [];
    NestedForm(LBracket, none, none);
    assert [LBracket] + (none + ([Partner(LBracket)] + none)) == [LBracket, RBracket];
    assert inner == [Symbol("x")] + [LBracket, RBracket];
    LeafNested(Symbol("x"), [LBracket, RBracket], none);
    assert [LParen] + inner + [RParen] == [LParen, Symbol("x"), LBracket, RBracket, RParen];
    ListSpelling(form);
  }

  lemma ListSpelling(form: seq<Lexeme>)
    requires form == [Spelled(LParen), Spelled(Symbol("x")), Spelled(LBracket), Spelled(RBracket), Spelled(RParen)]
    ensures Render(form) == "(x [])" && TokensOf(form) == [LParen, Symbol("x"), LBracket, RBracket, RParen]
  {
    assert form[1..][1..] == form[2..] && form[2..][1..] == form[3..] && form[3..][1..] == form[4..];
    assert form[4..][1..] == [];
    assert Render(form[4..]) == ")" && Render(form[3..]) == "])" && Render(form[2..]) == "[])";
    assert TokensOf(form[4..]) == [RParen] && TokensOf(form[3..]) == [RBracket, RParen];
    assert TokensOf(form[2..]) == [LBracket, RBracket, RParen];
  }
}
