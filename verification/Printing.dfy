/** The canonical text of a node is a rendering of well-spelled tokens. */
module Printing {
  import opened Types
  import opened Decimal
  import opened Lexer
  import opened Serialize
  import opened Lexemes
  import Utf8

  /** The spelling the serializer gives a token. */
  function Spelling(token: Token): Text {
    match token
    case LParen => "("
    case RParen => ")"
    case LBracket => "["
    case RBracket => "]"
    case Symbol(s) => s
    case Variable(s) => "?" + s
    case Keyword(s) => ":" + s
    case QuotedText(s) => Quote(Escape(s))
    case Number(s) => s
    case DateText(s) => "#date(" + s + ")"
    case DurationText(s) => "#dur(" + s + ")"
    case Flag(b) => if b then "#t" else "#f"
    case UriText(s) => "<" + s + ">"
    case EntityName(s) => "@" + s
    case Eof => ""
  }

  function Spelled(token: Token): Lexeme {
    Lexeme(Spelling(token), token)
  }

  /** A string in quotes without escapes. */
  function RawQuoted(s: Text): Lexeme {
    Lexeme(Quote(s), QuotedText(s))
  }

  // ----- terms and predicates as spelled tokens -----

  function LiteralToken(lit: Literal, cal: Calendar): (token: Token)
    ensures token != Eof
  {
    match lit
    case Dec(mantissa, scale) => Number(DecText(mantissa, scale))
    case Str(s) => QuotedText(s)
    case Date(day) => DateText(cal.showDate(day))
    case Dur(nanos) => DurationText(NatText(nanos) + "ns")
    case Bool(b) => Flag(b)
    case Uri(u) => UriText(u)
  }

  function TermLexemes(t: Term, cal: Calendar): seq<Lexeme> {
    match t
    case Var(name) => [Spelled(Variable(name))]
    case Ent(entity) => [Spelled(EntityName(entity))]
    case Lit(lit) => [Spelled(LiteralToken(lit, cal))]
    case Compound(pred) => PredicateLexemes(pred, cal)
    case List(items) => [Spelled(LBracket)] + ArgsLexemes(items, cal) + [Spelled(RBracket)]
  }

  function ArgsLexemes(args: seq<Term>, cal: Calendar): seq<Lexeme> {
    if args == [] then [] else TermLexemes(args[0], cal) + ArgsLexemes(args[1..], cal)
  }

  function NamedLexemes(named: seq<NamedArg>, cal: Calendar): seq<Lexeme> {
    if named == [] then []
    else [Spelled(Keyword(named[0].key))] + TermLexemes(named[0].value, cal) + NamedLexemes(named[1..], cal)
  }

  function PredicateLexemes(p: Predicate, cal: Calendar): seq<Lexeme> {
    [Spelled(LParen), Spelled(Symbol(HeadText(p.head)))]
    + ArgsLexemes(p.args, cal) + NamedLexemes(p.named, cal) + [Spelled(RParen)]
  }

  // ----- well-formedness: what the text form can carry -----

  /** What is asked of the calendar library: it reads back what it shows, and shows it without a closing
      parenthesis in dates and without quotes or backslashes in instants. */
  ghost predicate Lawful(cal: Calendar) {
    && (forall day :: IsParenText(cal.showDate(day)) && cal.readDate(cal.showDate(day)) == Some(day))
    && (forall t: Instant :: IsPlain(cal.showTime(t)) && cal.readTime(cal.showTime(t)) == Some(t))
  }

  predicate LiteralFits(lit: Literal) {
    match lit
    case Dec(mantissa, scale) => mantissa != I128_MIN
    case Str(s) => Utf8.Valid(s)
    case Date(day) => true
    case Dur(nanos) => nanos < U64_LIMIT
    case Bool(b) => true
    case Uri(u) => IsUri(u)
  }

  predicate TermFits(t: Term) {
    match t
    case Var(name) => IsName(name)
    case Ent(entity) => IsEntityName(entity)
    case Lit(lit) => LiteralFits(lit)
    case Compound(pred) => PredicateFits(pred)
    case List(items) => ArgsFit(items)
  }

  predicate ArgsFit(args: seq<Term>) {
    args == [] || (TermFits(args[0]) && ArgsFit(args[1..]))
  }

  predicate NamedFit(named: seq<NamedArg>) {
    named == [] || (IsName(named[0].key) && TermFits(named[0].value) && NamedFit(named[1..]))
  }

  /** Heads are symbols; `M<n>` of a resolved head always is one. */
  predicate PredicateFits(p: Predicate) {
    (p.head.Name? ==> IsSymbol(p.head.name)) && ArgsFit(p.args) && NamedFit(p.named)
  }

  // ----- spelling -----

  lemma {:induction false} DigitsAreAscii(s: Text)
    requires AllDigits(s)
    ensures Utf8.Valid(s)
  {
    if s != [] {
      DigitsAreAscii(s[1..]);
    }
  }

  lemma {:induction false} DigitRunAll(s: Text)
    requires AllDigits(s)
    ensures DigitRun(s) == |s|
  {
    if s != [] {
      DigitRunAll(s[1..]);
    }
  }

  lemma PointTextIsNumber(s: Text, whole: Text, frac: Text)
    requires IsPointText(s, whole, frac)
    ensures IsNumber(s) && IsNumber("-" + s)
  {
    PointTextRuns(s, whole, frac);
    var neg := "-" + s;
    assert neg[1..] == s && neg[1] == s[0];
    assert s[0..] == s;
    if frac != [] {
      assert neg[1 + |whole| + 1..] == s[|whole| + 1..];
    }
  }

  lemma PointTextRuns(s: Text, whole: Text, frac: Text)
    requires IsPointText(s, whole, frac)
    ensures IsDigit(s[0]) && DigitRun(s) == |whole|
    ensures if frac == [] then |whole| == |s|
            else |whole| < |s| && s[|whole|] == '.' && DigitRun(s[|whole| + 1..]) == |s| - |whole| - 1
  {
    assert s[0] == whole[0];
    DigitRunAll(whole);
    if frac == [] {
    } else {
      DigitRunFollowed(whole, "." + frac);
      assert s == whole + ("." + frac);
      assert s[|whole| + 1..] == frac;
      DigitRunAll(frac);
    }
  }

  lemma DecTextIsNumber(mantissa: int, scale: nat)
    ensures IsNumber(DecText(mantissa, scale))
  {
    hide PointText, PointParts, IsNumber;
    PointPartsText(Abs(mantissa), scale);
    var (whole, frac) := PointParts(Abs(mantissa), scale);
    PointTextIsNumber(PointText(Abs(mantissa), scale), whole, frac);
  }

  lemma IdHeadIsSymbol(n: nat)
    ensures IsSymbol("M" + NatText(n))
  {
    var s := "M" + NatText(n);
    DigitsAreAscii(NatText(n));
    assert s[1..] == NatText(n);
  }

  lemma LiteralSpelled(lit: Literal, cal: Calendar)
    requires LiteralFits(lit) && Lawful(cal)
    ensures WellSpelled(Spelled(LiteralToken(lit, cal)))
  {
    match lit
    case Dec(mantissa, scale) => DecTextIsNumber(mantissa, scale);
    case _ =>
  }

  lemma {:induction false} TermSpelled(t: Term, cal: Calendar)
    requires TermFits(t) && Lawful(cal)
    ensures AllWellSpelled(TermLexemes(t, cal))
  {
    match t
    case Var(_) =>
    case Ent(_) =>
    case Lit(lit) =>
      hide WellSpelled;
      LiteralSpelled(lit, cal);
    case Compound(pred) => PredicateSpelled(pred, cal);
    case List(items) => ArgsSpelled(items, cal);
  }

  lemma {:induction false} ArgsSpelled(args: seq<Term>, cal: Calendar)
    requires ArgsFit(args) && Lawful(cal)
    ensures AllWellSpelled(ArgsLexemes(args, cal))
  {
    hide WellSpelled, Lawful;
    if args != [] {
      TermSpelled(args[0], cal);
      ArgsSpelled(args[1..], cal);
    }
  }

  lemma {:induction false} NamedSpelled(named: seq<NamedArg>, cal: Calendar)
    requires NamedFit(named) && Lawful(cal)
    ensures AllWellSpelled(NamedLexemes(named, cal))
  {
    if named != [] {
      assert WellSpelled(Spelled(Keyword(named[0].key)));
      hide WellSpelled, Lawful;
      TermSpelled(named[0].value, cal);
      NamedSpelled(named[1..], cal);
    }
  }

  lemma FormSpelled(p: Predicate)
    requires PredicateFits(p)
    ensures WellSpelled(Spelled(LParen)) && WellSpelled(Spelled(RParen))
    ensures WellSpelled(Spelled(Symbol(HeadText(p.head))))
    ensures ArgsFit(p.args) && NamedFit(p.named)
  {
    if p.head.Id? {
      IdHeadIsSymbol(p.head.index);
    }
    hide ArgsFit, NamedFit, NatText;
  }

  lemma {:induction false} PredicateSpelled(p: Predicate, cal: Calendar)
    requires PredicateFits(p) && Lawful(cal)
    ensures AllWellSpelled(PredicateLexemes(p, cal))
  {
    hide WellSpelled, Lawful, Spelled, HeadText, ArgsLexemes, NamedLexemes, PredicateFits;
    FormSpelled(p);
    ArgsSpelled(p.args, cal);
    NamedSpelled(p.named, cal);
  }

  // ----- the text of a term is its rendering -----

  /** Neither starts with a closing bracket nor ends with an opening one. */
  predicate IsBlock(ls: seq<Lexeme>) {
    ls != [] && !Closes(ls[0]) && !Opens(ls[|ls| - 1])
  }

  lemma AppendBlock(pre: seq<Lexeme>, block: seq<Lexeme>)
    requires pre != [] && IsBlock(block)
    ensures Render(pre + block) == Render(pre) + (if Opens(pre[|pre| - 1]) then "" else " ") + Render(block)
    ensures !Opens((pre + block)[|pre + block| - 1])
  {
    hide Render;
    RenderConcat(pre, block);
  }

  lemma AppendClose(pre: seq<Lexeme>, close: Lexeme)
    requires pre != [] && Closes(close)
    ensures Render(pre + [close]) == Render(pre) + close.text
  {
    hide Render;
    RenderConcat(pre, [close]);
    RenderOne(close);
  }

  lemma {:induction false} TermRender(t: Term, cal: Calendar)
    ensures IsBlock(TermLexemes(t, cal)) && Render(TermLexemes(t, cal)) == TermText(t, cal)
    decreases t, 1
  {
    match t
    case Var(_) =>
    case Ent(_) =>
    case Lit(lit) =>
      RenderOne(Spelled(LiteralToken(lit, cal)));
      hide Render;
    case Compound(pred) => PredicateRender(pred, cal);
    case List(items) => ItemsRender(items, cal);
  }

  lemma ArgsUnfold(args: seq<Term>, cal: Calendar)
    requires args != []
    ensures ArgsLexemes(args, cal) == TermLexemes(args[0], cal) + ArgsLexemes(args[1..], cal)
    ensures ArgsText(args, cal) == " " + TermText(args[0], cal) + ArgsText(args[1..], cal)
    ensures ItemsText(args, cal) == TermText(args[0], cal) + ArgsText(args[1..], cal)
  {
  }

  lemma ArgsNone(cal: Calendar)
    ensures ArgsLexemes([], cal) == [] && ArgsText([], cal) == [] && ItemsText([], cal) == []
    ensures NamedLexemes([], cal) == [] && NamedText([], cal) == []
  {
  }

  lemma {:induction false} ArgsRender(pre: seq<Lexeme>, args: seq<Term>, cal: Calendar)
    requires pre != [] && !Opens(pre[|pre| - 1])
    ensures var ls := pre + ArgsLexemes(args, cal);
            Render(ls) == Render(pre) + ArgsText(args, cal) && !Opens(ls[|ls| - 1])
    decreases args, 0
  {
    hide *;
    if args == [] {
      ArgsNone(cal);
      assert pre + [] == pre;
    } else {
      var first, more := TermLexemes(args[0], cal), ArgsLexemes(args[1..], cal);
      TermRender(args[0], cal);
      AppendBlock(pre, first);
      ArgsRender(pre + first, args[1..], cal);
      ArgsUnfold(args, cal);
      assert pre + (first + more) == pre + first + more;
    }
  }

  /** A keyword and the block after it. */
  lemma AppendKeyed(pre: seq<Lexeme>, key: Text, block: seq<Lexeme>)
    requires pre != [] && !Opens(pre[|pre| - 1]) && IsBlock(block)
    ensures var ls := pre + [Spelled(Keyword(key))] + block;
            Render(ls) == Render(pre) + " :" + key + " " + Render(block) && !Opens(ls[|ls| - 1])
  {
    var word := Spelled(Keyword(key));
    RenderOne(word);
    hide Render, IsBlock;
    AppendKey(pre, word);
    AppendBlock(pre + [word], block);
    var r := Render(pre);
    assert r + " " + (":" + key) == r + " :" + key;
  }

  lemma AppendKey(pre: seq<Lexeme>, word: Lexeme)
    requires pre != [] && !Opens(pre[|pre| - 1]) && word.token.Keyword?
    ensures Render(pre + [word]) == Render(pre) + " " + word.text
    ensures !Opens((pre + [word])[|pre|])
  {
    RenderOne(word);
    hide Render;
    RenderConcat(pre, [word]);
  }

  lemma NamedUnfold(named: seq<NamedArg>, cal: Calendar)
    requires named != []
    ensures NamedLexemes(named, cal)
         == [Spelled(Keyword(named[0].key))] + TermLexemes(named[0].value, cal) + NamedLexemes(named[1..], cal)
    ensures NamedText(named, cal)
         == " :" + named[0].key + " " + TermText(named[0].value, cal) + NamedText(named[1..], cal)
  {
  }

  lemma {:induction false} NamedRender(pre: seq<Lexeme>, named: seq<NamedArg>, cal: Calendar)
    requires pre != [] && !Opens(pre[|pre| - 1])
    ensures var ls := pre + NamedLexemes(named, cal);
            Render(ls) == Render(pre) + NamedText(named, cal) && !Opens(ls[|ls| - 1])
    decreases named, 0
  {
    hide *;
    if named == [] {
      ArgsNone(cal);
      assert pre + [] == pre;
    } else {
      var word, value := [Spelled(Keyword(named[0].key))], TermLexemes(named[0].value, cal);
      var more := NamedLexemes(named[1..], cal);
      TermRender(named[0].value, cal);
      AppendKeyed(pre, named[0].key, value);
      NamedRender(pre + word + value, named[1..], cal);
      NamedUnfold(named, cal);
      assert pre + (word + value + more) == pre + word + value + more;
    }
  }

  lemma {:induction false} ItemsRender(items: seq<Term>, cal: Calendar)
    ensures var ls := [Spelled(LBracket)] + ArgsLexemes(items, cal) + [Spelled(RBracket)];
            IsBlock(ls) && Render(ls) == "[" + ItemsText(items, cal) + "]"
    decreases items, 1
  {
    OpenItemsRender(items, cal);
    hide Render, ArgsLexemes, ItemsText;
    AppendClose([Spelled(LBracket)] + ArgsLexemes(items, cal), Spelled(RBracket));
  }

  lemma {:induction false} OpenItemsRender(items: seq<Term>, cal: Calendar)
    ensures Render([Spelled(LBracket)] + ArgsLexemes(items, cal)) == "[" + ItemsText(items, cal)
    decreases items, 0
  {
    hide *;
    var open := [Spelled(LBracket)];
    if items == [] {
      BracketRender();
      ArgsNone(cal);
      assert open + [] == open;
    } else {
      var first, more := TermLexemes(items[0], cal), ArgsLexemes(items[1..], cal);
      TermRender(items[0], cal);
      OpenFirst(first);
      ArgsRender(open + first, items[1..], cal);
      ArgsUnfold(items, cal);
      assert open + (first + more) == open + first + more;
    }
  }

  lemma BracketRender()
    ensures Render([Spelled(LBracket)]) == "["
  {
  }

  lemma OpenFirst(block: seq<Lexeme>)
    requires IsBlock(block)
    ensures var ls := [Spelled(LBracket)] + block; Render(ls) == "[" + Render(block) && !Opens(ls[|ls| - 1])
  {
    RenderOne(Spelled(LBracket));
    hide Render;
    AppendBlock([Spelled(LBracket)], block);
  }

  lemma {:induction false} PredicateRender(p: Predicate, cal: Calendar)
    ensures IsBlock(PredicateLexemes(p, cal)) && Render(PredicateLexemes(p, cal)) == PredicateText(p, cal)
    decreases p, 1
  {
    var open, head := Spelled(LParen), Spelled(Symbol(HeadText(p.head)));
    HeadRender(p.head);
    ArgsRender([open, head], p.args, cal);
    var pre := [open, head] + ArgsLexemes(p.args, cal);
    NamedRender(pre, p.named, cal);
    AppendClose(pre + NamedLexemes(p.named, cal), Spelled(RParen));
    hide Render, ArgsText, NamedText, ArgsLexemes, NamedLexemes;
  }

  lemma HeadRender(head: Head)
    ensures Render([Spelled(LParen), Spelled(Symbol(HeadText(head)))]) == "(" + HeadText(head)
  {
  }
}
