/** Parsing undoes the tokens of a term, a predicate and a node. */
module Parsing {
  import opened Types
  import opened Decimal
  import opened Lexer
  import opened Serialize
  import opened Grammar
  import opened Lexemes
  import opened Printing

  // ----- what the parser gives back -----

  /** Heads come back as names: a resolved head prints as `M<n>`. */
  function NamedHead(h: Head): Head {
    Name(HeadText(h))
  }

  function NamedPredicate(p: Predicate): Predicate {
    Predicate(NamedHead(p.head), NamedTerms(p.args), NamedValues(p.named))
  }

  function NamedTerm(t: Term): Term {
    match t
    case Compound(pred) => Compound(NamedPredicate(pred))
    case List(items) => List(NamedTerms(items))
    case _ => t
  }

  function NamedTerms(args: seq<Term>): seq<Term> {
    if args == [] then [] else [NamedTerm(args[0])] + NamedTerms(args[1..])
  }

  function NamedValues(named: seq<NamedArg>): seq<NamedArg> {
    if named == [] then []
    else [NamedArg(named[0].key, NamedTerm(named[0].value))] + NamedValues(named[1..])
  }

  // ----- nesting -----

  function Max(a: nat, b: nat): nat {
    if a < b then b else a
  }

  /** Levels of compounds and lists in a term. */
  function TermNesting(t: Term): nat {
    match t
    case Compound(pred) => 1 + PredicateNesting(pred)
    case List(items) => 1 + ArgsNesting(items)
    case _ => 0
  }

  function ArgsNesting(args: seq<Term>): nat {
    if args == [] then 0 else Max(TermNesting(args[0]), ArgsNesting(args[1..]))
  }

  function NamedNesting(named: seq<NamedArg>): nat {
    if named == [] then 0 else Max(TermNesting(named[0].value), NamedNesting(named[1..]))
  }

  function PredicateNesting(p: Predicate): nat {
    Max(ArgsNesting(p.args), NamedNesting(p.named))
  }

  // ----- tokens -----

  function TermTokens(t: Term, cal: Calendar): seq<Token> {
    TokensOf(TermLexemes(t, cal))
  }

  function ArgsTokens(args: seq<Term>, cal: Calendar): seq<Token> {
    TokensOf(ArgsLexemes(args, cal))
  }

  function NamedTokens(named: seq<NamedArg>, cal: Calendar): seq<Token> {
    TokensOf(NamedLexemes(named, cal))
  }

  function PredicateTokens(p: Predicate, cal: Calendar): seq<Token> {
    TokensOf(PredicateLexemes(p, cal))
  }

  lemma TokensOfShort(a: Lexeme, b: Lexeme)
    ensures TokensOf([a]) == [a.token] && TokensOf([a, b]) == [a.token, b.token]
  {
    assert [a][1..] == [] && [a, b][1..] == [b];
  }

  lemma FirstToken(ls: seq<Lexeme>)
    requires ls != []
    ensures TokensOf(ls) != [] && TokensOf(ls)[0] == ls[0].token
  {
  }

  lemma FirstLexeme(t: Term, cal: Calendar)
    ensures var ls := TermLexemes(t, cal);
            ls != [] && var first := ls[0].token;
            first != RParen && first != RBracket && first != Eof && !first.Keyword?
  {
    match t
    case Compound(_) =>
    case List(_) =>
    case _ =>
  }

  lemma TermTokensStart(t: Term, cal: Calendar)
    ensures var ts := TermTokens(t, cal);
            ts != [] && ts[0] != RParen && ts[0] != RBracket && ts[0] != Eof && !ts[0].Keyword?
  {
    FirstLexeme(t, cal);
    FirstToken(TermLexemes(t, cal));
    hide TokensOf, TermLexemes;
  }

  lemma ArgsTokensCons(args: seq<Term>, cal: Calendar, rest: seq<Token>)
    requires args != []
    ensures ArgsTokens(args, cal) + rest == TermTokens(args[0], cal) + (ArgsTokens(args[1..], cal) + rest)
  {
    TokensOfConcat(TermLexemes(args[0], cal), ArgsLexemes(args[1..], cal));
  }

  lemma NamedLexemesAre(named: seq<NamedArg>, cal: Calendar)
    requires named != []
    ensures NamedLexemes(named, cal)
         == [Spelled(Keyword(named[0].key))] + TermLexemes(named[0].value, cal) + NamedLexemes(named[1..], cal)
  {
    hide TermLexemes, Spelled;
  }

  lemma NamedAssociates(k: seq<Token>, v: seq<Token>, more: seq<Token>, rest: seq<Token>)
    ensures k + v + more + rest == k + (v + (more + rest))
  {
  }

  lemma NamedTokensCons(named: seq<NamedArg>, cal: Calendar, rest: seq<Token>)
    requires named != []
    ensures NamedTokens(named, cal) + rest
         == [Keyword(named[0].key)] + (TermTokens(named[0].value, cal) + (NamedTokens(named[1..], cal) + rest))
  {
    var key, value := Spelled(Keyword(named[0].key)), TermLexemes(named[0].value, cal);
    var more := NamedLexemes(named[1..], cal);
    NamedLexemesAre(named, cal);
    TokensOfShort(key, key);
    hide TokensOf, TermLexemes, NamedLexemes;
    TokensOfConcat([key] + value, more);
    TokensOfConcat([key], value);
    NamedAssociates(TokensOf([key]), TokensOf(value), TokensOf(more), rest);
  }

  lemma ListTokens(items: seq<Term>, cal: Calendar, rest: seq<Token>)
    ensures TermTokens(List(items), cal) + rest == [LBracket] + (ArgsTokens(items, cal) + ([RBracket] + rest))
  {
    var open, close := [Spelled(LBracket)], [Spelled(RBracket)];
    TokensOfShort(open[0], open[0]);
    TokensOfShort(close[0], close[0]);
    hide TokensOf;
    TokensOfConcat(open + ArgsLexemes(items, cal), close);
    TokensOfConcat(open, ArgsLexemes(items, cal));
  }

  lemma PredicateTokensForm(p: Predicate, cal: Calendar, rest: seq<Token>)
    ensures PredicateTokens(p, cal) + rest
         == [LParen] + ([Symbol(HeadText(p.head))]
            + (ArgsTokens(p.args, cal) + (NamedTokens(p.named, cal) + ([RParen] + rest))))
  {
    var open, close := [Spelled(LParen), Spelled(Symbol(HeadText(p.head)))], [Spelled(RParen)];
    var args, named := ArgsLexemes(p.args, cal), NamedLexemes(p.named, cal);
    TokensOfShort(open[0], open[1]);
    TokensOfShort(close[0], close[0]);
    hide TokensOf, ArgsLexemes, NamedLexemes, HeadText;
    TokensOfConcat(open + args + named, close);
    TokensOfConcat(open + args, named);
    TokensOfConcat(open, args);
    FormAssociates(LParen, Symbol(HeadText(p.head)), TokensOf(args), TokensOf(named), RParen, rest);
  }

  lemma FormAssociates(a: Token, b: Token, args: seq<Token>, named: seq<Token>, c: Token, rest: seq<Token>)
    ensures [a, b] + args + named + [c] + rest == [a] + ([b] + (args + (named + ([c] + rest))))
  {
  }

  // ----- leaves -----

  lemma DurationReadBack(nanos: nat)
    requires nanos < U64_LIMIT
    ensures ParseDuration(NatText(nanos) + "ns") == Some(nanos)
  {
    var digits := NatText(nanos);
    assert digits[0] != '+';
    hide NatText, DigitsValue;
    NsText(digits);
  }

  lemma NsText(digits: Text)
    requires digits != [] && AllDigits(digits)
    ensures Trim(digits + "ns") == digits + "ns" && StripNs(digits + "ns") == Some(digits)
  {
    var s := digits + "ns";
    assert s[0] == digits[0] && s[|s| - 1] == 's' && s[|s| - 2..] == "ns" && s[..|s| - 2] == digits;
  }

  lemma LiteralReadBack(lit: Literal, cal: Calendar)
    requires LiteralFits(lit) && Lawful(cal)
    ensures ParseLeaf(LiteralToken(lit, cal), cal) == Ok(Lit(lit))
  {
    hide DecText, DecFromStr, ParseDuration, NatText, IsUri;
    match lit
    case Dec(mantissa, scale) => DecRoundTrip(mantissa, scale);
    case Dur(nanos) => DurationReadBack(nanos);
    case _ =>
  }

  // ----- terms -----

  /** The outcome of parsing what `value` was printed to: the value, or the depth error. */
  function Outcome<T>(fits: bool, value: T, rest: Stream): Parsed<T> {
    if fits then Ok((value, rest)) else Err(DepthLimitExceeded)
  }

  /** A term's tokens parse back to the term exactly when its nesting fits under the depth limit;
      otherwise the parser answers with the depth error. */
  lemma {:induction false} TermReadBack(t: Term, rest: Stream, depth: int, cal: Calendar)
    requires TermFits(t) && Lawful(cal) && depth <= MAX_PARSE_DEPTH
    ensures ParseTerm(TermTokens(t, cal) + rest, depth, cal)
         == Outcome(depth + TermNesting(t) <= MAX_PARSE_DEPTH, NamedTerm(t), rest)
    decreases t, 1
  {
    match t
    case Var(name) => LeafReadBack(t, Variable(name), rest, depth, cal);
    case Ent(entity) => LeafReadBack(t, EntityName(entity), rest, depth, cal);
    case Lit(lit) =>
      LiteralReadBack(lit, cal);
      LeafReadBack(t, LiteralToken(lit, cal), rest, depth, cal);
    case Compound(pred) => CompoundReadBack(pred, rest, depth, cal);
    case List(items) => ListReadBack(items, rest, depth, cal);
  }

  lemma LeafReadBack(t: Term, token: Token, rest: Stream, depth: int, cal: Calendar)
    requires TermLexemes(t, cal) == [Spelled(token)] && !t.Compound? && !t.List?
    requires token != LParen && token != LBracket && token != Eof && ParseLeaf(token, cal) == Ok(t)
    ensures ParseTerm(TermTokens(t, cal) + rest, depth, cal) == Ok((t, rest))
  {
    assert TermTokens(t, cal) == [token];
    assert ([token] + rest)[1..] == rest;
  }

  lemma {:induction false} ListReadBack(items: seq<Term>, rest: Stream, depth: int, cal: Calendar)
    requires ArgsFit(items) && Lawful(cal) && depth <= MAX_PARSE_DEPTH
    ensures ParseTerm(TermTokens(List(items), cal) + rest, depth, cal)
         == Outcome(depth + 1 + ArgsNesting(items) <= MAX_PARSE_DEPTH, List(NamedTerms(items)), rest)
    decreases items, 1
  {
    hide *;
    ListTokens(items, cal, rest);
    var close: Stream := [RBracket] + rest;
    if depth < MAX_PARSE_DEPTH {
      ItemsReadBack(items, rest, depth + 1, cal);
    }
    ListStep(ArgsTokens(items, cal) + close, depth + 1 + ArgsNesting(items) <= MAX_PARSE_DEPTH,
             NamedTerms(items), rest, depth, cal);
  }

  lemma ListStep(inner: Stream, fits: bool, items: seq<Term>, rest: Stream, depth: int, cal: Calendar)
    requires depth < MAX_PARSE_DEPTH ==> ParseItems(inner, depth + 1, cal) == Outcome(fits, items, [RBracket] + rest)
    requires depth >= MAX_PARSE_DEPTH ==> !fits
    ensures ParseTerm([LBracket] + inner, depth, cal) == Outcome(fits, List(items), rest)
  {
    assert ([LBracket] + inner)[1..] == inner;
    assert ([RBracket] + rest)[1..] == rest;
  }

  lemma {:induction false} ItemsReadBack(items: seq<Term>, rest: Stream, depth: int, cal: Calendar)
    requires ArgsFit(items) && Lawful(cal) && depth <= MAX_PARSE_DEPTH
    ensures ParseItems(ArgsTokens(items, cal) + ([RBracket] + rest), depth, cal)
         == Outcome(depth + ArgsNesting(items) <= MAX_PARSE_DEPTH, NamedTerms(items), [RBracket] + rest)
    decreases items, 0
  {
    if items == [] {
      assert ArgsTokens(items, cal) + ([RBracket] + rest) == [RBracket] + rest;
    } else {
      var tail: Stream := ArgsTokens(items[1..], cal) + ([RBracket] + rest);
      ArgsTokensCons(items, cal, [RBracket] + rest);
      TermReadBack(items[0], tail, depth, cal);
      ItemsReadBack(items[1..], rest, depth, cal);
      TermTokensStart(items[0], cal);
      hide ArgsTokens, TermTokens, ParseTerm, Lawful, TermFits, TermNesting, NamedTerm;
    }
  }

  /** One positional argument in the loop of `parse_predicate_body_inner`. */
  lemma ArgStep(ts: Stream, fits: bool, arg: Term, next: Stream, depth: int, cal: Calendar)
    requires ts[0] != RParen && ts[0] != Eof && !ts[0].Keyword?
    requires ParseTerm(ts, depth, cal) == Outcome(fits, arg, next)
    ensures ParseArgs(ts, false, depth, cal)
         == if !fits then Err(DepthLimitExceeded)
            else match ParseArgs(next, false, depth, cal)
                 case Ok((more, rest)) => Ok((more.(args := [arg] + more.args), rest))
                 case Err(e) => Err(e)
  {
  }

  /** One named argument. */
  lemma NamedStep(
      key: Text, ts: Stream, inNamed: bool, fits: bool, value: Term, next: Stream, depth: int, cal: Calendar)
    requires ParseTerm(ts, depth, cal) == Outcome(fits, value, next)
    ensures ParseArgs([Keyword(key)] + ts, inNamed, depth, cal)
         == if !fits then Err(DepthLimitExceeded)
            else match ParseArgs(next, true, depth, cal)
                 case Ok((more, rest)) => Ok((more.(named := [NamedArg(key, value)] + more.named), rest))
                 case Err(e) => Err(e)
  {
    assert ([Keyword(key)] + ts)[1..] == ts;
  }

  /** What the argument loop makes of printed positional arguments in front of `tail`. */
  function AfterArgs(args: seq<Term>, tail: Stream, depth: int, cal: Calendar): Parsed<Arguments> {
    if depth + ArgsNesting(args) > MAX_PARSE_DEPTH then Err(DepthLimitExceeded)
    else match ParseArgs(tail, false, depth, cal)
         case Ok((more, rest)) => Ok((Arguments(NamedTerms(args) + more.args, more.named), rest))
         case Err(e) => Err(e)
  }

  lemma {:induction false} ArgsReadBack(args: seq<Term>, tail: Stream, depth: int, cal: Calendar)
    requires ArgsFit(args) && Lawful(cal) && depth <= MAX_PARSE_DEPTH
    ensures ParseArgs(ArgsTokens(args, cal) + tail, false, depth, cal) == AfterArgs(args, tail, depth, cal)
    decreases args, 0
  {
    if args == [] {
      assert ArgsTokens(args, cal) + tail == tail;
      assert forall more: Arguments :: NamedTerms(args) + more.args == more.args;
    } else {
      var next: Stream := ArgsTokens(args[1..], cal) + tail;
      var ts: Stream := TermTokens(args[0], cal) + next;
      ArgsTokensCons(args, cal, tail);
      TermReadBack(args[0], next, depth, cal);
      ArgsReadBack(args[1..], tail, depth, cal);
      TermTokensStart(args[0], cal);
      ArgStep(ts, depth + TermNesting(args[0]) <= MAX_PARSE_DEPTH, NamedTerm(args[0]), next, depth, cal);
      AfterArgsCons(args, tail, depth, cal);
      hide *;
    }
  }

  lemma AfterArgsCons(args: seq<Term>, tail: Stream, depth: int, cal: Calendar)
    requires args != []
    ensures AfterArgs(args, tail, depth, cal)
         == if depth + TermNesting(args[0]) > MAX_PARSE_DEPTH then Err(DepthLimitExceeded)
            else match AfterArgs(args[1..], tail, depth, cal)
                 case Ok((more, rest)) => Ok((more.(args := [NamedTerm(args[0])] + more.args), rest))
                 case Err(e) => Err(e)
  {
    hide ParseArgs, TermNesting, NamedTerm;
    match ParseArgs(tail, false, depth, cal)
    case Ok((more, _)) =>
      assert NamedTerms(args) + more.args == [NamedTerm(args[0])] + (NamedTerms(args[1..]) + more.args);
    case Err(_) =>
  }

  lemma {:induction false} NamedReadBack(named: seq<NamedArg>, inNamed: bool, rest: Stream, depth: int, cal: Calendar)
    requires NamedFit(named) && Lawful(cal) && depth <= MAX_PARSE_DEPTH
    ensures ParseArgs(NamedTokens(named, cal) + ([RParen] + rest), inNamed, depth, cal)
         == Outcome(depth + NamedNesting(named) <= MAX_PARSE_DEPTH, Arguments([], NamedValues(named)), [RParen] + rest)
    decreases named, 0
  {
    if named == [] {
      assert NamedTokens(named, cal) + ([RParen] + rest) == [RParen] + rest;
    } else {
      hide ParseArgs, TermTokens, ParseTerm, Lawful, TermFits, TermNesting, NamedTerm, IsName;
      var tail: Stream := NamedTokens(named[1..], cal) + ([RParen] + rest);
      var ts: Stream := TermTokens(named[0].value, cal) + tail;
      NamedTokensCons(named, cal, [RParen] + rest);
      TermReadBack(named[0].value, tail, depth, cal);
      NamedReadBack(named[1..], true, rest, depth, cal);
      NamedStep(named[0].key, ts, inNamed, depth + TermNesting(named[0].value) <= MAX_PARSE_DEPTH,
                NamedTerm(named[0].value), tail, depth, cal);
      hide NamedTokens, NamedFit;
    }
  }

  /** The body of a predicate, from its head to before its closing parenthesis. */
  lemma {:induction false} BodyReadBack(p: Predicate, rest: Stream, depth: int, cal: Calendar)
    requires PredicateFits(p) && Lawful(cal) && depth <= MAX_PARSE_DEPTH
    ensures ParseBody([Symbol(HeadText(p.head))]
                      + (ArgsTokens(p.args, cal) + (NamedTokens(p.named, cal) + ([RParen] + rest))), depth, cal)
         == Outcome(depth + PredicateNesting(p) <= MAX_PARSE_DEPTH, NamedPredicate(p), [RParen] + rest)
    decreases p, 0
  {
    hide *;
    FitsArgs(p);
    var close: Stream := [RParen] + rest;
    var named: Stream := NamedTokens(p.named, cal) + close;
    var args: Stream := ArgsTokens(p.args, cal) + named;
    ArgsReadBack(p.args, named, depth, cal);
    NamedReadBack(p.named, false, rest, depth, cal);
    AfterBothLists(p, named, close, depth, cal);
    BodyStep(HeadText(p.head), args, depth + PredicateNesting(p) <= MAX_PARSE_DEPTH,
             Arguments(NamedTerms(p.args), NamedValues(p.named)), close, depth, cal);
    NamedPredicateIs(p);
  }

  lemma FitsArgs(p: Predicate)
    requires PredicateFits(p)
    ensures ArgsFit(p.args) && NamedFit(p.named)
  {
  }

  lemma NamedPredicateIs(p: Predicate)
    ensures NamedPredicate(p) == Predicate(Name(HeadText(p.head)), NamedTerms(p.args), NamedValues(p.named))
  {
    hide NamedTerms, NamedValues, NatText;
  }

  lemma AfterBothLists(p: Predicate, named: Stream, rest: Stream, depth: int, cal: Calendar)
    requires ParseArgs(named, false, depth, cal)
          == Outcome(depth + NamedNesting(p.named) <= MAX_PARSE_DEPTH, Arguments([], NamedValues(p.named)), rest)
    ensures AfterArgs(p.args, named, depth, cal)
         == Outcome(depth + PredicateNesting(p) <= MAX_PARSE_DEPTH,
                    Arguments(NamedTerms(p.args), NamedValues(p.named)), rest)
  {
    hide ParseArgs, NamedTerms, NamedValues, ArgsNesting, NamedNesting;
    assert NamedTerms(p.args) + [] == NamedTerms(p.args);
  }

  lemma BodyStep(head: Text, args: Stream, fits: bool, a: Arguments, rest: Stream, depth: int, cal: Calendar)
    requires ParseArgs(args, false, depth, cal) == Outcome(fits, a, rest)
    ensures ParseBody([Symbol(head)] + args, depth, cal) == Outcome(fits, Predicate(Name(head), a.args, a.named), rest)
  {
    assert ([Symbol(head)] + args)[1..] == args;
  }

  lemma {:induction false} CompoundReadBack(p: Predicate, rest: Stream, depth: int, cal: Calendar)
    requires PredicateFits(p) && Lawful(cal) && depth <= MAX_PARSE_DEPTH
    ensures ParseTerm(TermTokens(Compound(p), cal) + rest, depth, cal)
         == Outcome(depth + 1 + PredicateNesting(p) <= MAX_PARSE_DEPTH, Compound(NamedPredicate(p)), rest)
    decreases p, 1
  {
    hide *;
    CompoundTokens(p, cal);
    PredicateTokensForm(p, cal, rest);
    var close: Stream := [RParen] + rest;
    var named: Stream := NamedTokens(p.named, cal) + close;
    var args: Stream := ArgsTokens(p.args, cal) + named;
    if depth < MAX_PARSE_DEPTH {
      BodyReadBack(p, rest, depth + 1, cal);
    }
    CompoundStep([Symbol(HeadText(p.head))] + args, depth + 1 + PredicateNesting(p) <= MAX_PARSE_DEPTH,
                 NamedPredicate(p), rest, depth, cal);
  }

  lemma CompoundTokens(p: Predicate, cal: Calendar)
    ensures TermTokens(Compound(p), cal) == PredicateTokens(p, cal)
  {
  }

  lemma CompoundStep(body: Stream, fits: bool, pred: Predicate, rest: Stream, depth: int, cal: Calendar)
    requires depth < MAX_PARSE_DEPTH ==> ParseBody(body, depth + 1, cal) == Outcome(fits, pred, [RParen] + rest)
    requires depth >= MAX_PARSE_DEPTH ==> !fits
    ensures ParseTerm([LParen] + body, depth, cal) == Outcome(fits, Compound(pred), rest)
  {
    assert ([LParen] + body)[1..] == body;
    assert ([RParen] + rest)[1..] == rest;
  }
}
