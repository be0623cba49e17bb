/** What the canonical text of a parsed node is read as when its leaves do not carry: a bare symbol that is not an
    entity name comes back as an entity and a symbol, or not at all, and a long duration is refused. */
module Reread {
  import opened Types
  import opened Decimal
  import opened Lexer
  import opened Serialize
  import opened Grammar
  import opened Lexemes
  import opened Printing
  import opened NodePrinting
  import opened Parsing
  import opened RoundTrip
  import opened Sources
  import opened ParserRange
  import Utf8

  // ----- an entity's text, split where the lexer stops -----

  /** How much of an entity the lexer takes. */
  function Taken(s: Text): (n: nat)
    ensures n <= |s|
  {
    match Run(s, EntityChars)
    case Ok(n) => n
    case Err(_) => 0
  }

  lemma {:induction false} RunOfValid(s: Text, rest: Text)
    requires Utf8.Valid(s) && (rest == [] || !InClass(rest[0], EntityChars))
    ensures Run(s, EntityChars) == Ok(Taken(s)) && Run(s + rest, EntityChars) == Ok(Taken(s))
    ensures Utf8.Valid(s[Taken(s)..]) && (Taken(s) < |s| ==> !InClass(s[Taken(s)], EntityChars))
    decreases |s|
  {
    hide *;
    if s == [] || !InClass(s[0], EntityChars) {
      RunStops(s, EntityChars);
      RunStops(s + rest, EntityChars);
      TakenIs(s, 0);
      assert s == [] ==> s + rest == rest;
      assert s[0..] == s;
    } else {
      var piece, tail := FirstChar(s);
      RunOfValid(tail, rest);
      RunStep(piece, tail, EntityChars);
      RunStep(piece, tail + rest, EntityChars);
      FurtherOk(|piece|, Taken(tail));
      assert s + rest == piece + (tail + rest);
      TakenIs(s, |piece| + Taken(tail));
      assert s[|piece| + Taken(tail)..] == tail[Taken(tail)..];
      assert Taken(tail) < |tail| ==> s[|piece| + Taken(tail)] == tail[Taken(tail)];
    }
  }

  lemma TakenIs(s: Text, n: nat)
    requires Run(s, EntityChars) == Ok(n)
    ensures Taken(s) == n
  {
  }

  lemma TakenWhole(s: Text)
    requires IsSymbol(s)
    ensures IsEntityName(s) <==> Taken(s) == |s|
  {
    RunRange(s, EntityChars);
    RunOfValid(s, []);
    assert s[..|s|] == s;
    hide Run, Utf8.Valid, StartsNumber;
  }

  lemma SymbolTail(s: Text, n: nat)
    requires IsSymbol(s) && n < |s| && Utf8.Valid(s[n..]) && !InClass(s[n], EntityChars)
    ensures IsSymbol(s[n..])
  {
    hide Utf8.Valid;
    assert forall i :: 0 <= i < |s[n..]| ==> s[n..][i] == s[n + i];
  }

  /** What is left over is a symbol. */
  lemma LeftIsSymbol(s: Text)
    requires IsSymbol(s) && Taken(s) < |s|
    ensures IsSymbol(s[Taken(s)..])
  {
    assert Utf8.Valid(s);
    hide *;
    RunOfValid(s, []);
    SymbolTail(s, Taken(s));
  }

  // ----- tokens that come back -----

  predicate IsBare(l: Lexeme) {
    l.token.EntityName? && IsSymbol(l.token.text) && !IsEntityName(l.token.text) && l.text == "@" + l.token.text
  }

  /** A token as it is spelled, or a bare symbol after `@`. */
  predicate NearSpelled(l: Lexeme) {
    WellSpelled(l) || IsBare(l)
  }

  predicate AllNear(ls: seq<Lexeme>) {
    forall i :: 0 <= i < |ls| ==> NearSpelled(ls[i])
  }

  /** The tokens read for one. */
  function Split(t: Token): seq<Token> {
    if t.EntityName? && !IsEntityName(t.text) then
      [EntityName(t.text[..Taken(t.text)]), Symbol(t.text[Taken(t.text)..])]
    else [t]
  }

  function SplitAll(ls: seq<Lexeme>): seq<Token> {
    if ls == [] then [] else Split(ls[0].token) + SplitAll(ls[1..])
  }

  lemma NoSplit()
    ensures SplitAll([]) == []
  {
  }

  lemma SplitFirst(l: Lexeme, tail: seq<Lexeme>)
    ensures SplitAll([l] + tail) == Split(l.token) + SplitAll(tail)
  {
    hide Split;
    assert ([l] + tail)[1..] == tail;
  }

  lemma {:induction false} SplitConcat(a: seq<Lexeme>, b: seq<Lexeme>)
    ensures SplitAll(a + b) == SplitAll(a) + SplitAll(b)
  {
    hide *;
    NoSplit();
    if a == [] {
      assert a + b == b && [] + SplitAll(b) == SplitAll(b);
    } else {
      var l, tail := a[0], a[1..];
      assert a == [l] + tail && a + b == [l] + (tail + b);
      SplitConcat(tail, b);
      SplitFirst(l, tail);
      SplitFirst(l, tail + b);
      Associated(Split(l.token), SplitAll(tail), SplitAll(b));
    }
  }

  lemma {:induction false} SplitWell(ls: seq<Lexeme>)
    requires AllWellSpelled(ls)
    ensures SplitAll(ls) == TokensOf(ls)
  {
    hide *;
    NoSplit();
    if ls == [] {
      NothingRendered();
    } else {
      var l, tail := ls[0], ls[1..];
      assert ls == [l] + tail;
      WellSpelledSplit(l, tail);
      SplitWell(tail);
      WellSplit(l);
      SplitFirst(l, tail);
      TokensOfCons(l, tail);
    }
  }

  lemma NextEntity(u: Text, n: nat)
    requires u != [] && u[0] == '@' && Run(u[1..], EntityChars) == Ok(n) && n < |u|
    ensures Next(u) == if n == 0 then Err(EntityNameExpected) else Ok((EntityName(u[1..n + 1]), n + 1))
    ensures !IsBlank(u[0]) && u[0] != ';'
  {
    hide Run;
  }

  lemma StopsEntity(rest: Text)
    requires Stops(rest)
    ensures rest == [] || !InClass(rest[0], EntityChars)
  {
  }

  lemma AfterAt(s: Text, rest: Text, n: nat)
    requires n <= |s|
    ensures var u := "@" + s + rest;
            u[0] == '@' && n < |u| && u[1..] == s + rest && u[1..n + 1] == s[..n]
  {
  }

  lemma BareNext(s: Text, rest: Text)
    requires IsSymbol(s) && Stops(rest)
    ensures var u := "@" + s + rest;
            && !IsBlank(u[0]) && u[0] != ';'
            && Next(u) == if Taken(s) == 0 then Err(EntityNameExpected)
                          else Ok((EntityName(s[..Taken(s)]), Taken(s) + 1))
  {
    assert Utf8.Valid(s);
    hide *;
    var u := "@" + s + rest;
    AfterAt(s, rest, Taken(s));
    StopsEntity(rest);
    RunOfValid(s, rest);
    NextEntity(u, Taken(s));
  }

  /** If lexing `all` succeeds, these tokens come first and lexing the rest succeeds too. */
  predicate Begins(all: Text, count: int, tokens: seq<Token>, rest: Text) {
    var r, left := LexFrom(all, count), LexFrom(rest, count + |tokens|);
    r.Ok? ==> left.Ok? && r.value == tokens + left.value
  }

  lemma BeginsStep(gap: Text, u: Text, count: int, token: Token, n: nat)
    requires gap == "" || gap == " "
    requires u != [] && !IsBlank(u[0]) && u[0] != ';' && n <= |u|
    requires Next(u).Ok? ==> Next(u) == Ok((token, n))
    ensures Begins(gap + u, count, [token], u[n..])
  {
    hide Next, Skip;
    SkipNone(u);
    var s := gap + u;
    assert gap == "" ==> s == u;
    assert s[Skip(s)..] == u;
    LexFromStep(s, u, count);
  }

  lemma BeginsMore(all: Text, count: int, a: seq<Token>, mid: Text, b: seq<Token>, rest: Text)
    requires Begins(all, count, a, mid) && Begins(mid, count + |a|, b, rest)
    ensures Begins(all, count, a + b, rest)
  {
    hide LexFrom;
    assert count + |a| + |b| == count + |a + b|;
    if LexFrom(all, count).Ok? {
      assert a + (b + LexFrom(rest, count + |a + b|).value) == a + b + LexFrom(rest, count + |a + b|).value;
    }
  }

  lemma WellSplit(l: Lexeme)
    requires WellSpelled(l)
    ensures Split(l.token) == [l.token]
  {
    hide IsEntityName;
  }

  lemma BareSplit(l: Lexeme)
    requires IsBare(l)
    ensures l.token.EntityName?
    ensures Split(l.token)
         == [EntityName(l.token.text[..Taken(l.token.text)])] + [Symbol(l.token.text[Taken(l.token.text)..])]
    ensures Taken(l.token.text) < |l.token.text| && IsSymbol(l.token.text) && l.text == "@" + l.token.text
    ensures !IsEntityName(l.token.text)
  {
    TakenWhole(l.token.text);
    hide IsSymbol, IsEntityName, Taken;
  }

  lemma LexWellOne(l: Lexeme, gap: Text, rest: Text, count: int)
    requires WellSpelled(l) && (Opens(l) || Stops(rest)) && (gap == "" || gap == " ")
    ensures Begins(gap + (l.text + rest), count, [l.token], rest)
  {
    hide *;
    NextSpelled(l, rest);
    StartsVisibly(l);
    assert (l.text + rest)[|l.text|..] == rest;
    BeginsStep(gap, l.text + rest, count, l.token, |l.text|);
  }

  lemma LexBareOne(l: Lexeme, gap: Text, rest: Text, count: int)
    requires IsBare(l) && Stops(rest) && (gap == "" || gap == " ")
    ensures Begins(gap + (l.text + rest), count, Split(l.token), rest)
  {
    hide *;
    BareSplit(l);
    var s := l.token.text;
    var n := Taken(s);
    var left := s[n..];
    var u := l.text + rest;
    BareNext(s, rest);
    LeftIsSymbol(s);
    SymbolSpelled(left);
    SpelledSymbol(left);
    LexWellOne(Spelled(Symbol(left)), "", rest, count + 1);
    assert u[n + 1..] == left + rest;
    assert "" + (left + rest) == left + rest;
    BeginsStep(gap, u, count, EntityName(s[..n]), n + 1);
    BeginsMore(gap + u, count, [EntityName(s[..n])], left + rest, [Symbol(left)], rest);
  }

  lemma SpelledSymbol(s: Text)
    ensures Spelled(Symbol(s)).text == s && Spelled(Symbol(s)).token == Symbol(s)
  {
  }

  /** Reading one near-spelled token off a text. */
  lemma LexNearOne(l: Lexeme, gap: Text, rest: Text, count: int)
    requires NearSpelled(l) && (Opens(l) || Stops(rest)) && (gap == "" || gap == " ")
    ensures Begins(gap + (l.text + rest), count, Split(l.token), rest)
  {
    hide Begins, WellSpelled, IsSymbol, IsEntityName, Stops, Split;
    if WellSpelled(l) {
      WellSplit(l);
      LexWellOne(l, gap, rest, count);
    } else {
      LexBareOne(l, gap, rest, count);
    }
  }

  lemma NearGapStops(l: Lexeme, tail: seq<Lexeme>)
    requires tail != [] && AllNear(tail)
    ensures Opens(l) || Stops(Gap(l, tail[0]) + Render(tail))
  {
    assert NearSpelled(tail[0]);
    if Closes(tail[0]) {
      RenderStarts(tail);
    }
    hide Render;
  }

  lemma NearCons(l: Lexeme, tail: seq<Lexeme>)
    requires AllNear([l] + tail)
    ensures NearSpelled(l) && AllNear(tail)
    ensures SplitAll([l] + tail) == Split(l.token) + SplitAll(tail)
  {
    hide NearSpelled, Split;
    var ls := [l] + tail;
    assert ls[0] == l && ls[1..] == tail;
    assert forall i :: 0 <= i < |tail| ==> ls[1 + i] == tail[i];
  }

  lemma NothingMore(ts: seq<Token>)
    ensures ts + [] == ts
  {
  }

  /** Lexing a rendered text of near-spelled tokens. */
  lemma {:induction false} LexNear(ls: seq<Lexeme>, gap: Text, after: Text, count: int)
    requires AllNear(ls) && ls != [] && Stops(after) && (gap == "" || gap == " ")
    ensures Begins(gap + (Render(ls) + after), count, SplitAll(ls), after)
    decreases |ls|
  {
    hide *;
    var l, tail := ls[0], ls[1..];
    assert ls == [l] + tail;
    NearCons(l, tail);
    var rest := RenderFirst(l, tail);
    TextAssociates(l.text, rest, after);
    NoSplit();
    NothingMore(Split(l.token));
    if tail == [] {
      assert "" + after == after;
      LexNearOne(l, gap, after, count);
    } else {
      NearGapStops(l, tail);
      StopsMore(rest, after);
      LexNearOne(l, gap, rest + after, count);
      LexNear(tail, Gap(l, tail[0]), after, count + |Split(l.token)|);
      TextAssociates(Gap(l, tail[0]), Render(tail), after);
      BeginsMore(gap + (l.text + (rest + after)), count, Split(l.token), rest + after, SplitAll(tail), after);
    }
  }

  // ----- the tokens of a parsed predicate -----

  lemma NearOne(l: Lexeme)
    requires NearSpelled(l)
    ensures AllNear([l])
  {
    hide NearSpelled;
  }

  lemma NearConcat(a: seq<Lexeme>, b: seq<Lexeme>)
    requires AllNear(a) && AllNear(b)
    ensures AllNear(a + b)
  {
    hide NearSpelled;
  }

  lemma WellNear(ls: seq<Lexeme>)
    requires AllWellSpelled(ls)
    ensures AllNear(ls)
  {
    hide WellSpelled, IsBare;
  }

  lemma DurationSpelled(nanos: nat)
    ensures WellSpelled(Spelled(DurationText(NatText(nanos) + "ns")))
  {
    var digits := NatText(nanos);
    assert AllDigits(digits);
    hide NatText, DigitsValue;
  }

  lemma LeafNear(t: Term, cal: Calendar)
    requires TermNear(t) && !t.Compound? && !t.List? && Lawful(cal)
    ensures AllNear(TermLexemes(t, cal))
  {
    if t.Lit? && t.lit.Dur? {
      DurationSpelled(t.lit.nanos);
    } else if t.Lit? {
      LiteralSpelled(t.lit, cal);
    }
    hide IsSymbol, IsEntityName, IsName, LiteralFits, Lawful, NatText, DecText, Escape;
  }

  lemma {:induction false} TermAllNear(t: Term, cal: Calendar)
    requires TermNear(t) && Lawful(cal)
    ensures AllNear(TermLexemes(t, cal))
  {
    hide NearSpelled, AllNear, Lawful;
    match t
    case Compound(pred) => PredicateAllNear(pred, cal);
    case List(items) =>
      BracketsNear();
      ArgsAllNear(items, cal);
      NearConcat([Spelled(LBracket)], ArgsLexemes(items, cal));
      NearConcat([Spelled(LBracket)] + ArgsLexemes(items, cal), [Spelled(RBracket)]);
    case _ => LeafNear(t, cal);
  }

  lemma BracketsNear()
    ensures AllNear([Spelled(LBracket)]) && AllNear([Spelled(RBracket)]) && AllNear([Spelled(RParen)])
  {
    BracketsSpelled();
    hide WellSpelled, Spelled;
  }

  lemma {:induction false} ArgsAllNear(args: seq<Term>, cal: Calendar)
    requires ArgsNear(args) && Lawful(cal)
    ensures AllNear(ArgsLexemes(args, cal))
  {
    if args != [] {
      TermAllNear(args[0], cal);
      ArgsAllNear(args[1..], cal);
      hide AllNear, TermLexemes, TermNear;
      NearConcat(TermLexemes(args[0], cal), ArgsLexemes(args[1..], cal));
    }
  }

  lemma {:induction false} NamedAllNear(named: seq<NamedArg>, cal: Calendar)
    requires NamedNear(named) && Lawful(cal)
    ensures AllNear(NamedLexemes(named, cal))
  {
    if named != [] {
      assert WellSpelled(Spelled(Keyword(named[0].key)));
      var key, value := [Spelled(Keyword(named[0].key))], TermLexemes(named[0].value, cal);
      NearOne(key[0]);
      TermAllNear(named[0].value, cal);
      NamedAllNear(named[1..], cal);
      hide AllNear, TermLexemes, TermNear, NearSpelled, Spelled;
      NearConcat(key, value);
      NearConcat(key + value, NamedLexemes(named[1..], cal));
    }
  }

  lemma HeadNear(name: Text)
    requires IsSymbol(name)
    ensures AllNear([Spelled(LParen), Spelled(Symbol(name))])
  {
    BracketsSpelled();
    SymbolSpelled(name);
    hide WellSpelled, Spelled;
  }

  lemma {:induction false} PredicateAllNear(p: Predicate, cal: Calendar)
    requires PredicateNear(p) && Lawful(cal)
    ensures AllNear(PredicateLexemes(p, cal))
  {
    hide NearSpelled, AllNear, Lawful, ArgsLexemes, NamedLexemes, IsSymbol, ArgsNear, NamedNear;
    var open := [Spelled(LParen), Spelled(Symbol(p.head.name))];
    var args, named := ArgsLexemes(p.args, cal), NamedLexemes(p.named, cal);
    HeadNear(p.head.name);
    BracketsNear();
    ArgsAllNear(p.args, cal);
    NamedAllNear(p.named, cal);
    NearConcat(open, args);
    NearConcat(open + args, named);
    NearConcat(open + args + named, [Spelled(RParen)]);
  }

  function TermSplit(t: Term, cal: Calendar): seq<Token> {
    SplitAll(TermLexemes(t, cal))
  }

  function ArgsSplit(args: seq<Term>, cal: Calendar): seq<Token> {
    SplitAll(ArgsLexemes(args, cal))
  }

  function NamedSplit(named: seq<NamedArg>, cal: Calendar): seq<Token> {
    SplitAll(NamedLexemes(named, cal))
  }

  function PredicateSplit(p: Predicate, cal: Calendar): seq<Token> {
    SplitAll(PredicateLexemes(p, cal))
  }

  lemma SplitShort(a: Lexeme, b: Lexeme)
    requires !a.token.EntityName? && !b.token.EntityName?
    ensures SplitAll([a]) == [a.token] && SplitAll([a, b]) == [a.token, b.token]
  {
    assert [a][1..] == [] && [b][1..] == [] && [a, b][1..] == [b];
    assert SplitAll([b]) == [b.token];
  }

  lemma ArgsSplitCons(args: seq<Term>, cal: Calendar, rest: seq<Token>)
    ensures args == [] ==> ArgsSplit(args, cal) + rest == rest
    ensures args != [] ==>
              ArgsSplit(args, cal) + rest == TermSplit(args[0], cal) + (ArgsSplit(args[1..], cal) + rest)
  {
    if args != [] {
      hide SplitAll;
      SplitConcat(TermLexemes(args[0], cal), ArgsLexemes(args[1..], cal));
      hide TermLexemes, ArgsLexemes;
      Associated(TermSplit(args[0], cal), ArgsSplit(args[1..], cal), rest);
    }
  }

  lemma NoneSplit(cal: Calendar, rest: seq<Token>)
    ensures NamedSplit([], cal) + rest == rest
  {
  }

  lemma NamedSplitIs(named: seq<NamedArg>, cal: Calendar)
    ensures NamedSplit(named, cal) == SplitAll(NamedLexemes(named, cal))
  {
  }

  lemma NamedSplitCons(named: seq<NamedArg>, cal: Calendar, rest: seq<Token>)
    ensures named == [] ==> NamedSplit(named, cal) + rest == rest
    ensures named != [] ==>
              NamedSplit(named, cal) + rest
              == [Keyword(named[0].key)] + (TermSplit(named[0].value, cal) + (NamedSplit(named[1..], cal) + rest))
  {
    if named == [] {
      NoneSplit(cal, rest);
    } else {
      var key, value := Spelled(Keyword(named[0].key)), TermLexemes(named[0].value, cal);
      var more := NamedLexemes(named[1..], cal);
      SplitShort(key, key);
      NamedLexemesAre(named, cal);
      hide *;
      SplitConcat([key] + value, more);
      SplitConcat([key], value);
      TermSplitIs(named[0].value, cal);
      NamedSplitIs(named, cal);
      NamedSplitIs(named[1..], cal);
      NamedAssociates([Keyword(named[0].key)], SplitAll(value), SplitAll(more), rest);
    }
  }

  lemma TermSplitIs(t: Term, cal: Calendar)
    ensures TermSplit(t, cal) == SplitAll(TermLexemes(t, cal))
    ensures t.List? ==> ArgsSplit(t.items, cal) == SplitAll(ArgsLexemes(t.items, cal))
  {
  }

  lemma ListLexemes(items: seq<Term>, cal: Calendar)
    ensures TermLexemes(List(items), cal) == [Spelled(LBracket)] + ArgsLexemes(items, cal) + [Spelled(RBracket)]
  {
    hide ArgsLexemes;
  }

  lemma ListAssociates(items: seq<Token>, rest: seq<Token>)
    ensures [LBracket] + items + [RBracket] + rest == [LBracket] + (items + ([RBracket] + rest))
  {
  }

  lemma ListSplit(items: seq<Term>, cal: Calendar, rest: seq<Token>)
    ensures TermSplit(List(items), cal) + rest == [LBracket] + (ArgsSplit(items, cal) + ([RBracket] + rest))
  {
    var open, close := [Spelled(LBracket)], [Spelled(RBracket)];
    SplitShort(open[0], open[0]);
    SplitShort(close[0], close[0]);
    ListLexemes(items, cal);
    hide *;
    SplitConcat(open + ArgsLexemes(items, cal), close);
    SplitConcat(open, ArgsLexemes(items, cal));
    TermSplitIs(List(items), cal);
    ListAssociates(ArgsSplit(items, cal), rest);
  }

  lemma PredicateSplitForm(p: Predicate, cal: Calendar, rest: seq<Token>)
    requires p.head.Name?
    ensures PredicateSplit(p, cal) + rest
         == [LParen] + ([Symbol(p.head.name)]
            + (ArgsSplit(p.args, cal) + (NamedSplit(p.named, cal) + ([RParen] + rest))))
  {
    var open, close := [Spelled(LParen), Spelled(Symbol(HeadText(p.head)))], [Spelled(RParen)];
    var args, named := ArgsLexemes(p.args, cal), NamedLexemes(p.named, cal);
    SplitShort(open[0], open[1]);
    SplitShort(close[0], close[0]);
    hide SplitAll, ArgsLexemes, NamedLexemes;
    SplitConcat(open + args + named, close);
    SplitConcat(open + args, named);
    SplitConcat(open, args);
    FormAssociates(LParen, Symbol(p.head.name), SplitAll(args), SplitAll(named), RParen, rest);
  }

  // ----- parsing them -----

  predicate IsBareTerm(t: Term) {
    t.Ent? && !IsEntityName(t.entity)
  }

  lemma LongNanos(n: nat)
    requires n >= U64_LIMIT
    ensures ParseDuration(NatText(n) + "ns") == None
  {
    var digits := NatText(n);
    assert digits[0] != '+';
    hide NatText, DigitsValue;
    NsText(digits);
  }

  /** Parsing succeeds only with the given rest, and with the given value exactly if `whole`. */
  ghost predicate Gives<T(!new)>(r: Parsed<T>, rest: Stream, value: T, whole: bool) {
    r.Ok? ==> r.value.1 == rest && (r.value.0 == value <==> whole)
  }

  lemma LeafBack(t: Term, rest: Stream, all: Stream, depth: int, cal: Calendar)
    requires TermNear(t) && !t.Compound? && !t.List? && !IsBareTerm(t) && Lawful(cal) && depth <= MAX_PARSE_DEPTH
    requires all == TermSplit(t, cal) + rest
    ensures Gives(ParseTerm(all, depth, cal), rest, t, TermCarries(t))
  {
    if TermCarries(t) {
      TermNearFits(t);
      TermSpelled(t, cal);
      SplitWell(TermLexemes(t, cal));
      TermReadBack(t, rest, depth, cal);
      assert NamedTerm(t) == t;
      hide TermNear, TermCarries, TermFits, ParseTerm, Lawful, SplitAll, TermLexemes, TermNesting;
    } else {
      LongNanos(t.lit.nanos);
      LongSplit(t.lit.nanos, cal);
      hide ParseDuration, SplitAll, NatText;
      assert all[0] == DurationText(NatText(t.lit.nanos) + "ns");
    }
  }

  lemma LongSplit(nanos: nat, cal: Calendar)
    ensures TermSplit(Lit(Dur(nanos)), cal) == [DurationText(NatText(nanos) + "ns")]
  {
    SplitShort(Spelled(DurationText(NatText(nanos) + "ns")), Spelled(LParen));
    hide NatText, SplitAll;
  }

  lemma BareTokens(s: Text, cal: Calendar)
    requires !IsEntityName(s)
    ensures TermSplit(Ent(s), cal) == [EntityName(s[..Taken(s)]), Symbol(s[Taken(s)..])]
  {
    hide IsEntityName, Taken;
    var ls := TermLexemes(Ent(s), cal);
    assert ls[0].token == EntityName(s) && ls[1..] == [];
    assert SplitAll(ls) == Split(EntityName(s)) + SplitAll([]);
  }

  lemma SplitStart(t: Term, cal: Calendar)
    ensures var ts := TermSplit(t, cal);
            ts != [] && ts[0] != RParen && ts[0] != RBracket && ts[0] != Eof && !ts[0].Keyword?
  {
    FirstLexeme(t, cal);
    hide TermLexemes, IsEntityName;
  }

  /** One positional argument in the argument loop. */
  lemma ArgUnfold(ts: Stream, depth: int, cal: Calendar)
    requires ts[0] != RParen && ts[0] != Eof && !ts[0].Keyword?
    ensures ParseArgs(ts, false, depth, cal).Ok? ==>
              && ParseTerm(ts, depth, cal).Ok?
              && var (arg, next) := ParseTerm(ts, depth, cal).value;
                 && ParseArgs(next, false, depth, cal).Ok?
                 && var (more, rest) := ParseArgs(next, false, depth, cal).value;
                    ParseArgs(ts, false, depth, cal) == Ok((more.(args := [arg] + more.args), rest))
    ensures ParseArgs(ts, true, depth, cal).Err?
  {
    hide ParseTerm;
  }

  lemma KeywordUnfold(ts: Stream, next: Stream, inNamed: bool, depth: int, cal: Calendar)
    requires ts[0].Keyword? && ts[1..] == next
    ensures ParseArgs(ts, inNamed, depth, cal).Ok? ==>
              && ParseTerm(next, depth, cal).Ok?
              && var (value, left) := ParseTerm(next, depth, cal).value;
                 && ParseArgs(left, true, depth, cal).Ok?
                 && var (more, rest) := ParseArgs(left, true, depth, cal).value;
                    ParseArgs(ts, inNamed, depth, cal)
                    == Ok((more.(named := [NamedArg(ts[0].text, value)] + more.named), rest))
  {
    hide ParseTerm;
  }

  lemma LeafTerms(token: Token, rest: Stream, all: Stream, depth: int, cal: Calendar)
    requires token.EntityName? || token.Symbol?
    requires all == [token] + rest
    ensures ParseTerm(all, depth, cal) == Ok((Ent(token.text), rest))
  {
    assert all[1..] == rest;
  }

  lemma {:induction false} TermBack(t: Term, rest: Stream, all: Stream, depth: int, cal: Calendar)
    requires TermNear(t) && !IsBareTerm(t) && Lawful(cal) && depth <= MAX_PARSE_DEPTH
    requires all == TermSplit(t, cal) + rest
    ensures Gives(ParseTerm(all, depth, cal), rest, t, TermCarries(t))
    decreases t, 2
  {
    match t
    case Compound(pred) => CompoundBack(pred, rest, all, depth, cal);
    case List(items) => ListBack(items, rest, all, depth, cal);
    case _ => LeafBack(t, rest, all, depth, cal);
  }

  lemma {:induction false} CompoundBack(p: Predicate, rest: Stream, all: Stream, depth: int, cal: Calendar)
    requires PredicateNear(p) && Lawful(cal) && depth <= MAX_PARSE_DEPTH
    requires all == TermSplit(Compound(p), cal) + rest
    ensures Gives(ParseTerm(all, depth, cal), rest, Compound(p), Carries(p))
    decreases p, 1
  {
    hide *;
    CompoundSplit(p, cal);
    NearParts(p);
    PredicateSplitForm(p, cal, rest);
    var close: Stream := [RParen] + rest;
    var body: Stream := [Symbol(p.head.name)] + (ArgsSplit(p.args, cal) + (NamedSplit(p.named, cal) + close));
    if depth < MAX_PARSE_DEPTH {
      BodyBack(p, rest, body, depth + 1, cal);
    }
    CompoundGives(p, rest, body, all, depth, cal);
  }

  lemma NearParts(p: Predicate)
    requires PredicateNear(p)
    ensures p.head.Name? && IsSymbol(p.head.name) && ArgsNear(p.args) && NamedNear(p.named)
  {
  }

  lemma NearArgs(args: seq<Term>)
    requires ArgsNear(args) && args != []
    ensures TermNear(args[0]) && ArgsNear(args[1..])
  {
    hide TermNear;
  }

  lemma NearNamed(named: seq<NamedArg>)
    requires NamedNear(named) && named != []
    ensures TermNear(named[0].value) && NamedNear(named[1..])
  {
    hide TermNear;
  }

  lemma CompoundGives(p: Predicate, rest: Stream, body: Stream, all: Stream, depth: int, cal: Calendar)
    requires all == [LParen] + body
    requires depth < MAX_PARSE_DEPTH ==> Gives(ParseBody(body, depth + 1, cal), [RParen] + rest, p, Carries(p))
    ensures Gives(ParseTerm(all, depth, cal), rest, Compound(p), Carries(p))
  {
    hide ParseBody, Carries;
    assert all[0] == LParen && all[1..] == body;
    assert ([RParen] + rest)[1..] == rest;
  }

  lemma BodyGives(
      p: Predicate, named: Stream, args: Stream, all: Stream, close: Stream, depth: int, cal: Calendar)
    requires p.head.Name? && all == [Symbol(p.head.name)] + args
    requires GivesArgs(
               ParseArgs(args, false, depth, cal), ParseArgs(named, false, depth, cal), p.args, ArgsCarry(p.args))
    requires var r := ParseArgs(named, false, depth, cal);
             r.Ok? ==>
               && r.value.1 == close && r.value.0.args == []
               && (r.value.0.named == p.named <==> NamedCarry(p.named))
    ensures Gives(ParseBody(all, depth, cal), close, p, Carries(p))
  {
    hide ParseArgs, ArgsCarry, NamedCarry;
    assert all[0] == Symbol(p.head.name) && all[1..] == args;
  }

  lemma ListGives(items: seq<Term>, rest: Stream, inner: Stream, all: Stream, depth: int, cal: Calendar)
    requires all == [LBracket] + inner
    requires depth < MAX_PARSE_DEPTH ==>
               Gives(ParseItems(inner, depth + 1, cal), [RBracket] + rest, items, ArgsCarry(items))
    ensures Gives(ParseTerm(all, depth, cal), rest, List(items), ArgsCarry(items))
  {
    hide ParseItems, ArgsCarry;
    assert all[0] == LBracket && all[1..] == inner;
    assert ([RBracket] + rest)[1..] == rest;
  }

  lemma ItemsEnd(close: Stream, depth: int, cal: Calendar)
    requires close[0] == RBracket
    ensures Gives(ParseItems(close, depth, cal), close, [], ArgsCarry([]))
  {
  }

  lemma NamedEnd(close: Stream, inNamed: bool, depth: int, cal: Calendar)
    requires close[0] == RParen
    ensures ParseArgs(close, inNamed, depth, cal) == Ok((Arguments([], []), close)) && NamedCarry([])
  {
  }

  lemma ItemBare(items: seq<Term>, r: Parsed<seq<Term>>, more: Parsed<seq<Term>>, rest: Stream)
    requires items != [] && Gives(more, rest, items[1..], ArgsCarry(items[1..])) && !ArgsCarry(items)
    requires r.Ok? ==> more.Ok? && r.value.1 == more.value.1 && r.value.0 != items
    ensures Gives(r, rest, items, ArgsCarry(items))
  {
    hide ArgsCarry;
  }

  lemma TermGives(r: Parsed<Term>, rest: Stream, t: Term)
    requires Gives(r, rest, t, TermCarries(t))
    ensures r.Ok? ==> r.value.1 == rest
  {
    hide TermCarries;
  }

  lemma CompoundSplit(p: Predicate, cal: Calendar)
    ensures TermSplit(Compound(p), cal) == PredicateSplit(p, cal)
  {
  }

  lemma {:induction false} BodyBack(p: Predicate, rest: Stream, all: Stream, depth: int, cal: Calendar)
    requires PredicateNear(p) && Lawful(cal) && depth <= MAX_PARSE_DEPTH
    requires all == [Symbol(p.head.name)] + (ArgsSplit(p.args, cal) + (NamedSplit(p.named, cal) + ([RParen] + rest)))
    ensures Gives(ParseBody(all, depth, cal), [RParen] + rest, p, Carries(p))
    decreases p, 0
  {
    hide *;
    NearParts(p);
    var close: Stream := [RParen] + rest;
    var named: Stream := NamedSplit(p.named, cal) + close;
    var args: Stream := ArgsSplit(p.args, cal) + named;
    ArgsBack(p.args, named, args, depth, cal);
    NamedBack(p.named, false, rest, named, depth, cal);
    BodyGives(p, named, args, all, close, depth, cal);
  }

  lemma {:induction false} ListBack(items: seq<Term>, rest: Stream, all: Stream, depth: int, cal: Calendar)
    requires ArgsNear(items) && Lawful(cal) && depth <= MAX_PARSE_DEPTH
    requires all == TermSplit(List(items), cal) + rest
    ensures Gives(ParseTerm(all, depth, cal), rest, List(items), ArgsCarry(items))
    decreases items, 1
  {
    hide *;
    ListSplit(items, cal, rest);
    var close: Stream := [RBracket] + rest;
    var inner: Stream := ArgsSplit(items, cal) + close;
    if depth < MAX_PARSE_DEPTH {
      ItemsBack(items, rest, inner, depth + 1, cal);
    }
    ListGives(items, rest, inner, all, depth, cal);
  }

  /** The argument loop on positional arguments before `tail`. */
  ghost predicate GivesArgs(r: Parsed<Arguments>, after: Parsed<Arguments>, args: seq<Term>, whole: bool) {
    r.Ok? ==>
      && after.Ok? && r.value.1 == after.value.1 && r.value.0.named == after.value.0.named
      && (after.value.0.args == [] ==> (r.value.0.args == args <==> whole))
  }

  lemma {:induction false} ArgsBack(args: seq<Term>, tail: Stream, all: Stream, depth: int, cal: Calendar)
    requires ArgsNear(args) && Lawful(cal) && depth <= MAX_PARSE_DEPTH
    requires all == ArgsSplit(args, cal) + tail
    ensures GivesArgs(ParseArgs(all, false, depth, cal), ParseArgs(tail, false, depth, cal), args, ArgsCarry(args))
    decreases args, 0
  {
    hide *;
    ArgsSplitCons(args, cal, tail);
    if args == [] {
      ArgsEnd(ParseArgs(tail, false, depth, cal));
    } else {
      var next: Stream := ArgsSplit(args[1..], cal) + tail;
      NearArgs(args);
      ArgsBack(args[1..], tail, next, depth, cal);
      if IsBareTerm(args[0]) {
        BareArg(args, next, all, depth, cal);
        ArgBare(args, ParseArgs(all, false, depth, cal), ParseArgs(next, false, depth, cal),
                ParseArgs(tail, false, depth, cal));
      } else {
        TermBack(args[0], next, all, depth, cal);
        SplitStart(args[0], cal);
        assert all[0] == TermSplit(args[0], cal)[0];
        ArgUnfold(all, depth, cal);
        ArgWhole(args, ParseTerm(all, depth, cal), next, ParseArgs(all, false, depth, cal),
                 ParseArgs(next, false, depth, cal), ParseArgs(tail, false, depth, cal));
      }
    }
  }

  lemma ArgsEnd(r: Parsed<Arguments>)
    ensures GivesArgs(r, r, [], ArgsCarry([]))
  {
  }

  lemma ArgBare(args: seq<Term>, r: Parsed<Arguments>, more: Parsed<Arguments>, after: Parsed<Arguments>)
    requires args != [] && GivesArgs(more, after, args[1..], ArgsCarry(args[1..])) && !ArgsCarry(args)
    requires r.Ok? ==>
               && more.Ok? && r.value.1 == more.value.1 && r.value.0.named == more.value.0.named
               && r.value.0.args != args
    ensures GivesArgs(r, after, args, ArgsCarry(args))
  {
    hide ArgsCarry;
  }

  lemma ArgWhole(
      args: seq<Term>, term: Parsed<Term>, next: Stream, r: Parsed<Arguments>, more: Parsed<Arguments>,
      after: Parsed<Arguments>)
    requires args != [] && Gives(term, next, args[0], TermCarries(args[0]))
    requires GivesArgs(more, after, args[1..], ArgsCarry(args[1..]))
    requires r.Ok? ==> term.Ok? && (term.value.1 == next ==>
               more.Ok? && r == Ok((more.value.0.(args := [term.value.0] + more.value.0.args), more.value.1)))
    ensures GivesArgs(r, after, args, ArgsCarry(args))
  {
    hide TermCarries;
    assert args == [args[0]] + args[1..];
    if r.Ok? {
      ConsEqual(term.value.0, args[0], more.value.0.args, args[1..]);
    }
  }

  lemma BareDiffers(s: Text)
    requires IsSymbol(s) && !IsEntityName(s)
    ensures s[..Taken(s)] != s
  {
    TakenWhole(s);
  }

  lemma BareParts(args: seq<Term>, cal: Calendar)
    requires args != [] && IsBareTerm(args[0]) && TermNear(args[0])
    ensures args[0].Ent? && args[0] != Ent(args[0].entity[..Taken(args[0].entity)]) && !ArgsCarry(args)
    ensures TermSplit(args[0], cal)
         == [EntityName(args[0].entity[..Taken(args[0].entity)]), Symbol(args[0].entity[Taken(args[0].entity)..])]
  {
    BareTokens(args[0].entity, cal);
    BareDiffers(args[0].entity);
    hide TermSplit, Taken, IsEntityName;
  }

  lemma BareArg(args: seq<Term>, next: Stream, all: Stream, depth: int, cal: Calendar)
    requires args != [] && IsBareTerm(args[0]) && TermNear(args[0]) && all == TermSplit(args[0], cal) + next
    ensures ParseArgs(all, false, depth, cal).Ok? ==>
              && ParseArgs(next, false, depth, cal).Ok?
              && ParseArgs(all, false, depth, cal).value.1 == ParseArgs(next, false, depth, cal).value.1
              && ParseArgs(all, false, depth, cal).value.0.named == ParseArgs(next, false, depth, cal).value.0.named
              && ParseArgs(all, false, depth, cal).value.0.args != args
    ensures !ArgsCarry(args)
  {
    hide *;
    BareParts(args, cal);
    var s := args[0].entity;
    var left: Stream := [Symbol(s[Taken(s)..])] + next;
    assert all == [EntityName(s[..Taken(s)])] + left;
    LeafTerms(EntityName(s[..Taken(s)]), left, all, depth, cal);
    LeafTerms(Symbol(s[Taken(s)..]), next, left, depth, cal);
    ArgUnfold(all, depth, cal);
    ArgUnfold(left, depth, cal);
  }

  /** One item in the loop over a list. */
  lemma ItemUnfold(ts: Stream, depth: int, cal: Calendar)
    requires ts[0] != RBracket && ts[0] != Eof
    ensures ParseItems(ts, depth, cal).Ok? ==>
              && ParseTerm(ts, depth, cal).Ok?
              && var (item, next) := ParseTerm(ts, depth, cal).value;
                 && ParseItems(next, depth, cal).Ok?
                 && var (more, rest) := ParseItems(next, depth, cal).value;
                    ParseItems(ts, depth, cal) == Ok(([item] + more, rest))
  {
    hide ParseTerm;
  }

  lemma {:induction false} ItemsBack(items: seq<Term>, rest: Stream, all: Stream, depth: int, cal: Calendar)
    requires ArgsNear(items) && Lawful(cal) && depth <= MAX_PARSE_DEPTH
    requires all == ArgsSplit(items, cal) + ([RBracket] + rest)
    ensures Gives(ParseItems(all, depth, cal), [RBracket] + rest, items, ArgsCarry(items))
    decreases items, 0
  {
    hide *;
    var close: Stream := [RBracket] + rest;
    ArgsSplitCons(items, cal, close);
    if items == [] {
      ItemsEnd(close, depth, cal);
    } else {
      var next: Stream := ArgsSplit(items[1..], cal) + close;
      NearArgs(items);
      ItemsBack(items[1..], rest, next, depth, cal);
      if IsBareTerm(items[0]) {
        BareItem(items, next, all, depth, cal);
        ItemBare(items, ParseItems(all, depth, cal), ParseItems(next, depth, cal), close);
      } else {
        TermBack(items[0], next, all, depth, cal);
        SplitStart(items[0], cal);
        assert all[0] == TermSplit(items[0], cal)[0];
        ItemUnfold(all, depth, cal);
        ItemWhole(items, ParseTerm(all, depth, cal), next, ParseItems(all, depth, cal), ParseItems(next, depth, cal),
                  close);
      }
    }
  }

  lemma ItemWhole(
      items: seq<Term>, term: Parsed<Term>, next: Stream, r: Parsed<seq<Term>>, more: Parsed<seq<Term>>, rest: Stream)
    requires items != [] && Gives(term, next, items[0], TermCarries(items[0]))
    requires Gives(more, rest, items[1..], ArgsCarry(items[1..]))
    requires r.Ok? ==> term.Ok? && (term.value.1 == next ==>
               more.Ok? && r == Ok(([term.value.0] + more.value.0, more.value.1)))
    ensures Gives(r, rest, items, ArgsCarry(items))
  {
    hide TermCarries;
    assert items == [items[0]] + items[1..];
    if r.Ok? {
      ConsEqual(term.value.0, items[0], more.value.0, items[1..]);
    }
  }

  lemma BareItem(items: seq<Term>, next: Stream, all: Stream, depth: int, cal: Calendar)
    requires items != [] && IsBareTerm(items[0]) && TermNear(items[0]) && all == TermSplit(items[0], cal) + next
    ensures ParseItems(all, depth, cal).Ok? ==>
              && ParseItems(next, depth, cal).Ok?
              && ParseItems(all, depth, cal).value.1 == ParseItems(next, depth, cal).value.1
              && ParseItems(all, depth, cal).value.0 != items
    ensures !ArgsCarry(items)
  {
    hide *;
    BareParts(items, cal);
    var s := items[0].entity;
    var left: Stream := [Symbol(s[Taken(s)..])] + next;
    assert all == [EntityName(s[..Taken(s)])] + left;
    LeafTerms(EntityName(s[..Taken(s)]), left, all, depth, cal);
    LeafTerms(Symbol(s[Taken(s)..]), next, left, depth, cal);
    ItemUnfold(all, depth, cal);
    ItemUnfold(left, depth, cal);
  }

  lemma {:induction false} NamedBack(
      named: seq<NamedArg>, inNamed: bool, rest: Stream, all: Stream, depth: int, cal: Calendar)
    requires NamedNear(named) && Lawful(cal) && depth <= MAX_PARSE_DEPTH
    requires all == NamedSplit(named, cal) + ([RParen] + rest)
    ensures var r := ParseArgs(all, inNamed, depth, cal);
            r.Ok? ==>
              && r.value.1 == [RParen] + rest && r.value.0.args == []
              && (r.value.0.named == named <==> NamedCarry(named))
    decreases named, 0
  {
    hide *;
    var close: Stream := [RParen] + rest;
    NamedSplitCons(named, cal, close);
    if named == [] {
      NamedEnd(close, inNamed, depth, cal);
    } else {
      var value, key := named[0].value, named[0].key;
      var next: Stream := NamedSplit(named[1..], cal) + close;
      var ts: Stream := TermSplit(value, cal) + next;
      NearNamed(named);
      assert all[0] == Keyword(key) && all[1..] == ts;
      NamedBack(named[1..], true, rest, next, depth, cal);
      KeywordUnfold(all, ts, inNamed, depth, cal);
      if IsBareTerm(value) {
        BareValue(value, next, ts, depth, cal);
      } else {
        TermBack(value, next, ts, depth, cal);
        TermGives(ParseTerm(ts, depth, cal), next, value);
        NamedWhole(named, ParseTerm(ts, depth, cal), next, ParseArgs(all, inNamed, depth, cal),
                   ParseArgs(next, true, depth, cal), close);
      }
    }
  }

  lemma NamedWhole(
      named: seq<NamedArg>, term: Parsed<Term>, next: Stream, r: Parsed<Arguments>, more: Parsed<Arguments>,
      rest: Stream)
    requires named != [] && Gives(term, next, named[0].value, TermCarries(named[0].value))
    requires more.Ok? ==>
               && more.value.1 == rest && more.value.0.args == []
               && (more.value.0.named == named[1..] <==> NamedCarry(named[1..]))
    requires r.Ok? ==> term.Ok? && (term.value.1 == next ==> more.Ok? && r == Ok((more.value.0.(
               named := [NamedArg(named[0].key, term.value.0)] + more.value.0.named), more.value.1)))
    ensures r.Ok? ==> r.value.1 == rest && r.value.0.args == [] && (r.value.0.named == named <==> NamedCarry(named))
  {
    hide TermCarries;
    assert named == [named[0]] + named[1..];
    if r.Ok? {
      ConsEqual(NamedArg(named[0].key, term.value.0), named[0], more.value.0.named, named[1..]);
    }
  }

  /** After the value of a named argument there is a symbol too many. */
  lemma BareValue(t: Term, next: Stream, ts: Stream, depth: int, cal: Calendar)
    requires IsBareTerm(t) && ts == TermSplit(t, cal) + next
    ensures ParseTerm(ts, depth, cal).Ok? && ParseArgs(ParseTerm(ts, depth, cal).value.1, true, depth, cal).Err?
  {
    var s := t.entity;
    var left: Stream := [Symbol(s[Taken(s)..])] + next;
    BareTokens(s, cal);
    assert ts == [EntityName(s[..Taken(s)])] + left;
    hide TermSplit, Taken, ParseTerm, IsEntityName;
    LeafTerms(EntityName(s[..Taken(s)]), left, ts, depth, cal);
    hide ParseArgs;
    ArgUnfold(left, depth, cal);
  }

  // ----- nodes -----

  /** Everything but the predicate of a node. */
  function OtherFields(n: Node, cal: Calendar): seq<Field> {
    [Field("valid", ValidityLexemes(n.validity, cal)), Field("src", ProvenanceLexemes(n.provenance))]
    + WeightFields(n) + DepsField(n) + NoteField(n)
  }

  lemma FieldsAre(n: Node, cal: Calendar)
    ensures FieldsOf(n, cal) == [Field("pred", PredicateLexemes(n.pred, cal))] + OtherFields(n, cal)
    ensures FieldsOf(n, cal)
         == ContentFields(n, cal) + WeightFields(n) + DepsField(n) + NoteField(n)
  {
    hide PredicateLexemes, ValidityLexemes, ProvenanceLexemes, WeightFields, DepsField, NoteField;
    var p := [Field("pred", PredicateLexemes(n.pred, cal))];
    var c := [Field("valid", ValidityLexemes(n.validity, cal)), Field("src", ProvenanceLexemes(n.provenance))];
    assert ContentFields(n, cal) == p + c;
    FieldsAssociate(p, c, WeightFields(n), DepsField(n), NoteField(n));
  }

  lemma FieldsAssociate(p: seq<Field>, c: seq<Field>, w: seq<Field>, d: seq<Field>, o: seq<Field>)
    ensures p + c + w + d + o == p + (c + w + d + o)
  {
  }

  /** A node with a predicate that fits in place of its own, to speak of its other fields. */
  function Plain(n: Node): Node {
    n.(pred := Predicate(Name("f"), [], []))
  }

  lemma PlainFits(n: Node)
    requires NodeRanges(n) && ProvenanceCarries(n.provenance)
    ensures NodeFits(Plain(n))
  {
    LettersAreSymbols("f");
    hide IsSymbol, PredicateNear, HeadsNamed, PredicateNesting, ProvenanceCarries, ProvenanceFits, Score.Normal,
      Score.InUnit, PermissionFits, IdsFit, Utf8.Valid;
    assert ArgsFit([]) && NamedFit([]);
  }

  lemma OtherFieldsSame(n: Node, cal: Calendar)
    ensures OtherFields(Plain(n), cal) == OtherFields(n, cal) && Plain(n).id == n.id
  {
  }

  lemma OthersSpelled(n: Node, cal: Calendar)
    requires NodeRanges(n) && ProvenanceCarries(n.provenance) && Lawful(cal)
    ensures AllFieldsSpelled(OtherFields(n, cal)) && IsSymbol(n.id)
  {
    hide *;
    PlainFits(n);
    FieldsOfSpelled(Plain(n), cal);
    FieldsAre(Plain(n), cal);
    OtherFieldsSame(n, cal);
    TailSpelled(Field("pred", PredicateLexemes(Plain(n).pred, cal)), OtherFields(n, cal));
    IdIsSymbol(n);
  }

  lemma IdIsSymbol(n: Node)
    requires NodeRanges(n)
    ensures IsSymbol(n.id) && PredicateNear(n.pred)
  {
    hide *;
    NodeRangesHas(n);
  }

  lemma NodeRangesHas(n: Node)
    requires NodeRanges(n)
    ensures IsSymbol(n.id) && PredicateNear(n.pred) && n.status == Active
    ensures n.confidence.Normal() && n.confidence.InUnit() && n.authority.Normal() && n.authority.InUnit()
    ensures PermissionFits(n.permissions)
  {
    hide IsSymbol, PredicateNear, HeadsNamed, PredicateNesting, ProvenanceCarries, ProvenanceFits, Score.Normal,
      Score.InUnit, PermissionFits, IdsFit, Utf8.Valid;
  }

  lemma TailSpelled(f: Field, fs: seq<Field>)
    requires AllFieldsSpelled([f] + fs)
    ensures AllFieldsSpelled(fs)
  {
    hide FieldSpelled;
    assert forall i :: 0 <= i < |fs| ==> ([f] + fs)[i + 1] == fs[i];
  }

  predicate AllFieldsNear(fs: seq<Field>) {
    forall i :: 0 <= i < |fs| ==> IsName(fs[i].key) && AllNear(fs[i].block)
  }

  lemma {:induction false} FieldsNear(pre: seq<Lexeme>, fs: seq<Field>)
    requires AllNear(pre) && AllFieldsNear(fs)
    ensures AllNear(AppendFields(pre, fs))
    decreases fs
  {
    if fs != [] {
      assert IsName(fs[0].key) && AllNear(fs[0].block);
      assert WellSpelled(Spelled(Keyword(fs[0].key)));
      hide NearSpelled;
      FieldsNear(AppendField(pre, fs[0]), fs[1..]);
    }
  }

  lemma PredThenOthersNear(n: Node, cal: Calendar)
    requires NodeRanges(n) && ProvenanceCarries(n.provenance) && Lawful(cal)
    ensures AllFieldsNear(FieldsOf(n, cal))
  {
    hide *;
    OthersSpelled(n, cal);
    IdIsSymbol(n);
    PredicateAllNear(n.pred, cal);
    FieldsAre(n, cal);
    LettersAreNames("pred");
    FieldsNearCons(Field("pred", PredicateLexemes(n.pred, cal)), OtherFields(n, cal));
  }

  lemma FieldsNearCons(f: Field, fs: seq<Field>)
    requires IsName(f.key) && AllNear(f.block) && AllFieldsSpelled(fs)
    ensures AllFieldsNear([f] + fs)
  {
    hide IsName, WellSpelled, AllNear;
    forall i | 0 <= i < |fs| ensures IsName(fs[i].key) && AllNear(fs[i].block) {
      assert FieldSpelled(fs[i]);
      WellNear(fs[i].block);
    }
  }

  lemma NodeNear(n: Node, cal: Calendar)
    requires NodeRanges(n) && ProvenanceCarries(n.provenance) && Lawful(cal)
    ensures AllNear(NodeLexemes(n, cal)) && NodeLexemes(n, cal) != []
  {
    hide *;
    PredThenOthersNear(n, cal);
    IdIsSymbol(n);
    HeaderSpelled(n.id);
    WellNear(NodeHeader(n.id));
    FieldsNear(NodeHeader(n.id), FieldsOf(n, cal));
    BracketsNear();
    NodeLexemesOf(n, cal);
    NearConcat(AppendFields(NodeHeader(n.id), FieldsOf(n, cal)), [Spelled(RParen)]);
  }

  // tokens

  function FieldsSplit(fs: seq<Field>): seq<Token> {
    if fs == [] then [] else [Keyword(fs[0].key)] + SplitAll(fs[0].block) + FieldsSplit(fs[1..])
  }

  lemma {:induction false} AppendFieldsSplit(pre: seq<Lexeme>, fs: seq<Field>)
    ensures SplitAll(AppendFields(pre, fs)) == SplitAll(pre) + FieldsSplit(fs)
    decreases fs
  {
    hide SplitAll;
    if fs != [] {
      var word := Spelled(Keyword(fs[0].key));
      SplitShort(word, word);
      AppendFieldsSplit(AppendField(pre, fs[0]), fs[1..]);
      SplitConcat(pre + [word], fs[0].block);
      SplitConcat(pre, [word]);
      var p, k, b, t := SplitAll(pre), [Keyword(fs[0].key)], SplitAll(fs[0].block), FieldsSplit(fs[1..]);
      assert p + k + b + t == p + (k + b + t);
    }
  }

  lemma {:induction false} SpelledSplit(fs: seq<Field>)
    requires AllFieldsSpelled(fs)
    ensures FieldsSplit(fs) == FieldsTokens(fs)
  {
    if fs != [] {
      assert FieldSpelled(fs[0]);
      assert forall i :: 0 <= i < |fs[1..]| ==> fs[1..][i] == fs[i + 1];
      hide IsName, WellSpelled;
      SplitWell(fs[0].block);
      SpelledSplit(fs[1..]);
    }
  }

  /** The tokens of a node's text up to its predicate and after it. */
  lemma NodeSplit(n: Node, rest: seq<Token>, cal: Calendar)
    requires NodeRanges(n) && ProvenanceCarries(n.provenance) && Lawful(cal)
    ensures SplitAll(NodeLexemes(n, cal)) + rest
         == [LParen] + ([Symbol("node")] + ([Symbol(n.id)]
            + ([Keyword("pred")]
               + (PredicateSplit(n.pred, cal) + (FieldsTokens(OtherFields(n, cal)) + ([RParen] + rest))))))
  {
    hide *;
    var close := Spelled(RParen);
    OthersSpelled(n, cal);
    SpelledSplit(OtherFields(n, cal));
    HeaderSplit(n.id);
    CloseSplit();
    NodeLexemesOf(n, cal);
    SplitConcat(AppendFields(NodeHeader(n.id), FieldsOf(n, cal)), [close]);
    AppendFieldsSplit(NodeHeader(n.id), FieldsOf(n, cal));
    FieldsAre(n, cal);
    FieldsSplitCons(Field("pred", PredicateLexemes(n.pred, cal)), OtherFields(n, cal));
    PredicateSplitIs(n.pred, cal);
    NodeAssociates(n.id, [Keyword("pred")], PredicateSplit(n.pred, cal), FieldsTokens(OtherFields(n, cal)), rest);
  }

  lemma NodeAssociates(id: Text, k: seq<Token>, p: seq<Token>, o: seq<Token>, rest: seq<Token>)
    ensures [LParen, Symbol("node"), Symbol(id)] + (k + p + o) + [RParen] + rest
         == [LParen] + ([Symbol("node")] + ([Symbol(id)] + (k + (p + (o + ([RParen] + rest))))))
  {
  }

  lemma PredicateSplitIs(p: Predicate, cal: Calendar)
    ensures SplitAll(PredicateLexemes(p, cal)) == PredicateSplit(p, cal)
  {
  }

  lemma FieldsSplitCons(f: Field, fs: seq<Field>)
    ensures FieldsSplit([f] + fs) == [Keyword(f.key)] + SplitAll(f.block) + FieldsSplit(fs)
  {
    hide SplitAll;
    assert ([f] + fs)[1..] == fs;
  }

  lemma HeaderSplit(id: Text)
    ensures SplitAll(NodeHeader(id)) == [LParen, Symbol("node"), Symbol(id)]
  {
    var ls := NodeHeader(id);
    SplitShort(ls[1], ls[2]);
    assert ls[1..] == [ls[1], ls[2]];
  }

  lemma CloseSplit()
    ensures SplitAll([Spelled(RParen)]) == [RParen]
  {
    SplitShort(Spelled(RParen), Spelled(RParen));
  }

  // parsing

  /** The fields after the predicate, read into fields that hold any predicate with named heads. */
  lemma OthersReadBack(n: Node, q: Predicate, all: Stream, close: Stream, cal: Calendar)
    requires NodeRanges(n) && Lawful(cal) && NamedPredicate(q) == q && close[0] == RParen
    requires all == FieldsTokens(OtherFields(n, cal)) + close
    ensures ParseFields(all, DEFAULT_FIELDS.(pred := Some(q)), 1, cal) == Ok((FieldsRead(n.(pred := q)), close))
  {
    hide *;
    var m := n.(pred := q);
    NodeRangesHas(n);
    var o: Stream := FieldsTokens(NoteField(m)) + close;
    var d: Stream := FieldsTokens(DepsField(m)) + o;
    var w: Stream := FieldsTokens(WeightFields(m)) + d;
    var f := DEFAULT_FIELDS.(pred := Some(q));
    var s: Stream := [Keyword("src")] + (TokensOf(ProvenanceLexemes(n.provenance)) + w);
    OtherTokens(n, q, close, cal);
    ValidityField(n.validity, f, s, cal);
    ProvenanceField(n.provenance, f.(validity := n.validity), s, w, cal);
    ContentIs(m, q);
    LaterFieldsReadBack(m, w, d, o, close, cal);
  }

  lemma ContentIs(m: Node, q: Predicate)
    requires m.pred == q && NamedPredicate(q) == q
    ensures WithContent(DEFAULT_FIELDS, m)
         == DEFAULT_FIELDS.(pred := Some(q)).(validity := m.validity).(provenance := m.provenance)
  {
    hide NamedPredicate;
  }

  lemma OtherTokens(n: Node, q: Predicate, close: seq<Token>, cal: Calendar)
    ensures FieldsTokens(OtherFields(n, cal)) + close
         == [Keyword("valid")] + (TokensOf(ValidityLexemes(n.validity, cal))
            + ([Keyword("src")] + (TokensOf(ProvenanceLexemes(n.provenance))
               + (FieldsTokens(WeightFields(n.(pred := q)))
                  + (FieldsTokens(DepsField(n.(pred := q))) + (FieldsTokens(NoteField(n.(pred := q))) + close))))))
  {
    hide *;
    var v, p := Field("valid", ValidityLexemes(n.validity, cal)), Field("src", ProvenanceLexemes(n.provenance));
    var w, d, o := WeightFields(n), DepsField(n), NoteField(n);
    OtherFieldsAre(n, q, cal);
    FieldsTokensConcat([v, p] + w + d, o);
    FieldsTokensConcat([v, p] + w, d);
    FieldsTokensConcat([v, p], w);
    var more := FieldsTokens(w) + (FieldsTokens(d) + (FieldsTokens(o) + close));
    FourAssociate(FieldsTokens([v, p]), FieldsTokens(w), FieldsTokens(d), FieldsTokens(o), close);
    assert [v] + [p] == [v, p] && [p] + [] == [p];
    FieldsTokensCons(v, [p], more);
    FieldsTokensCons(p, [], more);
    NoFields(more);
  }

  lemma FourAssociate(a: seq<Token>, b: seq<Token>, c: seq<Token>, d: seq<Token>, e: seq<Token>)
    ensures a + b + c + d + e == a + (b + (c + (d + e)))
  {
  }

  lemma OtherFieldsAre(n: Node, q: Predicate, cal: Calendar)
    ensures WeightFields(n.(pred := q)) == WeightFields(n) && DepsField(n.(pred := q)) == DepsField(n)
    ensures NoteField(n.(pred := q)) == NoteField(n)
    ensures OtherFields(n, cal)
         == [Field("valid", ValidityLexemes(n.validity, cal)), Field("src", ProvenanceLexemes(n.provenance))]
            + WeightFields(n) + DepsField(n) + NoteField(n)
  {
  }

  lemma FormBack(p: Predicate, rest: Stream, all: Stream, cal: Calendar)
    requires PredicateNear(p) && Lawful(cal) && all == PredicateSplit(p, cal) + rest
    ensures Gives(ParseForm(all, 1, cal), rest, p, Carries(p))
  {
    assert 2 <= MAX_PARSE_DEPTH;
    hide *;
    NearParts(p);
    PredicateSplitForm(p, cal, rest);
    var close: Stream := [RParen] + rest;
    var body: Stream := [Symbol(p.head.name)] + (ArgsSplit(p.args, cal) + (NamedSplit(p.named, cal) + close));
    BodyBack(p, rest, body, 2, cal);
    FormGives(p, rest, body, all, cal);
  }

  lemma FormGives(p: Predicate, rest: Stream, body: Stream, all: Stream, cal: Calendar)
    requires all == [LParen] + body && Gives(ParseBody(body, 2, cal), [RParen] + rest, p, Carries(p))
    ensures Gives(ParseForm(all, 1, cal), rest, p, Carries(p))
  {
    hide ParseBody, Carries;
    assert all[0] == LParen && all[1..] == body;
    assert ([RParen] + rest)[1..] == rest;
  }

  lemma PredFieldGives(value: Stream, all: Stream, f: Fields, cal: Calendar)
    requires all == [Keyword("pred")] + value
    ensures ParseForm(value, 1, cal).Err? ==> ParseFields(all, f, 1, cal).Err?
    ensures ParseForm(value, 1, cal).Ok? ==>
              ParseFields(all, f, 1, cal)
              == ParseFields(
                   ParseForm(value, 1, cal).value.1, f.(pred := Some(ParseForm(value, 1, cal).value.0)), 1, cal)
  {
    hide ParseForm;
    assert all[0] == Keyword("pred") && all[1..] == value;
  }

  /** A node whose predicate may not carry, with anything after it. */
  lemma NodeBack(n: Node, rest: Stream, all: Stream, cal: Calendar)
    requires NodeRanges(n) && ProvenanceCarries(n.provenance) && Lawful(cal) && AllTokensFit(all)
    requires all == SplitAll(NodeLexemes(n, cal)) + rest
    ensures AtNode(all) && Gives(ParseNode(all, 0, cal), rest, n, Carries(n.pred))
    ensures ParseNode(all, 0, cal).Ok? ==>
              ParseNode(all, 0, cal).value.0 == n.(pred := ParseNode(all, 0, cal).value.0.pred)
  {
    hide *;
    var close: Stream := [RParen] + rest;
    var others: Stream := FieldsTokens(OtherFields(n, cal)) + close;
    var value: Stream := PredicateSplit(n.pred, cal) + others;
    var fields: Stream := [Keyword("pred")] + value;
    NodeSplit(n, rest, cal);
    NodeRangesHas(n);
    FormBack(n.pred, others, value, cal);
    PredFieldGives(value, fields, DEFAULT_FIELDS, cal);
    AtNodeOf(n.id, fields, all);
    if ParseForm(value, 1, cal).Ok? {
      var q := ParseForm(value, 1, cal).value.0;
      FormGiven(ParseForm(value, 1, cal), others, n.pred, Carries(n.pred));
      FormNamed(value, all, cal);
      OthersReadBack(n, q, others, close, cal);
      OutcomeOf(true, FieldsRead(n.(pred := q)), close);
      NodeStep(n.id, all, fields, true, n.(pred := q), close, rest, cal);
      OutcomeOf(true, Carried(n.(pred := q)), rest);
      NodeGives(n, q, rest, ParseNode(all, 0, cal));
    } else {
      NodeFails(n.id, all, fields, cal);
      NothingGiven(ParseNode(all, 0, cal), rest, n, Carries(n.pred));
    }
  }

  lemma NothingGiven<T(!new)>(r: Parsed<T>, rest: Stream, value: T, whole: bool)
    requires r.Err?
    ensures Gives(r, rest, value, whole)
  {
  }

  lemma FormGiven<T(!new)>(r: Parsed<T>, rest: Stream, value: T, whole: bool)
    requires Gives(r, rest, value, whole) && r.Ok?
    ensures r.value.1 == rest && (r.value.0 == value <==> whole)
  {
  }

  lemma AtNodeOf(id: Text, fields: seq<Token>, all: Stream)
    requires all == [LParen] + ([Symbol("node")] + ([Symbol(id)] + fields))
    ensures AtNode(all)
  {
  }

  lemma FormNamed(value: Stream, all: Stream, cal: Calendar)
    requires AllTokensFit(all) && |value| <= |all| && value == all[|all| - |value|..] && ParseForm(value, 1, cal).Ok?
    ensures NamedPredicate(ParseForm(value, 1, cal).value.0) == ParseForm(value, 1, cal).value.0
  {
    assert AllTokensFit(value) by {
      hide TokenFits;
      assert forall i :: 0 <= i < |value| ==> value[i] == all[|all| - |value| + i];
    }
    assert 1 <= MAX_PARSE_DEPTH;
    hide *;
    FormRange(value, 1, cal);
    RangeNamed(ParseForm(value, 1, cal).value.0, 2);
    AlreadyNamed(ParseForm(value, 1, cal).value.0);
  }

  lemma RangeNamed(p: Predicate, depth: int)
    requires PredicateRanges(p, depth)
    ensures HeadsNamed(p)
  {
    hide HeadsNamed, PredicateNear, PredicateNesting;
  }

  lemma NodeFails(id: Text, all: Stream, fields: Stream, cal: Calendar)
    requires all == [LParen] + ([Symbol("node")] + ([Symbol(id)] + fields))
    requires ParseFields(fields, DEFAULT_FIELDS, 1, cal).Err?
    ensures ParseNode(all, 0, cal).Err?
  {
    hide Advance, ParseFields;
    AdvanceCons(Symbol(id), fields);
    AdvanceCons(Symbol("node"), [Symbol(id)] + fields);
    AdvanceCons(LParen, [Symbol("node")] + ([Symbol(id)] + fields));
  }

  lemma NodeGives(n: Node, q: Predicate, rest: Stream, r: Parsed<Node>)
    requires r == Ok((Carried(n.(pred := q)), rest)) && NamedPredicate(q) == q && n.status == Active
    requires q == n.pred <==> Carries(n.pred)
    ensures Gives(r, rest, n, Carries(n.pred)) && r.value.0 == n.(pred := r.value.0.pred)
  {
    hide NamedPredicate, Carries;
    assert Carried(n.(pred := q)) == n.(pred := q);
  }

  // ----- files of nodes -----

  ghost predicate AllRange(nodes: seq<Node>) {
    forall n <- nodes :: NodeRanges(n) && ProvenanceCarries(n.provenance)
  }

  ghost predicate AllCarry(nodes: seq<Node>) {
    forall n <- nodes :: Carries(n.pred)
  }

  function AllSplit(nodes: seq<Node>, cal: Calendar): seq<Token> {
    if nodes == [] then [] else SplitAll(NodeLexemes(nodes[0], cal)) + AllSplit(nodes[1..], cal)
  }

  lemma RangeCons(nodes: seq<Node>)
    requires nodes != []
    ensures AllRange(nodes) ==> NodeRanges(nodes[0]) && ProvenanceCarries(nodes[0].provenance) && AllRange(nodes[1..])
    ensures AllCarry(nodes) <==> Carries(nodes[0].pred) && AllCarry(nodes[1..])
  {
    hide NodeRanges, ProvenanceCarries, Carries;
    assert nodes == [nodes[0]] + nodes[1..];
  }

  lemma BeginsRest(all: Text, rest: Text, count: int)
    requires forall c :: LexFrom(all, c) == LexFrom(rest, c)
    ensures Begins(all, count, [], rest)
  {
    hide LexFrom;
  }

  lemma {:induction false} LexAllNear(nodes: seq<Node>, count: int, cal: Calendar)
    requires AllRange(nodes) && Lawful(cal)
    ensures Begins(AllText(nodes, cal), count, AllSplit(nodes, cal), "")
  {
    hide *;
    if nodes == [] {
      AllNothing(cal);
      SplitNothing(cal);
      BeginsRest("", "", count);
    } else {
      var ls, rest := NodeLexemes(nodes[0], cal), nodes[1..];
      RangeCons(nodes);
      AllCons(nodes, cal);
      SplitCons(nodes, cal);
      NodeNear(nodes[0], cal);
      NodeRender(nodes[0], cal);
      forall c ensures LexFrom("\n" + AllText(rest, cal), c) == LexFrom(AllText(rest, cal), c) {
        LineBreak(AllText(rest, cal), c);
      }
      LineBreak(AllText(rest, cal), 0);
      LexNear(ls, "", "\n" + AllText(rest, cal), count);
      assert "" + AllText(nodes, cal) == AllText(nodes, cal);
      var next := count + |SplitAll(ls)|;
      BeginsRest("\n" + AllText(rest, cal), AllText(rest, cal), next);
      NothingMore(SplitAll(ls));
      BeginsMore(AllText(nodes, cal), count, SplitAll(ls), "\n" + AllText(rest, cal), [], AllText(rest, cal));
      LexAllNear(rest, next, cal);
      BeginsMore(AllText(nodes, cal), count, SplitAll(ls), AllText(rest, cal), AllSplit(rest, cal), "");
    }
  }

  lemma SplitNothing(cal: Calendar)
    ensures AllSplit([], cal) == []
  {
  }

  lemma SplitCons(nodes: seq<Node>, cal: Calendar)
    requires nodes != []
    ensures AllSplit(nodes, cal) == SplitAll(NodeLexemes(nodes[0], cal)) + AllSplit(nodes[1..], cal)
  {
    hide SplitAll, NodeLexemes;
  }

  lemma NodesGive(
      nodes: seq<Node>, all: Stream, rest: Stream, cal: Calendar)
    requires nodes != [] && AtNode(all) && Gives(ParseNode(all, 0, cal), rest, nodes[0], Carries(nodes[0].pred))
    requires ParseNodes(rest, cal).Ok? ==> (ParseNodes(rest, cal).value == nodes[1..] <==> AllCarry(nodes[1..]))
    ensures ParseNodes(all, cal).Ok? ==> (ParseNodes(all, cal).value == nodes <==> AllCarry(nodes))
  {
    RangeCons(nodes);
    hide ParseNode, Carries, AllCarry;
    assert nodes == [nodes[0]] + nodes[1..];
    if ParseNodes(all, cal).Ok? {
      ConsEqual(ParseNode(all, 0, cal).value.0, nodes[0], ParseNodes(rest, cal).value, nodes[1..]);
    }
  }

  lemma {:induction false} NodesBack(nodes: seq<Node>, all: Stream, cal: Calendar)
    requires AllRange(nodes) && Lawful(cal) && AllTokensFit(all) && all == AllSplit(nodes, cal) + [Eof]
    ensures ParseNodes(all, cal).Ok? ==> (ParseNodes(all, cal).value == nodes <==> AllCarry(nodes))
  {
    hide *;
    if nodes == [] {
      SplitNothing(cal);
      assert all == [Eof];
      EmptyBack(cal);
    } else {
      var rest: Stream := AllSplit(nodes[1..], cal) + [Eof];
      RangeCons(nodes);
      SplitCons(nodes, cal);
      Associated(SplitAll(NodeLexemes(nodes[0], cal)), AllSplit(nodes[1..], cal), [Eof]);
      NodeBack(nodes[0], rest, all, cal);
      RestFits(all, rest, SplitAll(NodeLexemes(nodes[0], cal)));
      NodesBack(nodes[1..], rest, cal);
      NodesGive(nodes, all, rest, cal);
    }
  }

  lemma RestFits(all: seq<Token>, rest: seq<Token>, first: seq<Token>)
    requires AllTokensFit(all) && all == first + rest
    ensures AllTokensFit(rest)
  {
    hide TokenFits;
    assert forall i :: 0 <= i < |rest| ==> rest[i] == all[|first| + i];
  }

  lemma EmptyBack(cal: Calendar)
    ensures ParseNodes([Eof], cal) == Ok([]) && AllCarry([])
  {
  }

  /** What was parsed, written out and parsed again gives the same nodes only if all their leaves carry. */
  lemma ReparseNeedsCarry(src: Text, nodes: seq<Node>, cal: Calendar)
    requires Parse(src, cal) == Ok(nodes) && Lawful(cal) && forall n <- nodes :: ProvenanceCarries(n.provenance)
    requires Parse(AllText(nodes, cal), cal) == Ok(nodes)
    ensures AllCarry(nodes)
  {
    hide *;
    var text := AllText(nodes, cal);
    ParsedNodes(src, cal);
    AllRangeOf(nodes);
    ParsedTokens(text, cal);
    var all: Stream := LexFrom(text, 0).value;
    LexRange(text, 0);
    LexAllNear(nodes, 0, cal);
    LexNothing(0 + |AllSplit(nodes, cal)|);
    BeginsAll(text, AllSplit(nodes, cal));
    NodesBack(nodes, all, cal);
  }

  lemma BeginsAll(all: Text, tokens: seq<Token>)
    requires Begins(all, 0, tokens, "") && LexFrom("", 0 + |tokens|) == Ok([Eof]) && LexFrom(all, 0).Ok?
    ensures LexFrom(all, 0).value == tokens + [Eof]
  {
    hide LexFrom;
  }

  lemma AllRangeOf(nodes: seq<Node>)
    requires (forall n <- nodes :: NodeRanges(n)) && forall n <- nodes :: ProvenanceCarries(n.provenance)
    ensures AllRange(nodes)
  {
  }

  lemma ParsedTokens(src: Text, cal: Calendar)
    requires Parse(src, cal).Ok?
    ensures LexFrom(src, 0).Ok? && Parse(src, cal) == ParseNodes(LexFrom(src, 0).value, cal)
  {
    hide LexFrom, ParseNodes;
  }

  lemma OneNodeOnly(all: Stream, rest: Stream, cal: Calendar)
    requires AtNode(all) && ParseNodes(all, cal).Ok?
    ensures ParseNode(all, 0, cal).Ok? && ParseNodes(all, cal).value != []
    ensures ParseNode(all, 0, cal).value.0 == ParseNodes(all, cal).value[0]
  {
    hide ParseNode;
  }

  /** The node read from the text of one node: it differs at most in its predicate, and does unless its leaves carry. */
  lemma ReparseNode(n: Node, cal: Calendar)
    requires NodeRanges(n) && ProvenanceCarries(n.provenance) && Lawful(cal) && Parse(NodeText(n, cal), cal).Ok?
    ensures Parse(NodeText(n, cal), cal).value != []
    ensures Parse(NodeText(n, cal), cal).value[0].pred == n.pred ==> Carries(n.pred)
  {
    hide *;
    var text, ls := NodeText(n, cal), NodeLexemes(n, cal);
    ParsedTokens(text, cal);
    var all: Stream := LexFrom(text, 0).value;
    NodeNear(n, cal);
    NodeRender(n, cal);
    EndStops();
    LexNear(ls, "", "", 0);
    assert "" + (Render(ls) + "") == text;
    LexNothing(0 + |SplitAll(ls)|);
    BeginsAll(text, SplitAll(ls));
    LexRange(text, 0);
    NodeBack(n, [Eof], all, cal);
    OneNodeOnly(all, [Eof], cal);
    SamePred(n, ParseNode(all, 0, cal), [Eof], Carries(n.pred));
  }

  lemma SamePred(n: Node, r: Parsed<Node>, rest: Stream, whole: bool)
    requires r.Ok? && Gives(r, rest, n, whole) && r.value.0 == n.(pred := r.value.0.pred)
    ensures r.value.0.pred == n.pred ==> whole
  {
  }

  lemma EndStops()
    ensures Stops("")
  {
  }

  /** The tokens read for a whole predicate text after its opening parenthesis. */
  function BodySplit(p: Predicate, cal: Calendar): (ts: Stream)
    requires p.head.Name?
    ensures ts == [Symbol(p.head.name)]
                  + (ArgsSplit(p.args, cal) + (NamedSplit(p.named, cal) + ([RParen] + [Eof])))
  {
    var close: Stream := [RParen] + [Eof];
    var named: Stream := NamedSplit(p.named, cal) + close;
    var args: Stream := ArgsSplit(p.args, cal) + named;
    [Symbol(p.head.name)] + args
  }

  lemma PredicateReread(p: Predicate, cal: Calendar)
    requires PredicateNear(p) && Lawful(cal) && ParsePredicate(PredicateText(p, cal), cal).Ok?
    ensures TokensOfSource(PredicateText(p, cal)) == Ok([LParen] + BodySplit(p, cal))
  {
    hide *;
    var text, ls := PredicateText(p, cal), PredicateLexemes(p, cal);
    PredicateAllNear(p, cal);
    PredicateRender(p, cal);
    BlockNotEmpty(ls);
    EndStops();
    LexNear(ls, "", "", 0);
    assert "" + (Render(ls) + "") == text;
    LexNothing(0 + |SplitAll(ls)|);
    PredicateLexed(text, cal);
    BeginsAll(text, SplitAll(ls));
    PredicateSplitIs(p, cal);
    NearParts(p);
    PredicateSplitForm(p, cal, [Eof]);
  }

  /** What `parse_predicate` makes of a printed predicate: itself only if its leaves carry. */
  lemma ReparsePredicate(p: Predicate, cal: Calendar)
    requires PredicateNear(p) && Lawful(cal) && ParsePredicate(PredicateText(p, cal), cal) == Ok(p)
    ensures Carries(p)
  {
    assert 1 <= MAX_PARSE_DEPTH;
    hide *;
    NearParts(p);
    PredicateReread(p, cal);
    BodyBack(p, [Eof], BodySplit(p, cal), 1, cal);
    BodyGiven(PredicateText(p, cal), BodySplit(p, cal), cal);
    FormGiven(ParseBody(BodySplit(p, cal), 1, cal), [RParen] + [Eof], p, Carries(p));
  }

  lemma BlockNotEmpty(ls: seq<Lexeme>)
    requires IsBlock(ls)
    ensures ls != []
  {
  }

  lemma PredicateLexed(src: Text, cal: Calendar)
    requires ParsePredicate(src, cal).Ok?
    ensures LexFrom(src, 0).Ok? && TokensOfSource(src) == Ok(LexFrom(src, 0).value)
  {
    hide LexFrom, ParseBody;
  }

  lemma BodyGiven(src: Text, body: Stream, cal: Calendar)
    requires ParsePredicate(src, cal).Ok? && TokensOfSource(src) == Ok([LParen] + body)
    ensures ParseBody(body, 1, cal).Ok? && ParseBody(body, 1, cal).value.0 == ParsePredicate(src, cal).value
  {
    hide TokensOfSource, ParseBody;
    var all: Stream := [LParen] + body;
    assert all[0] == LParen && all[1..] == body;
  }
}
