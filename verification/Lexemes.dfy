/** Token spellings: the lexer inverts every well-formed sequence of spelled tokens, whatever produced it. */
module Lexemes {
  import opened Types
  import opened Decimal
  import opened Lexer
  import opened Serialize
  import Utf8

  /** A token with the bytes that spell it. */
  datatype Lexeme = Lexeme(text: Text, token: Token)

  predicate Opens(l: Lexeme) {
    l.token == LParen || l.token == LBracket
  }

  predicate Closes(l: Lexeme) {
    l.token == RParen || l.token == RBracket
  }

  function Gap(left: Lexeme, right: Lexeme): (gap: Text)
    ensures gap == "" || gap == " "
  {
    if Opens(left) || Closes(right) then "" else " "
  }

  /** Spelled tokens with one space between neighbours, none inside brackets. */
  function Render(ls: seq<Lexeme>): Text {
    if ls == [] then []
    else if |ls| == 1 then ls[0].text
    else ls[0].text + Gap(ls[0], ls[1]) + Render(ls[1..])
  }

  function TokensOf(ls: seq<Lexeme>): (ts: seq<Token>)
    ensures |ts| == |ls|
  {
    if ls == [] then [] else [ls[0].token] + TokensOf(ls[1..])
  }

  lemma TokensOfCons(l: Lexeme, tail: seq<Lexeme>)
    ensures TokensOf([l] + tail) == [l.token] + TokensOf(tail)
  {
    assert ([l] + tail)[1..] == tail;
  }

  lemma {:induction false} TokensOfConcat(a: seq<Lexeme>, b: seq<Lexeme>)
    ensures TokensOf(a + b) == TokensOf(a) + TokensOf(b)
  {
    if a == [] {
      assert a + b == b;
    } else {
      hide *;
      var l, tail := a[0], a[1..];
      assert a == [l] + tail && a + b == [l] + (tail + b);
      TokensOfConcat(tail, b);
      TokensOfCons(l, tail);
      TokensOfCons(l, tail + b);
    }
  }

  lemma RenderOne(l: Lexeme)
    ensures Render([l]) == l.text
  {
  }

  lemma RenderCons(l: Lexeme, b: seq<Lexeme>)
    requires b != []
    ensures Render([l] + b) == l.text + (Gap(l, b[0]) + Render(b))
  {
    hide Gap;
    var ls := [l] + b;
    assert ls[1..] == b && ls[0] == l && ls[1] == b[0];
    RenderMore(ls);
    hide Render;
    assert l.text + Gap(l, b[0]) + Render(b) == l.text + (Gap(l, b[0]) + Render(b));
  }

  lemma RenderMore(ls: seq<Lexeme>)
    requires |ls| > 1
    ensures Render(ls) == ls[0].text + Gap(ls[0], ls[1]) + Render(ls[1..])
  {
    hide Gap;
  }

  lemma {:induction false} RenderConcat(a: seq<Lexeme>, b: seq<Lexeme>)
    requires a != [] && b != []
    ensures Render(a + b) == Render(a) + Gap(a[|a| - 1], b[0]) + Render(b)
  {
    hide *;
    var l, tail := a[0], a[1..];
    assert a == [l] + tail;
    if tail == [] {
      assert a + b == [l] + b && a == [l];
      RenderOne(l);
      RenderCons(l, b);
    } else {
      assert a + b == [l] + (tail + b);
      assert (tail + b)[0] == tail[0] && tail[|tail| - 1] == a[|a| - 1];
      RenderConcat(tail, b);
      RenderCons(l, tail);
      RenderCons(l, tail + b);
    }
  }

  // ----- well-formed spellings -----

  predicate AllIn(s: Text, charClass: CharClass) {
    forall i :: 0 <= i < |s| ==> InClass(s[i], charClass)
  }

  predicate IsName(s: Text) {
    s != [] && Utf8.Valid(s) && AllIn(s, NameChars)
  }

  predicate IsEntityName(s: Text) {
    s != [] && Utf8.Valid(s) && AllIn(s, EntityChars)
  }

  /** Lexes as one symbol: no delimiter in it, and it does not start like a number. */
  predicate IsSymbol(s: Text) {
    s != [] && Utf8.Valid(s) && !StartsNumber(s) && AllIn(s, SymbolChars)
  }

  predicate IsUri(s: Text) {
    Utf8.Valid(s) && AllIn(s, UriChars)
  }

  /** Can stand between quotes as it is. */
  predicate IsPlain(s: Text) {
    Utf8.Valid(s) && forall i :: 0 <= i < |s| ==> s[i] != '"' && s[i] != '\\'
  }

  /** Can stand inside `#date(...)`. */
  predicate IsParenText(s: Text) {
    forall i :: 0 <= i < |s| ==> Utf8.IsAscii(s[i]) && s[i] != ')'
  }

  predicate IsNumber(s: Text) {
    StartsNumber(s) && NumberLength(s) == |s|
  }

  predicate WellSpelled(l: Lexeme) {
    match l.token
    case LParen => l.text == "("
    case RParen => l.text == ")"
    case LBracket => l.text == "["
    case RBracket => l.text == "]"
    case Symbol(s) => l.text == s && IsSymbol(s)
    case Variable(s) => l.text == "?" + s && IsName(s)
    case Keyword(s) => l.text == ":" + s && IsName(s)
    case QuotedText(s) => (l.text == Quote(Escape(s)) && Utf8.Valid(s)) || (l.text == Quote(s) && IsPlain(s))
    case Number(s) => l.text == s && IsNumber(s)
    case DateText(s) => l.text == "#date(" + s + ")" && IsParenText(s)
    case DurationText(s) => l.text == "#dur(" + s + ")" && IsParenText(s)
    case Flag(b) => l.text == if b then "#t" else "#f"
    case UriText(s) => l.text == "<" + s + ">" && IsUri(s)
    case EntityName(s) => l.text == "@" + s && IsEntityName(s)
    case Eof => false
  }

  predicate AllWellSpelled(ls: seq<Lexeme>) {
    forall i :: 0 <= i < |ls| ==> WellSpelled(ls[i])
  }

  /** What may follow a token that is not an opening bracket. */
  predicate Stops(rest: Text) {
    || rest == [] || rest[0] == ' ' || rest[0] == '\t' || rest[0] == '\r' || rest[0] == '\n' || rest[0] == ';'
    || rest[0] == ')' || rest[0] == ']'
  }

  // ----- the scanning loops on spelled text -----

  /** One well-formed character. */
  predicate IsPiece(piece: Text) {
    piece != [] && Utf8.IsOneChar(piece) && Utf8.Width(piece[0]) == |piece|
  }

  /** The first character of a Rust string and what follows it. */
  lemma FirstChar(s: Text) returns (piece: Text, tail: Text)
    requires s != [] && Utf8.Valid(s)
    ensures s == piece + tail && IsPiece(piece) && piece != [] && s[0] == piece[0]
    ensures |tail| < |s| && Utf8.Valid(tail)
  {
    var w := Utf8.Width(s[0]);
    piece, tail := s[..w], s[w..];
  }

  lemma PieceOff(piece: Text, tail: Text)
    requires IsPiece(piece)
    ensures var s := piece + tail;
            && s != [] && 0 < |piece| && s[0] == piece[0] && s[..|piece|] == piece && s[|piece|..] == tail
            && Utf8.ReadChar(s) == Ok(|piece|) && ReadChar(s) == Ok(|piece|)
  {
    var s := piece + tail;
    assert s[..|piece|] == piece;
  }

  lemma RunStep(piece: Text, tail: Text, charClass: CharClass)
    requires IsPiece(piece) && InClass(piece[0], charClass)
    ensures Run(piece + tail, charClass) == Further(|piece|, Run(tail, charClass))
  {
    hide *;
    PieceOff(piece, tail);
    var s := piece + tail;
    RunUnfold(s, |piece|, charClass);
  }

  lemma FurtherOk(k: nat, n: nat)
    ensures Further(k, Ok(n)) == Ok(k + n)
  {
  }

  lemma AllInSplit(piece: Text, tail: Text, charClass: CharClass)
    requires piece != [] && AllIn(piece + tail, charClass)
    ensures AllIn(piece, charClass) && InClass(piece[0], charClass) && AllIn(tail, charClass)
  {
    hide InClass;
    var s := piece + tail;
    assert forall i :: 0 <= i < |piece| ==> s[i] == piece[i];
    assert forall i :: 0 <= i < |tail| ==> s[|piece| + i] == tail[i];
  }

  lemma {:induction false} RunExact(s: Text, rest: Text, charClass: CharClass)
    requires Utf8.Valid(s) && AllIn(s, charClass)
    requires rest == [] || !InClass(rest[0], charClass)
    ensures Run(s + rest, charClass) == Ok(|s|)
    decreases |s|
  {
    hide *;
    if s == [] {
      RunNone(rest, charClass);
      assert s + rest == rest;
    } else {
      var piece, tail := FirstChar(s);
      AllInSplit(piece, tail, charClass);
      RunExact(tail, rest, charClass);
      RunStep(piece, tail + rest, charClass);
      FurtherOk(|piece|, |tail|);
      assert s + rest == piece + (tail + rest);
    }
  }

  lemma EscapeCons(c: char, b: Text)
    ensures Escape([c] + b) == EscapeByte(c) + Escape(b)
  {
    assert ([c] + b)[1..] == b;
  }

  lemma {:induction false} EscapeConcat(a: Text, b: Text)
    ensures Escape(a + b) == Escape(a) + Escape(b)
  {
    if a == [] {
      assert a + b == b;
    } else {
      hide *;
      var c, tail := a[0], a[1..];
      assert a == [c] + tail && a + b == [c] + (tail + b);
      EscapeConcat(tail, b);
      EscapeCons(c, tail);
      EscapeCons(c, tail + b);
    }
  }

  lemma {:induction false} EscapePlain(s: Text)
    requires forall i :: 0 <= i < |s| ==> EscapeByte(s[i]) == [s[i]]
    ensures Escape(s) == s
  {
    if s != [] {
      EscapePlain(s[1..]);
    }
  }

  /** Reading one character of a string literal that stands for itself. */
  lemma StringBodyStep(piece: Text, tail: Text)
    requires IsPiece(piece) && piece[0] != '"' && piece[0] != '\\'
    ensures StringBody(piece + tail) == Then(piece, |piece|, StringBody(tail))
  {
    hide *;
    PieceOff(piece, tail);
    StringBodyUnfold(piece + tail, |piece|);
  }

  lemma EscapeNone()
    ensures Escape([]) == []
  {
  }

  lemma StringBodyEscaped(c: char, tail: Text)
    requires EscapeByte(c) != [c]
    ensures StringBody(EscapeByte(c) + tail) == Then([c], |EscapeByte(c)|, StringBody(tail))
  {
    EscapeForm(c);
    hide EscapeByte, Unescape, StringBody;
    var s := EscapeByte(c) + tail;
    assert s[2..] == tail && s[0] == EscapeByte(c)[0] && s[1] == EscapeByte(c)[1];
    StringBodyEscape(s);
  }

  lemma EscapeForm(c: char)
    requires EscapeByte(c) != [c]
    ensures |EscapeByte(c)| == 2 && EscapeByte(c)[0] == '\\' && Unescape(EscapeByte(c)[1]) == [c]
  {
  }

  lemma StringBodyEnd(rest: Text)
    ensures StringBody("\"" + rest) == Ok(([], 1))
  {
  }

  lemma EscapedPiece(piece: Text, after: Text)
    requires IsPiece(piece)
    ensures StringBody(Escape(piece) + after) == Then(piece, |Escape(piece)|, StringBody(after))
  {
    if EscapeByte(piece[0]) == [piece[0]] {
      EscapePlain(piece);
      hide *;
      StringBodyStep(piece, after);
    } else {
      EscapeCons(piece[0], []);
      assert piece == [piece[0]] && piece == [piece[0]] + [];
      assert Escape([]) == [] && EscapeByte(piece[0]) + [] == EscapeByte(piece[0]);
      hide *;
      StringBodyEscaped(piece[0], after);
    }
  }

  lemma {:induction false} EscapedBody(s: Text, rest: Text)
    requires Utf8.Valid(s)
    ensures StringBody(Escape(s) + ("\"" + rest)) == Ok((s, |Escape(s)| + 1))
    decreases |s|
  {
    hide *;
    if s == [] {
      StringBodyEnd(rest);
      EscapeNone();
      assert Escape(s) + ("\"" + rest) == "\"" + rest;
    } else {
      var piece, tail := FirstChar(s);
      EscapedBody(tail, rest);
      EscapeConcat(piece, tail);
      EscapedPiece(piece, Escape(tail) + ("\"" + rest));
      ThenOk(piece, |Escape(piece)|, tail, |Escape(tail)| + 1);
      assert Escape(s) + ("\"" + rest) == Escape(piece) + (Escape(tail) + ("\"" + rest));
    }
  }

  lemma {:induction false} PlainBody(s: Text, rest: Text)
    requires IsPlain(s)
    ensures StringBody(s + ("\"" + rest)) == Ok((s, |s| + 1))
    decreases |s|
  {
    hide *;
    PlainValid(s);
    if s == [] {
      StringBodyEnd(rest);
      assert s + ("\"" + rest) == "\"" + rest;
    } else {
      var piece, tail := FirstChar(s);
      PlainTail(piece, tail);
      PlainBody(tail, rest);
      StringBodyStep(piece, tail + ("\"" + rest));
      ThenOk(piece, |piece|, tail, |tail| + 1);
      assert s + ("\"" + rest) == piece + (tail + ("\"" + rest));
    }
  }

  lemma PlainValid(s: Text)
    requires IsPlain(s)
    ensures Utf8.Valid(s)
  {
  }

  lemma PlainTail(piece: Text, tail: Text)
    requires IsPlain(piece + tail) && piece != [] && Utf8.Valid(tail)
    ensures IsPlain(tail) && piece[0] != '"' && piece[0] != '\\'
  {
    var s := piece + tail;
    assert s[0] == piece[0];
    assert forall i :: 0 <= i < |tail| ==> s[|piece| + i] == tail[i];
  }

  lemma {:induction false} ParenBodyExact(s: Text, rest: Text)
    requires IsParenText(s)
    ensures ParenBody(s + ")" + rest) == (s, |s| + 1)
  {
    if s == [] {
      assert s + ")" + rest == ")" + rest;
    } else {
      ParenBodyExact(s[1..], rest);
      assert (s + ")" + rest)[1..] == s[1..] + ")" + rest;
      assert s == [s[0]] + s[1..];
    }
  }

  /** A digit run is not changed by text that does not start with a digit. */
  lemma {:induction false} DigitRunFollowed(s: Text, rest: Text)
    requires rest == [] || !IsDigit(rest[0])
    ensures DigitRun(s + rest) == DigitRun(s)
  {
    if s == [] {
      assert s + rest == rest;
    } else {
      DigitRunFollowed(s[1..], rest);
      assert (s + rest)[1..] == s[1..] + rest;
    }
  }

  /** `NumberLength` from the two digit runs. */
  lemma NumberFollowed(s: Text, rest: Text)
    requires IsNumber(s) && Stops(rest)
    ensures StartsNumber(s + rest) && NumberLength(s + rest) == |s|
  {
    var sign := if s[0] == '-' then 1 else 0;
    DigitRunWithin(s, rest, sign);
    var whole := sign + DigitRun(s[sign..]);
    hide DigitRun;
    if whole < |s| {
      DigitRunWithin(s, rest, whole + 1);
    }
  }

  lemma DigitRunWithin(s: Text, rest: Text, at: nat)
    requires at <= |s| && Stops(rest)
    ensures DigitRun((s + rest)[at..]) == DigitRun(s[at..])
  {
    hide DigitRun;
    DigitRunFollowed(s[at..], rest);
    assert (s + rest)[at..] == s[at..] + rest;
  }

  // ----- one token -----

  lemma LexNameExact(lead: char, name: Text, rest: Text, charClass: CharClass, missing: LexError)
    requires name != [] && Utf8.Valid(name) && AllIn(name, charClass)
    requires rest == [] || !InClass(rest[0], charClass)
    ensures LexName([lead] + name + rest, charClass, missing) == Ok((name, |name| + 1))
  {
    hide Utf8.Valid, InClass, Run;
    RunExact(name, rest, charClass);
    var s := [lead] + name + rest;
    assert s == [lead] + (name + rest);
    assert s[1..] == name + rest && s[1..|name| + 1] == name;
  }

  lemma NextName(l: Lexeme, rest: Text)
    requires WellSpelled(l) && Stops(rest)
    requires l.token.Variable? || l.token.Keyword? || l.token.EntityName?
    ensures Next(l.text + rest) == Ok((l.token, |l.text|))
  {
    var name := l.token.text;
    hide Utf8.Valid, LexName;
    match l.token
    case Variable(_) => LexNameExact('?', name, rest, NameChars, VariableNameExpected);
    case Keyword(_) => LexNameExact(':', name, rest, NameChars, KeywordNameExpected);
    case EntityName(_) => LexNameExact('@', name, rest, EntityChars, EntityNameExpected);
    case _ =>
  }

  lemma NextSymbol(l: Lexeme, rest: Text)
    requires WellSpelled(l) && Stops(rest) && l.token.Symbol?
    ensures Next(l.text + rest) == Ok((l.token, |l.text|))
  {
    RunExact(l.text, rest, SymbolChars);
    assert (l.text + rest)[..|l.text|] == l.text;
  }

  lemma NextUri(l: Lexeme, rest: Text)
    requires WellSpelled(l) && l.token.UriText?
    ensures Next(l.text + rest) == Ok((l.token, |l.text|))
  {
    var uri := l.token.text;
    var s := l.text + rest;
    hide Utf8.Valid, AllIn, Run;
    RunExact(uri, ">" + rest, UriChars);
    AngleText(uri, rest);
  }

  lemma AngleText(uri: Text, rest: Text)
    ensures var s := "<" + uri + ">" + rest; s[1..] == uri + (">" + rest) && s[1..|uri| + 1] == uri
  {
  }

  lemma NextQuoted(l: Lexeme, rest: Text)
    requires WellSpelled(l) && l.token.QuotedText?
    ensures Next(l.text + rest) == Ok((l.token, |l.text|))
  {
    hide Escape, StringBody, Utf8.Valid;
    var text := l.token.text;
    var s := l.text + rest;
    if l.text == Quote(Escape(text)) && Utf8.Valid(text) {
      EscapedBody(text, rest);
      assert s[1..] == Escape(text) + ("\"" + rest);
    } else {
      PlainBody(text, rest);
      assert s[1..] == text + ("\"" + rest);
    }
  }

  lemma NextNumber(l: Lexeme, rest: Text)
    requires WellSpelled(l) && Stops(rest) && l.token.Number?
    ensures Next(l.text + rest) == Ok((l.token, |l.text|))
  {
    NumberFollowed(l.text, rest);
    assert (l.text + rest)[..|l.text|] == l.text;
  }

  lemma NextHash(l: Lexeme, rest: Text)
    requires WellSpelled(l) && (l.token.Flag? || l.token.DateText? || l.token.DurationText?)
    ensures Next(l.text + rest) == Ok((l.token, |l.text|))
  {
    hide ParenBody, StringBody, IsParenText, IsSymbol, IsName, IsEntityName, IsPlain, IsUri, IsNumber, Escape,
      Utf8.Valid, LexName, LexUri, LexSymbol, LexNumber, StartsNumber;
    match l.token
    case Flag(b) =>
      assert (l.text + rest)[..2] == l.text;
    case DateText(text) =>
      HashBody("#date(", text, rest);
      assert "#date(" == "#date" + "(";
      PrefixOfPrefix(l.text + rest, "#date", "(");
    case DurationText(text) =>
      HashBody("#dur(", text, rest);
      assert "#dur(" == "#dur" + "(";
      PrefixOfPrefix(l.text + rest, "#dur", "(");
    case _ =>
  }

  lemma PrefixOfPrefix(s: Text, prefix: Text, more: Text)
    requires StartsWith(s, prefix + more)
    ensures StartsWith(s, prefix)
  {
    assert s[..|prefix|] == s[..|prefix + more|][..|prefix|];
    assert (prefix + more)[..|prefix|] == prefix;
  }

  lemma HashBody(prefix: Text, text: Text, rest: Text)
    requires IsParenText(text) && |prefix| > 2
    ensures var s := prefix + text + ")" + rest;
            && s[0] == prefix[0] && s[1] == prefix[1] && s[2] == prefix[2] && StartsWith(s, prefix)
            && ParenBody(s[|prefix|..]) == (text, |text| + 1)
  {
    ParenBodyExact(text, rest);
    assert (prefix + text + ")" + rest)[|prefix|..] == text + ")" + rest;
  }

  /** The lexer reads back any well-spelled token, given what may follow it. */
  lemma NextSpelled(l: Lexeme, rest: Text)
    requires WellSpelled(l) && (Opens(l) || Stops(rest))
    ensures Next(l.text + rest) == Ok((l.token, |l.text|)) && l.text != []
  {
    hide Next;
    match l.token
    case LParen => NextBracket(l, rest);
    case RParen => NextBracket(l, rest);
    case LBracket => NextBracket(l, rest);
    case RBracket => NextBracket(l, rest);
    case Symbol(_) => NextSymbol(l, rest);
    case Variable(_) => NextName(l, rest);
    case Keyword(_) => NextName(l, rest);
    case EntityName(_) => NextName(l, rest);
    case QuotedText(_) => NextQuoted(l, rest);
    case Number(_) => NextNumber(l, rest);
    case UriText(_) => NextUri(l, rest);
    case DateText(_) => NextHash(l, rest);
    case DurationText(_) => NextHash(l, rest);
    case Flag(_) => NextHash(l, rest);
    case Eof =>
  }

  lemma NextBracket(l: Lexeme, rest: Text)
    requires WellSpelled(l) && (Opens(l) || Closes(l))
    ensures Next(l.text + rest) == Ok((l.token, 1))
  {
  }

  // ----- a whole text -----

  /** No token starts like white space or a comment. */
  lemma StartsVisibly(l: Lexeme)
    requires WellSpelled(l)
    ensures l.text != [] && !IsBlank(l.text[0]) && l.text[0] != ';'
  {
    hide StartsNumber, Utf8.Valid;
    match l.token
    case Symbol(s) => SymbolStart(s);
    case Number(s) => NumberStart(s);
    case _ =>
  }

  lemma SymbolStart(s: Text)
    requires IsSymbol(s)
    ensures InClass(s[0], SymbolChars)
  {
  }

  lemma NumberStart(s: Text)
    requires IsNumber(s)
    ensures s != [] && (IsDigit(s[0]) || s[0] == '-')
  {
    hide NumberLength;
  }

  lemma SkipNone(s: Text)
    requires s != [] && !IsBlank(s[0]) && s[0] != ';'
    ensures Skip(s) == 0 && Skip(" " + s) == 1
  {
    assert (" " + s)[1..] == s;
  }

  /** What lexing gives when these tokens come before what the rest gives. */
  function Prefixed(tokens: seq<Token>, rest: Lexed<seq<Token>>): Lexed<seq<Token>> {
    match rest
    case Ok(more) => Ok(tokens + more)
    case Err(e) => Err(e)
  }

  /** Reading one spelled token off a text. */
  lemma LexFromCons(l: Lexeme, gap: Text, rest: Text, count: int)
    requires WellSpelled(l) && (Opens(l) || Stops(rest)) && count < MAX_TOKENS
    requires gap == "" || gap == " "
    ensures LexFrom(gap + (l.text + rest), count) == Prefixed([l.token], LexFrom(rest, count + 1))
  {
    hide Next, WellSpelled, Skip;
    NextSpelled(l, rest);
    StartsVisibly(l);
    SkipNone(l.text + rest);
    var s := gap + (l.text + rest);
    assert gap == "" ==> s == l.text + rest;
    assert s[Skip(s)..] == l.text + rest;
    assert (l.text + rest)[|l.text|..] == rest;
  }

  /** Lexing a rendered text reads its tokens off whatever may follow it. */
  lemma {:induction false} LexThen(ls: seq<Lexeme>, gap: Text, after: Text, count: int)
    requires AllWellSpelled(ls) && ls != [] && count + |ls| <= MAX_TOKENS && Stops(after)
    requires gap == "" || gap == " "
    ensures LexFrom(gap + (Render(ls) + after), count) == Prefixed(TokensOf(ls), LexFrom(after, count + |ls|))
    decreases |ls|
  {
    hide *;
    var l, tail := ls[0], ls[1..];
    assert ls == [l] + tail;
    WellSpelledSplit(l, tail);
    TokensOfCons(l, tail);
    var rest := RenderFirst(l, tail);
    TextAssociates(l.text, rest, after);
    PrefixedTwo(l.token, TokensOf(tail), LexFrom(after, count + |ls|));
    if tail == [] {
      NothingRendered();
      assert "" + after == after;
      LexFromCons(l, gap, after, count);
    } else {
      LexThen(tail, Gap(l, tail[0]), after, count + 1);
      TextAssociates(Gap(l, tail[0]), Render(tail), after);
      GapStops(l, tail);
      StopsMore(rest, after);
      LexFromCons(l, gap, rest + after, count);
    }
  }

  lemma TextAssociates(a: Text, b: Text, c: Text)
    ensures a + b + c == a + (b + c)
  {
  }

  lemma StopsMore(rest: Text, after: Text)
    ensures Stops(rest) && Stops(after) ==> Stops(rest + after)
  {
  }

  lemma NothingRendered()
    ensures Render([]) == "" && TokensOf([]) == []
  {
  }

  lemma PrefixedTwo(t: Token, tokens: seq<Token>, rest: Lexed<seq<Token>>)
    ensures Prefixed([t], Prefixed(tokens, rest)) == Prefixed([t] + tokens, rest)
    ensures Prefixed([t] + [], rest) == Prefixed([t], rest)
    ensures Prefixed([t], Err(TooManyTokens)) == Err(TooManyTokens)
  {
    assert rest.Ok? ==> [t] + (tokens + rest.value) == [t] + tokens + rest.value;
    assert [t] + [] == [t];
  }

  /** Lexing undoes rendering, for every sequence of well-spelled tokens up to the token limit. */
  lemma LexRender(ls: seq<Lexeme>, count: int)
    requires AllWellSpelled(ls) && count + |ls| <= MAX_TOKENS
    ensures LexFrom(Render(ls), count) == Ok(TokensOf(ls) + [Eof])
  {
    hide LexFrom, Render, TokensOf, AllWellSpelled;
    LexNothing(count + |ls|);
    NothingRendered();
    if ls != [] {
      LexThen(ls, "", "", count);
      assert "" + (Render(ls) + "") == Render(ls);
    }
  }

  lemma LexFromFull(l: Lexeme, gap: Text, rest: Text, count: int)
    requires WellSpelled(l) && count >= MAX_TOKENS
    requires gap == "" || gap == " "
    ensures LexFrom(gap + (l.text + rest), count) == Err(TooManyTokens)
  {
    hide Next, WellSpelled, Skip;
    StartsVisibly(l);
    SkipNone(l.text + rest);
    var s := gap + (l.text + rest);
    assert gap == "" ==> s == l.text + rest;
    assert s[Skip(s)..] == l.text + rest;
  }

  lemma RenderFirst(l: Lexeme, tail: seq<Lexeme>) returns (rest: Text)
    ensures Render([l] + tail) == l.text + rest
    ensures rest == if tail == [] then "" else Gap(l, tail[0]) + Render(tail)
  {
    if tail == [] {
      RenderOne(l);
      assert [l] + tail == [l];
      rest := "";
      assert l.text + "" == l.text;
    } else {
      RenderCons(l, tail);
      rest := Gap(l, tail[0]) + Render(tail);
    }
    hide Render, Gap;
  }

  /** Past the token limit lexing a rendered text fails, whatever the tokens and whatever follows. */
  lemma {:induction false} LexTooMany(ls: seq<Lexeme>, gap: Text, after: Text, count: int)
    requires AllWellSpelled(ls) && ls != [] && count <= MAX_TOKENS < count + |ls| && Stops(after)
    requires gap == "" || gap == " "
    ensures LexFrom(gap + (Render(ls) + after), count) == Err(TooManyTokens)
    decreases |ls|
  {
    hide *;
    var l, tail := ls[0], ls[1..];
    assert ls == [l] + tail;
    WellSpelledSplit(l, tail);
    var rest := RenderFirst(l, tail);
    TextAssociates(l.text, rest, after);
    if count == MAX_TOKENS {
      LexFromFull(l, gap, rest + after, count);
    } else {
      LexTooMany(tail, Gap(l, tail[0]), after, count + 1);
      TextAssociates(Gap(l, tail[0]), Render(tail), after);
      GapStops(l, tail);
      StopsMore(rest, after);
      LexFromCons(l, gap, rest + after, count);
      PrefixedTwo(l.token, [], Err(TooManyTokens));
    }
  }

  lemma LexNothing(count: int)
    ensures LexFrom(Render([]), count) == Ok(TokensOf([]) + [Eof])
    ensures LexFrom("", count) == Ok([Eof])
  {
    assert Render([]) == "" && TokensOf([]) + [Eof] == [Eof];
    assert ""[Skip("")..] == "";
  }

  lemma WellSpelledSplit(l: Lexeme, tail: seq<Lexeme>)
    requires AllWellSpelled([l] + tail)
    ensures WellSpelled(l) && AllWellSpelled(tail)
  {
    hide WellSpelled;
    var ls := [l] + tail;
    assert ls[0] == l;
    assert forall i :: 0 <= i < |tail| ==> ls[1 + i] == tail[i];
  }

  lemma GapStops(l: Lexeme, tail: seq<Lexeme>)
    requires tail != [] && AllWellSpelled(tail)
    ensures Opens(l) || Stops(Gap(l, tail[0]) + Render(tail))
  {
    assert WellSpelled(tail[0]);
    if Closes(tail[0]) {
      RenderStarts(tail);
    }
    hide Render;
  }

  lemma RenderStarts(ls: seq<Lexeme>)
    requires ls != [] && ls[0].text != []
    ensures Render(ls) != [] && Render(ls)[0] == ls[0].text[0]
  {
    hide Gap;
  }
}
