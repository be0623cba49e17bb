/** The lexer of `factum-core/src/lexer.rs`.

    The functions say what each scanning step makes of the text that is left; the class `Lexer` is the
    program's cursor over a buffer, proved against them. */
module Lexer {
  import opened Types
  import opened Decimal
  import Utf8

  datatype Token =
    | LParen | RParen | LBracket | RBracket
    | Symbol(text: Text)
    | Variable(text: Text)
    | Keyword(text: Text)
    | QuotedText(text: Text)
    | Number(text: Text)
    | DateText(text: Text)
    | DurationText(text: Text)
    | Flag(b: bool)
    | UriText(text: Text)
    | EntityName(text: Text)
    | Eof

  datatype LexError =
    | BadUtf8(cause: Utf8.Utf8Error)
    | UnterminatedString | UnterminatedEscape | UnterminatedUri
    | VariableNameExpected | KeywordNameExpected | EntityNameExpected
    | ExpectedDate | ExpectedDateParen | ExpectedDur | ExpectedDurParen | UnknownHashPrefix
    | MultiDotNumber | UnexpectedCharacter | TooManyTokens

  const MAX_TOKENS := 1_000_000

  type Lexed<+T> = Result<T, LexError>

  // ----- character classes -----

  /** What the scanning loops accept: variable and keyword names, entity names, symbols, URIs. */
  datatype CharClass = NameChars | EntityChars | SymbolChars | UriChars

  predicate IsAlphanumeric(c: char) {
    'a' <= c <= 'z' || 'A' <= c <= 'Z' || '0' <= c <= '9'
  }

  predicate IsSymbolDelimiter(c: char) {
    c == '(' || c == ')' || c == '[' || c == ']' || c == ' ' || c == '\t' || c == '\n' || c == '\r'
    || c == ';' || c == '"' || c == ':' || c == '?' || c == '@' || c == '<' || c == '#'
  }

  predicate InClass(c: char, charClass: CharClass) {
    match charClass
    case NameChars => IsAlphanumeric(c) || c == '-' || c == '_' || !Utf8.IsAscii(c)
    case EntityChars => IsAlphanumeric(c) || c == '-' || c == '_' || c == ':' || c == '.' || !Utf8.IsAscii(c)
    case SymbolChars => !IsSymbolDelimiter(c)
    case UriChars => c != '>'
  }

  // ----- scanning steps -----

  function ReadChar(s: Text): (r: Lexed<nat>)
    requires s != []
    ensures r.Ok? ==> 0 < r.value <= |s|
  {
    match Utf8.ReadChar(s)
    case Ok(w) => Ok(w)
    case Err(e) => Err(BadUtf8(e))
  }

  /** How many bytes of `s` the loop over `charClass` consumes. */
  function Run(s: Text, charClass: CharClass): (r: Lexed<nat>)
    ensures r.Ok? ==> r.value <= |s|
    ensures r.Ok? && s != [] && InClass(s[0], charClass) ==> r.value > 0
  {
    if s == [] || !InClass(s[0], charClass) then Ok(0)
    else
      var w :- ReadChar(s);
      var n :- Run(s[w..], charClass);
      Ok(w + n)
  }

  function Unescape(c: char): Text {
    match c
    case 'n' => "\n"
    case 't' => "\t"
    case 'r' => "\r"
    case '\\' => "\\"
    case '"' => "\""
    case _ => Utf8.PushByte(c)
  }

  /** The text of a string literal and the bytes consumed, from just after the opening quote. */
  function StringBody(s: Text): (r: Lexed<(Text, nat)>)
    ensures r.Ok? ==> 0 < r.value.1 <= |s|
  {
    if s == [] then Err(UnterminatedString)
    else if s[0] == '"' then Ok(([], 1))
    else if s[0] == '\\' then
      if |s| == 1 then Err(UnterminatedEscape)
      else
        var (text, n) :- StringBody(s[2..]);
        Ok((Unescape(s[1]) + text, n + 2))
    else
      var w :- ReadChar(s);
      var (text, n) :- StringBody(s[w..]);
      Ok((s[..w] + text, n + w))
  }

  /** The body of `#date(` or `#dur(`: bytes up to a closing parenthesis, or to the end of the input. */
  function ParenBody(s: Text): (r: (Text, nat))
    ensures r.1 <= |s|
  {
    if s == [] then ([], 0)
    else if s[0] == ')' then ([], 1)
    else
      var (text, n) := ParenBody(s[1..]);
      (Utf8.PushByte(s[0]) + text, n + 1)
  }

  function DigitRun(s: Text): (n: nat)
    ensures n <= |s|
    ensures AllDigits(s[..n])
    ensures s != [] && IsDigit(s[0]) ==> n > 0
  {
    if s == [] || !IsDigit(s[0]) then 0
    else
      var n := 1 + DigitRun(s[1..]);
      assert s[..n] == [s[0]] + s[1..][..n - 1];
      n
  }

  /** Bytes of the optional sign, the integer digits and the optional fraction. */
  function NumberLength(s: Text): (n: nat)
    requires StartsNumber(s)
    ensures 0 < n <= |s|
  {
    var sign := if s[0] == '-' then 1 else 0;
    var whole := sign + DigitRun(s[sign..]);
    if whole < |s| && s[whole] == '.' then whole + 1 + DigitRun(s[whole + 1..]) else whole
  }

  predicate StartsNumber(s: Text) {
    s != [] && (IsDigit(s[0]) || (s[0] == '-' && |s| > 1 && IsDigit(s[1])))
  }

  function LexNumber(s: Text): (r: Lexed<(Token, nat)>)
    requires StartsNumber(s)
    ensures r.Ok? ==> 0 < r.value.1 <= |s|
  {
    var n := NumberLength(s);
    if n + 1 < |s| && s[n] == '.' && IsDigit(s[n + 1]) then Err(MultiDotNumber)
    else Ok((Number(s[..n]), n))
  }

  predicate StartsWith(s: Text, prefix: Text) {
    |prefix| <= |s| && s[..|prefix|] == prefix
  }

  function LexHash(s: Text): (r: Lexed<(Token, nat)>)
    requires s != [] && s[0] == '#'
    ensures r.Ok? ==> 0 < r.value.1 <= |s|
  {
    if |s| > 1 && s[1] == 't' then Ok((Flag(true), 2))
    else if |s| > 1 && s[1] == 'f' then Ok((Flag(false), 2))
    else if |s| > 2 && s[1] == 'd' && s[2] == 'a' then
      if !StartsWith(s, "#date") then Err(ExpectedDate)
      else if !StartsWith(s, "#date(") then Err(ExpectedDateParen)
      else
        var (text, n) := ParenBody(s[6..]);
        Ok((DateText(text), n + 6))
    else if |s| > 2 && s[1] == 'd' && s[2] == 'u' then
      if !StartsWith(s, "#dur") then Err(ExpectedDur)
      else if !StartsWith(s, "#dur(") then Err(ExpectedDurParen)
      else
        var (text, n) := ParenBody(s[5..]);
        Ok((DurationText(text), n + 5))
    else Err(UnknownHashPrefix)
  }

  /** A leading byte followed by a non-empty run: variables, keywords and entities. */
  function LexName(s: Text, charClass: CharClass, missing: LexError): (r: Lexed<(Text, nat)>)
    requires s != []
    ensures r.Ok? ==> 0 < r.value.1 <= |s|
  {
    var n :- Run(s[1..], charClass);
    if n == 0 then Err(missing) else Ok((s[1..n + 1], n + 1))
  }

  function LexUri(s: Text): (r: Lexed<(Token, nat)>)
    requires s != []
    ensures r.Ok? ==> 0 < r.value.1 <= |s|
  {
    var n :- Run(s[1..], UriChars);
    if n + 1 == |s| then Err(UnterminatedUri) else Ok((UriText(s[1..n + 1]), n + 2))
  }

  function LexSymbol(s: Text): (r: Lexed<(Token, nat)>)
    ensures r.Ok? ==> 0 < r.value.1 <= |s|
  {
    var n :- Run(s, SymbolChars);
    if n == 0 then Err(UnexpectedCharacter) else Ok((Symbol(s[..n]), n))
  }

  /** `next_token`: the token `s` starts with and the bytes it takes. */
  function Next(s: Text): (r: Lexed<(Token, nat)>)
    requires s != []
    ensures r.Ok? ==> 0 < r.value.1 <= |s|
  {
    match s[0]
    case '(' => Ok((LParen, 1))
    case ')' => Ok((RParen, 1))
    case '[' => Ok((LBracket, 1))
    case ']' => Ok((RBracket, 1))
    case '"' =>
      var (text, n) :- StringBody(s[1..]);
      Ok((QuotedText(text), n + 1))
    case '?' =>
      var (name, n) :- LexName(s, NameChars, VariableNameExpected);
      Ok((Variable(name), n))
    case ':' =>
      var (name, n) :- LexName(s, NameChars, KeywordNameExpected);
      Ok((Keyword(name), n))
    case '<' => LexUri(s)
    case '@' =>
      var (name, n) :- LexName(s, EntityChars, EntityNameExpected);
      Ok((EntityName(name), n))
    case '#' => LexHash(s)
    case _ => if StartsNumber(s) then LexNumber(s) else LexSymbol(s)
  }

  predicate IsBlank(c: char) {
    c == ' ' || c == '\t' || c == '\r' || c == '\n'
  }

  /** Bytes of a comment up to, not including, its line end. */
  function CommentLength(s: Text): (n: nat)
    ensures n <= |s|
    ensures s != [] && s[0] != '\n' ==> n > 0
  {
    if s == [] || s[0] == '\n' then 0 else 1 + CommentLength(s[1..])
  }

  /** `skip_ws_and_comments`: the bytes skipped. */
  function Skip(s: Text): (n: nat)
    ensures n <= |s|
  {
    if s == [] then 0
    else if IsBlank(s[0]) then 1 + Skip(s[1..])
    else if s[0] == ';' then
      var n := CommentLength(s);
      n + Skip(s[n..])
    else 0
  }

  /** `tokenize`, after `count` tokens have been produced. */
  function LexFrom(s: Text, count: int): (r: Lexed<seq<Token>>)
    ensures r.Ok? ==> r.value != [] && r.value[|r.value| - 1] == Eof
    decreases |s|
  {
    var rest := s[Skip(s)..];
    if rest == [] then Ok([Eof])
    else if count >= MAX_TOKENS then Err(TooManyTokens)
    else
      var (token, n) :- Next(rest);
      var tokens :- LexFrom(rest[n..], count + 1);
      Ok([token] + tokens)
  }

  function LexAll(s: Text): (r: Lexed<seq<Token>>)
    ensures r.Ok? ==> r.value != [] && r.value[|r.value| - 1] == Eof
  {
    LexFrom(s, 0)
  }

  // ----- the cursor -----

  lemma BlanksUnfold(s: Text)
    ensures s == [] || (!IsBlank(s[0]) && s[0] != ';') ==> Skip(s) == 0
    ensures s != [] && IsBlank(s[0]) ==> Skip(s) == 1 + Skip(s[1..])
    ensures s != [] && s[0] == ';' ==> CommentLength(s) > 0 && Skip(s) == CommentLength(s) + Skip(s[CommentLength(s)..])
  {
    hide CommentLength;
  }

  lemma DropDrop(s: Text, i: nat, j: nat)
    requires i + j <= |s|
    ensures s[i..][j..] == s[i + j..]
  {
  }

  lemma SliceDrop(s: Text, i: nat, a: nat, b: nat)
    requires a <= b && i + b <= |s|
    ensures s[i..][a..b] == s[i + a..i + b]
  {
  }

  lemma SliceGrows(s: Text, i: nat, j: nat, k: nat)
    requires i <= j <= k <= |s|
    ensures s[i..j] + s[j..k] == s[i..k]
  {
  }

  /** `k` bytes in front of what a run still consumes. */
  function Further(k: nat, r: Lexed<nat>): Lexed<nat> {
    match r
    case Ok(n) => Ok(k + n)
    case Err(e) => Err(e)
  }

  lemma RunUnfold(s: Text, w: nat, charClass: CharClass)
    requires s != [] && InClass(s[0], charClass) && ReadChar(s) == Ok(w)
    ensures Run(s, charClass) == Further(w, Run(s[w..], charClass))
  {
    hide InClass, ReadChar;
  }

  lemma RunFails(s: Text, charClass: CharClass)
    requires s != [] && InClass(s[0], charClass) && ReadChar(s).Err?
    ensures Run(s, charClass) == Err(ReadChar(s).error)
  {
    hide InClass, ReadChar;
  }

  lemma RunNone(rest: Text, charClass: CharClass)
    requires rest == [] || !InClass(rest[0], charClass)
    ensures Run(rest, charClass) == Ok(0)
  {
  }

  /** `text`, spelled with `n` bytes, in front of what follows in a string literal. */
  function Then(text: Text, n: nat, rest: Lexed<(Text, nat)>): Lexed<(Text, nat)> {
    match rest
    case Ok((more, m)) => Ok((text + more, m + n))
    case Err(e) => Err(e)
  }

  lemma ThenOk(text: Text, n: nat, more: Text, m: nat)
    ensures Then(text, n, Ok((more, m))) == Ok((text + more, n + m))
  {
  }

  lemma ThenFails(text: Text, n: nat, r: Lexed<(Text, nat)>)
    ensures r.Err? ==> Then(text, n, r) == r
  {
  }

  lemma ThenThen(a: Text, n: nat, b: Text, m: nat, r: Lexed<(Text, nat)>)
    ensures Then(a, n, Then(b, m, r)) == Then(a + b, n + m, r)
    ensures Then([], 0, r) == r
  {
    match r
    case Ok((more, _)) =>
      assert a + (b + more) == a + b + more;
      assert [] + more == more;
    case Err(_) =>
  }

  lemma StringBodyUnfold(s: Text, w: nat)
    requires s != [] && s[0] != '"' && s[0] != '\\' && ReadChar(s) == Ok(w)
    ensures StringBody(s) == Then(s[..w], w, StringBody(s[w..]))
  {
    hide ReadChar;
  }

  lemma StringBodyEscape(s: Text)
    requires |s| > 1 && s[0] == '\\'
    ensures StringBody(s) == Then(Unescape(s[1]), 2, StringBody(s[2..]))
  {
    hide Unescape;
  }

  lemma StringBodyStops(s: Text)
    ensures s == [] ==> StringBody(s) == Err(UnterminatedString)
    ensures s != [] && s[0] == '"' ==> StringBody(s) == Ok(([], 1))
    ensures |s| == 1 && s[0] == '\\' ==> StringBody(s) == Err(UnterminatedEscape)
    ensures s != [] && s[0] != '"' && s[0] != '\\' && ReadChar(s).Err? ==> StringBody(s) == Err(ReadChar(s).error)
  {
    hide ReadChar;
  }

  lemma ParenBodyUnfold(s: Text, before: Text)
    requires s != [] && s[0] != ')'
    ensures var (more, n) := ParenBody(s[1..]);
            && ParenBody(s) == (Utf8.PushByte(s[0]) + more, n + 1)
            && before + (Utf8.PushByte(s[0]) + more) == before + Utf8.PushByte(s[0]) + more
  {
    hide Utf8.PushByte;
  }

  lemma ParenBodyEnd(s: Text)
    ensures s == [] ==> ParenBody(s) == ([], 0)
    ensures s != [] && s[0] == ')' ==> ParenBody(s) == ([], 1)
  {
  }

  /** `tokens` in front of what is still to come. */
  function Before(tokens: seq<Token>, r: Lexed<seq<Token>>): Lexed<seq<Token>> {
    match r
    case Ok(more) => Ok(tokens + more)
    case Err(e) => Err(e)
  }

  lemma BeforeBefore(a: seq<Token>, b: seq<Token>, r: Lexed<seq<Token>>)
    ensures Before(a, Before(b, r)) == Before(a + b, r)
    ensures Before([], r) == r
  {
    match r
    case Ok(more) =>
      assert a + (b + more) == a + b + more;
      assert [] + more == more;
    case Err(_) =>
  }

  lemma LexFromUnfold(s: Text, count: int)
    ensures var rest := s[Skip(s)..];
            LexFrom(s, count)
            == if rest == [] then Ok([Eof])
               else if count >= MAX_TOKENS then Err(TooManyTokens)
               else match Next(rest)
                    case Ok((token, n)) => Before([token], LexFrom(rest[n..], count + 1))
                    case Err(e) => Err(e)
  {
    hide Next, Skip;
  }

  /** The outcome of a step that consumed bytes from `from` on. */
  ghost predicate Stepped<T>(spec: Lexed<(T, nat)>, r: Lexed<T>, from: nat, pos: nat) {
    match spec
    case Ok((value, n)) => r == Ok(value) && pos == from + n
    case Err(e) => r == Err(e)
  }

  /** `Lexer`: a cursor over the source bytes. Its position is what the program's `pos` is; line and
      column, which only error messages use, are left out. */
  class Lexer {
    const src: Text
    var pos: nat

    ghost predicate Valid()
      reads this
    {
      pos <= |src|
    }

    ghost function Rest(): Text
      requires Valid()
      reads this
    {
      src[pos..]
    }

    constructor (src: Text)
      ensures Valid() && this.src == src && pos == 0
    {
      this.src := src;
      pos := 0;
    }

    method ReadUtf8Char() returns (r: Lexed<Text>)
      requires Valid() && pos < |src|
      modifies this
      ensures Valid() && old(pos) <= pos
      ensures match ReadChar(old(Rest()))
              case Ok(w) => r == Ok(src[old(pos)..pos]) && pos == old(pos) + w
              case Err(e) => r == Err(e) && pos == old(pos)
    {
      match ReadChar(src[pos..]) {
        case Ok(w) =>
          r := Ok(src[pos..pos + w]);
          pos := pos + w;
        case Err(e) =>
          r := Err(e);
      }
    }

    /** The loop of `lex_var`, `lex_keyword`, `lex_entity`, `lex_symbol` and `lex_uri`: collects bytes. */
    method ScanRun(charClass: CharClass) returns (r: Lexed<Text>)
      requires Valid()
      modifies this
      ensures Valid() && old(pos) <= pos
      ensures match Run(old(Rest()), charClass)
              case Ok(n) => r == Ok(src[old(pos)..pos]) && pos == old(pos) + n
              case Err(e) => r == Err(e)
    {
      hide Run, InClass, ReadChar;
      var start := pos;
      var buf := [];
      while pos < |src| && InClass(src[pos], charClass)
        invariant start <= pos <= |src| && buf == src[start..pos]
        invariant Run(src[start..], charClass) == Further(pos - start, Run(src[pos..], charClass))
        decreases |src| - pos
      {
        ghost var before, s := pos, src[pos..];
        var piece := ReadUtf8Char();
        if piece.Err? {
          RunFails(s, charClass);
          return Err(piece.error);
        }
        RunUnfold(s, pos - before, charClass);
        DropDrop(src, before, pos - before);
        SliceGrows(src, start, before, pos);
        buf := buf + piece.value;
      }
      RunNone(src[pos..], charClass);
      r := Ok(buf);
    }

    /** `lex_string` after the opening quote. */
    method LexString() returns (r: Lexed<Text>)
      requires Valid()
      modifies this
      ensures Valid() && old(pos) <= pos
      ensures Stepped(StringBody(old(Rest())), r, old(pos), pos)
    {
      hide StringBody, Then, ReadChar, Unescape;
      var start := pos;
      var buf := [];
      ThenThen([], 0, [], 0, StringBody(src[pos..]));
      while pos < |src| && src[pos] != '"'
        invariant start <= pos <= |src|
        invariant StringBody(src[start..]) == Then(buf, pos - start, StringBody(src[pos..]))
        decreases |src| - pos
      {
        ghost var before, s := pos, src[pos..];
        StringBodyStops(s);
        ThenFails(buf, pos - start, StringBody(s));
        var piece := ScanStringPiece();
        if piece.Err? {
          return Err(piece.error);
        }
        DropDrop(src, before, pos - before);
        ThenThen(buf, before - start, piece.value, pos - before, StringBody(src[pos..]));
        buf := buf + piece.value;
      }
      StringBodyStops(src[pos..]);
      if pos == |src| {
        ThenFails(buf, pos - start, StringBody(src[pos..]));
        return Err(UnterminatedString);
      }
      ThenOk(buf, pos - start, [], 1);
      assert buf + [] == buf;
      pos := pos + 1;
      r := Ok(buf);
    }

    /** One escape or one character inside a string literal. */
    method ScanStringPiece() returns (r: Lexed<Text>)
      requires Valid() && pos < |src| && src[pos] != '"'
      modifies this
      ensures Valid() && old(pos) <= pos
      ensures match r
              case Ok(piece) =>
                old(pos) < pos
                && StringBody(old(Rest())) == Then(piece, pos - old(pos), StringBody(old(Rest())[pos - old(pos)..]))
              case Err(e) => StringBody(old(Rest())) == Err(e)
    {
      hide StringBody, Then, ReadChar, Unescape;
      ghost var s := src[pos..];
      StringBodyStops(s);
      if src[pos] == '\\' {
        if pos + 1 == |src| {
          pos := pos + 1;
          return Err(UnterminatedEscape);
        }
        StringBodyEscape(s);
        r := Ok(Unescape(src[pos + 1]));
        pos := pos + 2;
      } else {
        ghost var before := pos;
        r := ReadUtf8Char();
        if r.Ok? {
          SliceDrop(src, before, 0, pos - before);
          StringBodyUnfold(s, pos - before);
        }
      }
    }

    /** The loop that reads the body of `#date(` and `#dur(`. */
    method ScanParenBody() returns (text: Text)
      requires Valid()
      modifies this
      ensures Valid() && old(pos) <= pos
      ensures (text, pos - old(pos)) == ParenBody(old(Rest()))
    {
      hide ParenBody;
      var start := pos;
      text := [];
      ghost var all := ParenBody(src[start..]);
      assert [] + all.0 == all.0;
      while pos < |src| && src[pos] != ')'
        invariant start <= pos <= |src|
        invariant text + ParenBody(src[pos..]).0 == all.0 && pos - start + ParenBody(src[pos..]).1 == all.1
      {
        DropDrop(src, pos, 1);
        ParenBodyUnfold(src[pos..], text);
        text := text + Utf8.PushByte(src[pos]);
        pos := pos + 1;
      }
      ParenBodyEnd(src[pos..]);
      assert text + [] == text;
      if pos < |src| {
        pos := pos + 1;
      }
    }

    /** Advances over decimal digits. */
    method ScanDigits()
      requires Valid()
      modifies this
      ensures Valid() && pos == old(pos) + DigitRun(old(Rest()))
    {
      var start := pos;
      while pos < |src| && IsDigit(src[pos])
        invariant start <= pos <= |src|
        invariant DigitRun(src[start..]) == pos - start + DigitRun(src[pos..])
      {
        DropDrop(src, pos, 1);
        pos := pos + 1;
      }
    }

    /** The sign, the digits and the fraction of a number. */
    method ScanNumber()
      requires Valid() && StartsNumber(Rest())
      modifies this
      ensures Valid() && pos == old(pos) + NumberLength(old(Rest()))
    {
      hide DigitRun;
      ghost var start, s := pos, src[pos..];
      ghost var sign := if s[0] == '-' then 1 else 0;
      if src[pos] == '-' {
        pos := pos + 1;
      }
      DropDrop(src, start, sign);
      ScanDigits();
      ghost var whole := pos - start;
      if pos < |src| && src[pos] == '.' {
        DropDrop(src, start, whole + 1);
        pos := pos + 1;
        ScanDigits();
      }
    }

    method LexNumberToken() returns (r: Lexed<Token>)
      requires Valid() && StartsNumber(Rest())
      modifies this
      ensures Valid() && old(pos) <= pos
      ensures Stepped(LexNumber(old(Rest())), r, old(pos), pos)
    {
      hide NumberLength;
      ghost var start := pos;
      var from := pos;
      ScanNumber();
      SliceDrop(src, start, 0, pos - start);
      if pos + 1 < |src| && src[pos] == '.' && IsDigit(src[pos + 1]) {
        return Err(MultiDotNumber);
      }
      r := Ok(Number(src[from..pos]));
    }

    /** `lex_hash_prefixed`. */
    method LexHashToken() returns (r: Lexed<Token>)
      requires Valid() && pos < |src| && src[pos] == '#'
      modifies this
      ensures Valid() && old(pos) <= pos
      ensures Stepped(LexHash(old(Rest())), r, old(pos), pos)
    {
      var s := src[pos..];
      if |s| > 1 && s[1] == 't' {
        pos := pos + 2;
        r := Ok(Flag(true));
      } else if |s| > 1 && s[1] == 'f' {
        pos := pos + 2;
        r := Ok(Flag(false));
      } else if |s| > 2 && s[1] == 'd' && s[2] == 'a' {
        if !StartsWith(s, "#date") {
          return Err(ExpectedDate);
        } else if !StartsWith(s, "#date(") {
          return Err(ExpectedDateParen);
        }
        DropDrop(src, pos, 6);
        pos := pos + 6;
        var text := ScanParenBody();
        r := Ok(DateText(text));
      } else if |s| > 2 && s[1] == 'd' && s[2] == 'u' {
        if !StartsWith(s, "#dur") {
          return Err(ExpectedDur);
        } else if !StartsWith(s, "#dur(") {
          return Err(ExpectedDurParen);
        }
        DropDrop(src, pos, 5);
        pos := pos + 5;
        var text := ScanParenBody();
        r := Ok(DurationText(text));
      } else {
        r := Err(UnknownHashPrefix);
      }
    }

    /** `lex_var`, `lex_keyword` and `lex_entity`: a leading byte, then a name. */
    method LexNameText(charClass: CharClass, missing: LexError) returns (r: Lexed<Text>)
      requires Valid() && pos < |src|
      modifies this
      ensures Valid() && old(pos) <= pos
      ensures Stepped(LexName(old(Rest()), charClass, missing), r, old(pos), pos)
    {
      hide Run;
      DropDrop(src, pos, 1);
      ghost var start := pos;
      pos := pos + 1;
      r := ScanRun(charClass);
      SliceDrop(src, start, 1, pos - start);
      if r == Ok([]) {
        r := Err(missing);
      }
    }

    method LexUriToken() returns (r: Lexed<Token>)
      requires Valid() && pos < |src|
      modifies this
      ensures Valid() && old(pos) <= pos
      ensures Stepped(LexUri(old(Rest())), r, old(pos), pos)
    {
      hide Run;
      DropDrop(src, pos, 1);
      ghost var start := pos;
      pos := pos + 1;
      var text := ScanRun(UriChars);
      SliceDrop(src, start, 1, pos - start);
      if text.Err? {
        return Err(text.error);
      }
      if pos == |src| {
        return Err(UnterminatedUri);
      }
      pos := pos + 1;
      r := Ok(UriText(text.value));
    }

    method LexSymbolToken() returns (r: Lexed<Token>)
      requires Valid()
      modifies this
      ensures Valid() && old(pos) <= pos
      ensures Stepped(LexSymbol(old(Rest())), r, old(pos), pos)
    {
      hide Run;
      ghost var start := pos;
      var text := ScanRun(SymbolChars);
      SliceDrop(src, start, 0, pos - start);
      if text.Err? {
        r := Err(text.error);
      } else if text.value == [] {
        r := Err(UnexpectedCharacter);
      } else {
        r := Ok(Symbol(text.value));
      }
    }

    /** `next_token`. */
    method NextToken() returns (r: Lexed<Token>)
      requires Valid() && pos < |src|
      modifies this
      ensures Valid() && old(pos) <= pos
      ensures Stepped(Next(old(Rest())), r, old(pos), pos)
    {
      var c := src[pos];
      if c == '(' || c == ')' || c == '[' || c == ']' {
        pos := pos + 1;
        r := Ok(if c == '(' then LParen else if c == ')' then RParen else if c == '[' then LBracket else RBracket);
      } else if c == '"' {
        DropDrop(src, pos, 1);
        pos := pos + 1;
        var text := LexString();
        r := if text.Ok? then Ok(QuotedText(text.value)) else Err(text.error);
      } else if c == '?' {
        var name := LexNameText(NameChars, VariableNameExpected);
        r := if name.Ok? then Ok(Variable(name.value)) else Err(name.error);
      } else if c == ':' {
        var name := LexNameText(NameChars, KeywordNameExpected);
        r := if name.Ok? then Ok(Keyword(name.value)) else Err(name.error);
      } else if c == '<' {
        r := LexUriToken();
      } else if c == '@' {
        var name := LexNameText(EntityChars, EntityNameExpected);
        r := if name.Ok? then Ok(EntityName(name.value)) else Err(name.error);
      } else if c == '#' {
        r := LexHashToken();
      } else if StartsNumber(src[pos..]) {
        r := LexNumberToken();
      } else {
        r := LexSymbolToken();
      }
    }

    /** `skip_ws_and_comments`. */
    method SkipBlanks()
      requires Valid()
      modifies this
      ensures Valid() && pos == old(pos) + Skip(old(Rest()))
    {
      hide Skip, CommentLength;
      var start := pos;
      while pos < |src| && (IsBlank(src[pos]) || src[pos] == ';')
        invariant start <= pos <= |src|
        invariant Skip(src[start..]) == pos - start + Skip(src[pos..])
        decreases |src| - pos
      {
        BlanksUnfold(src[pos..]);
        if IsBlank(src[pos]) {
          DropDrop(src, pos, 1);
          pos := pos + 1;
        } else {
          var before := pos;
          SkipComment();
          DropDrop(src, before, pos - before);
        }
      }
      BlanksUnfold(src[pos..]);
    }

    method SkipComment()
      requires Valid()
      modifies this
      ensures Valid() && pos == old(pos) + CommentLength(old(Rest()))
    {
      var start := pos;
      while pos < |src| && src[pos] != '\n'
        invariant start <= pos <= |src|
        invariant CommentLength(src[start..]) == pos - start + CommentLength(src[pos..])
      {
        DropDrop(src, pos, 1);
        pos := pos + 1;
      }
    }

    /** `tokenize`: the whole token list, or the first error. */
    method Tokenize() returns (r: Lexed<seq<Token>>)
      requires Valid() && pos == 0
      modifies this
      ensures r == LexAll(src)
    {
      hide LexFrom, Next, Skip, Before;
      var tokens := [];
      assert src[0..] == src;
      BeforeBefore([], [], LexFrom(src, 0));
      while true
        invariant Valid()
        invariant LexAll(src) == Before(tokens, LexFrom(src[pos..], |tokens|))
        decreases |src| - pos
      {
        ghost var s, from := src[pos..], pos;
        LexFromUnfold(s, |tokens|);
        SkipBlanks();
        DropDrop(src, from, pos - from);
        BeforeEnds(tokens, LexFrom(s, |tokens|));
        if pos == |src| {
          return Ok(tokens + [Eof]);
        }
        if |tokens| >= MAX_TOKENS {
          return Err(TooManyTokens);
        }
        ghost var at := pos;
        var token := NextToken();
        if token.Err? {
          return Err(token.error);
        }
        DropDrop(src, at, pos - at);
        BeforeBefore(tokens, [token.value], LexFrom(src[pos..], |tokens| + 1));
        tokens := tokens + [token.value];
      }
    }
  }

  lemma BeforeEnds(tokens: seq<Token>, r: Lexed<seq<Token>>)
    ensures r.Err? ==> Before(tokens, r) == r
    ensures r.Ok? ==> Before(tokens, r) == Ok(tokens + r.value)
  {
  }
}
