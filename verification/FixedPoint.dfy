/** Canonical text as a fixed point: what was parsed and written out is parsed back, and when the program's own
    round-trip check passes. */
module FixedPoint {
  import opened Types
  import opened Decimal
  import opened Lexer
  import opened Serialize
  import opened Grammar
  import opened Lexemes
  import opened Printing
  import opened NodePrinting
  import opened Parsing
  import opened RoundTrip
  import opened Sources
  import opened ParserRange
  import opened Reread
  import Utf8
  import Forms

  // ----- the program's own round-trip check -----

  /** `PartialEq` of nodes: status and note are not compared. */
  predicate EqualNodes(a: Node, b: Node) {
    a.(status := b.status, note := b.note) == b
  }

  /** `verify_roundtrip`. */
  predicate VerifyRoundtrip(n: Node, cal: Calendar) {
    match Parse(NodeText(n, cal), cal)
    case Ok(nodes) => |nodes| == 1 && EqualNodes(n, nodes[0])
    case Err(_) => false
  }

  lemma CheckedIs(n: Node, m: Node, cal: Calendar)
    requires VerifyRoundtrip(n, cal) && Parse(NodeText(n, cal), cal).Ok? && m == Parse(NodeText(n, cal), cal).value[0]
    ensures m in Parse(NodeText(n, cal), cal).value
    ensures m.id == n.id && m.pred == n.pred && m.provenance == n.provenance && m.confidence == n.confidence
    ensures m.authority == n.authority && m.permissions == n.permissions && m.deps == n.deps
  {
    hide Parse, NodeText;
  }

  lemma CheckedRanges(n: Node, m: Node)
    requires NodeRanges(m) && (n.note.Some? ==> Utf8.Valid(n.note.value))
    requires m.id == n.id && m.pred == n.pred && m.provenance == n.provenance && m.confidence == n.confidence
    requires m.authority == n.authority && m.permissions == n.permissions && m.deps == n.deps
    ensures NodeRanges(n.(status := Active))
  {
    hide PredicateNear, HeadsNamed, PredicateNesting, ProvenanceCarries, ProvenanceFits, IsSymbol, IdsFit,
      PermissionFits, Score.Normal, Score.InUnit, Utf8.Valid;
  }

  lemma ActiveSame(n: Node, cal: Calendar)
    ensures NodeText(n.(status := Active), cal) == NodeText(n, cal)
    ensures NodeFits(n.(status := Active)) <==> NodeFits(n)
  {
    hide PredicateFits, ProvenanceFits, IsSymbol, IdsFit, PermissionFits, Score.Normal, Score.InUnit, Utf8.Valid;
  }

  lemma CheckedParses(n: Node, cal: Calendar)
    requires VerifyRoundtrip(n, cal)
    ensures Parse(NodeText(n, cal), cal).Ok? && |Parse(NodeText(n, cal), cal).value| == 1
  {
    hide Parse, NodeText, EqualNodes;
  }

  /** The round-trip check passes exactly on nodes that fit the text form, whose text is below the token limit, whose
      terms are nested no deeper than the parser goes and none of whose heads is a resolved index. All that is asked of
      the node is that its provenance needs no escapes and that its note is a string. */
  lemma VerifyRoundtripIff(n: Node, cal: Calendar)
    requires Lawful(cal) && ProvenanceCarries(n.provenance) && (n.note.Some? ==> Utf8.Valid(n.note.value))
    ensures VerifyRoundtrip(n, cal)
       <==> NodeFits(n) && TokenCount(n, cal) < MAX_TOKENS && Shallow(n) && HeadsNamed(n.pred)
  {
    hide *;
    if VerifyRoundtrip(n, cal) {
      CheckedParses(n, cal);
      var m, k := Parse(NodeText(n, cal), cal).value[0], n.(status := Active);
      CheckedIs(n, m, cal);
      ParsedNodes(NodeText(n, cal), cal);
      CheckedRanges(n, m);
      ActiveSame(n, cal);
      ReparseNode(k, cal);
      RangedFits(k);
    }
    if NodeFits(n) {
      FittingCheck(n, cal);
    }
  }

  lemma FittingCheck(n: Node, cal: Calendar)
    requires NodeFits(n) && Lawful(cal)
    ensures VerifyRoundtrip(n, cal) <==> TokenCount(n, cal) < MAX_TOKENS && Shallow(n) && HeadsNamed(n.pred)
  {
    NodeRoundTrip(n, cal);
    AlreadyNamed(n.pred);
    hide NodeFits, Lawful, Parse, NodeText, TokenCount, Shallow, HeadsNamed, NamedPredicate;
  }

  // ----- canonical text is a fixed point -----

  ghost predicate PlainProvenance(nodes: seq<Node>) {
    forall n <- nodes :: ProvenanceCarries(n.provenance)
  }

  lemma RangedCarried(n: Node)
    requires NodeRanges(n)
    ensures Carried(n) == n && Shallow(n)
    ensures Carries(n.pred) && ProvenanceCarries(n.provenance) ==> NodeFits(n)
  {
    AlreadyNamed(n.pred);
    if Carries(n.pred) && ProvenanceCarries(n.provenance) {
      RangedFits(n);
    }
    hide HeadsNamed, NamedPredicate, Carries, ProvenanceCarries, NodeFits, Shallow;
  }

  lemma {:induction false} AllRanged(nodes: seq<Node>)
    requires forall n <- nodes :: NodeRanges(n)
    ensures AllCarried(nodes) == nodes && AllShallow(nodes)
    ensures PlainProvenance(nodes) && AllCarry(nodes) ==> AllFit(nodes)
  {
    hide NodeRanges, Carried, Shallow, NodeFits, Carries, ProvenanceCarries;
    if nodes != [] {
      assert nodes == [nodes[0]] + nodes[1..];
      AllRanged(nodes[1..]);
      RangedCarried(nodes[0]);
    }
  }

  lemma PlainEach(nodes: seq<Node>)
    requires PlainProvenance(nodes)
    ensures forall n <- nodes :: ProvenanceCarries(n.provenance)
  {
  }

  /** The law of the text form, `parse(serialize(parse(x))) == parse(x)`: for nodes parsed from any text whose
      provenance needs no escapes it holds if and only if all leaves carry and the text is below the token limit. */
  lemma ParsedRoundTripIff(src: Text, nodes: seq<Node>, cal: Calendar)
    requires Parse(src, cal) == Ok(nodes) && PlainProvenance(nodes) && Lawful(cal)
    ensures Parse(AllText(nodes, cal), cal) == Ok(nodes) <==> AllCarry(nodes) && |AllTokens(nodes, cal)| < MAX_TOKENS
  {
    hide *;
    ParsedNodes(src, cal);
    AllRanged(nodes);
    PlainEach(nodes);
    if AllCarry(nodes) {
      AllRoundTrip(nodes, cal);
    } else if Parse(AllText(nodes, cal), cal) == Ok(nodes) {
      ReparseNeedsCarry(src, nodes, cal);
    }
  }

  /** The same of `parse_predicate` and `canonical_predicate`, for every predicate parsed from any text. */
  lemma PredicateRoundTripIff(src: Text, p: Predicate, cal: Calendar)
    requires ParsePredicate(src, cal) == Ok(p) && Lawful(cal) && |PredicateLexemes(p, cal)| < MAX_TOKENS
    ensures ParsePredicate(PredicateText(p, cal), cal) == Ok(p) <==> Carries(p)
  {
    hide *;
    ParsedPredicate(src, cal);
    RangedPredicate(p);
    if Carries(p) {
      NearFits(p);
      PredicateRoundTrip(p, cal);
    } else if ParsePredicate(PredicateText(p, cal), cal) == Ok(p) {
      ReparsePredicate(p, cal);
    }
  }

  lemma RangedPredicate(p: Predicate)
    requires PredicateRanges(p, 1)
    ensures PredicateNear(p) && NamedPredicate(p) == p && 1 + PredicateNesting(p) <= MAX_PARSE_DEPTH
  {
    AlreadyNamed(p);
    hide PredicateNear, HeadsNamed, NamedPredicate, PredicateNesting;
  }

  lemma ParsedPredicate(src: Text, cal: Calendar)
    requires ParsePredicate(src, cal).Ok?
    ensures PredicateRanges(ParsePredicate(src, cal).value, 1)
  {
    LexRange(src, 0);
    hide LexFrom, AllTokensFit, PredicateRanges, ParseBody, Advance;
    AdvanceFits();
    var all := TokensOfSource(src).value;
    BodyRange(Advance(all), 1, cal);
  }

  // ----- leaves that do not carry -----

  function Applied(args: seq<Term>): Predicate {
    Predicate(Name("f"), args, [])
  }

  predicate IsLeafToken(t: Token) {
    !t.Keyword? && t != LParen && t != RParen && t != LBracket && t != Eof
  }

  lemma LeafArgument(ts: Stream, rest: Stream, more: seq<Term>, end: Stream, cal: Calendar)
    requires IsLeafToken(ts[0]) && ts[1..] == rest
    requires ParseArgs(rest, false, 1, cal) == Ok((Arguments(more, []), end))
    ensures ParseLeaf(ts[0], cal).Ok? ==>
              ParseArgs(ts, false, 1, cal) == Ok((Arguments([ParseLeaf(ts[0], cal).value] + more, []), end))
    ensures ParseLeaf(ts[0], cal).Err? ==> ParseArgs(ts, false, 1, cal) == Err(ParseLeaf(ts[0], cal).error)
  {
    hide ParseLeaf;
  }

  lemma NoArguments(end: Stream, cal: Calendar)
    requires end[0] == RParen
    ensures ParseArgs(end, false, 1, cal) == Ok((Arguments([], []), end))
  {
  }

  lemma AppliedOf(src: Text, all: Stream, args: Stream, cal: Calendar)
    requires TokensOfSource(src) == Ok(all) && |all| > 2 && all[..2] == [LParen, Symbol("f")] && all[2..] == args
    ensures ParseArgs(args, false, 1, cal).Err? ==>
              ParsePredicate(src, cal) == Err(ParseArgs(args, false, 1, cal).error)
    ensures forall terms, end: Stream ::
              ParseArgs(args, false, 1, cal) == Ok((Arguments(terms, []), end)) && end[0] == RParen ==>
              ParsePredicate(src, cal) == Ok(Applied(terms))
  {
    hide TokensOfSource, ParseArgs;
    var body: Stream := all[1..];
    assert all[0] == all[..2][0] && body[0] == all[..2][1] && body[1..] == args;
  }

  /** `(f t)` for a token that makes a leaf or fails to. */
  lemma OneLeaf(src: Text, token: Token, cal: Calendar)
    requires TokensOfSource(src) == Ok([LParen, Symbol("f"), token, RParen, Eof]) && IsLeafToken(token)
    ensures ParsePredicate(src, cal)
         == if ParseLeaf(token, cal).Ok? then Ok(Applied([ParseLeaf(token, cal).value]))
            else Err(ParseLeaf(token, cal).error)
  {
    hide *;
    var all: Stream := [LParen, Symbol("f"), token, RParen, Eof];
    var end: Stream := [RParen, Eof];
    var args: Stream := [token] + end;
    NoArguments(end, cal);
    LeafArgument(args, end, [], end, cal);
    AppliedOf(src, all, args, cal);
    assert ParseLeaf(token, cal).Ok? ==> [ParseLeaf(token, cal).value] + [] == [ParseLeaf(token, cal).value];
  }

  lemma LeafSpelled(leaf: Lexeme)
    requires WellSpelled(leaf)
    ensures AllWellSpelled([Spelled(LParen), Spelled(Symbol("f")), leaf, Spelled(RParen)])
  {
    LettersAreSymbols("f");
    BracketsSpelled();
    SymbolSpelled("f");
    hide WellSpelled, Spelled;
  }

  lemma LeafTokens(a: Lexeme, b: Lexeme, c: Lexeme, d: Lexeme)
    ensures TokensOf([a, b, c, d]) + [Eof] == [a.token, b.token, c.token, d.token, Eof]
  {
    hide *;
    TokensOfShort(c, d);
    TokensOfCons(b, [c, d]);
    TokensOfCons(a, [b, c, d]);
    assert [b] + [c, d] == [b, c, d] && [a] + [b, c, d] == [a, b, c, d];
  }

  lemma LeafRender(a: Lexeme, b: Lexeme, c: Lexeme, d: Lexeme)
    requires Gap(a, b) == "" && Gap(b, c) == " " && Gap(c, d) == ""
    ensures Render([a, b, c, d]) == a.text + (b.text + (" " + (c.text + d.text)))
  {
    hide *;
    RenderOne(d);
    RenderCons(c, [d]);
    RenderCons(b, [c, d]);
    RenderCons(a, [b, c, d]);
    assert [c] + [d] == [c, d] && [b] + [c, d] == [b, c, d] && [a] + [b, c, d] == [a, b, c, d];
    assert "" + d.text == d.text && "" + (b.text + (" " + (c.text + d.text))) == b.text + (" " + (c.text + d.text));
  }

  lemma LeafGaps(leaf: Lexeme)
    requires !Opens(leaf) && !Closes(leaf)
    ensures Gap(Spelled(LParen), Spelled(Symbol("f"))) == "" && Gap(Spelled(Symbol("f")), leaf) == " "
    ensures Gap(leaf, Spelled(RParen)) == "" && Spelled(LParen).token == LParen && Spelled(RParen).token == RParen
    ensures Spelled(Symbol("f")).token == Symbol("f")
    ensures Spelled(LParen).text + (Spelled(Symbol("f")).text + (" " + (leaf.text + Spelled(RParen).text)))
         == "(f " + leaf.text + ")"
  {
  }

  lemma LeafSource(leaf: Lexeme)
    requires WellSpelled(leaf) && !Opens(leaf) && !Closes(leaf)
    ensures TokensOfSource("(f " + leaf.text + ")") == Ok([LParen, Symbol("f"), leaf.token, RParen, Eof])
  {
    assert 4 < MAX_TOKENS;
    hide *;
    var ls := [Spelled(LParen), Spelled(Symbol("f")), leaf, Spelled(RParen)];
    LeafSpelled(leaf);
    LeafGaps(leaf);
    LeafTokens(ls[0], ls[1], leaf, ls[3]);
    LeafRender(ls[0], ls[1], leaf, ls[3]);
    SourceTokens(ls);
  }

  function DurationSource(text: Text): Text {
    "(f " + Spelling(DurationText(text)) + ")"
  }

  lemma DurationParse(text: Text, cal: Calendar)
    requires forall i :: 0 <= i < |text| ==> IsDigit(text[i]) || text[i] == 'n' || text[i] == 's'
    ensures ParsePredicate(DurationSource(text), cal)
         == if ParseDuration(text).Some? then Ok(Applied([Lit(Dur(ParseDuration(text).value))])) else Err(BadDuration)
  {
    DurationSpelled(text);
    hide *;
    DurationLeaf(text, cal);
    LeafSource(Spelled(DurationText(text)));
    DurationTexts(text);
    OneLeaf(DurationSource(text), DurationText(text), cal);
  }

  lemma DurationTexts(text: Text)
    ensures DurationSource(text) == "(f " + Spelled(DurationText(text)).text + ")"
    ensures Spelled(DurationText(text)).token == DurationText(text)
    ensures !Opens(Spelled(DurationText(text))) && !Closes(Spelled(DurationText(text)))
  {
  }

  lemma DurationLeaf(text: Text, cal: Calendar)
    ensures IsLeafToken(DurationText(text))
    ensures ParseLeaf(DurationText(text), cal)
         == if ParseDuration(text).Some? then Ok(Lit(Dur(ParseDuration(text).value))) else Err(BadDuration)
  {
    hide ParseDuration;
  }

  /** A duration in seconds is read although it may be longer than canonical text can carry, which is in nanoseconds. */
  lemma LongDurationRead(n: nat, cal: Calendar)
    requires n < U64_LIMIT
    ensures ParsePredicate(DurationSource(NatText(n) + "s"), cal) == Ok(Applied([Lit(Dur(n * NANOS))]))
    ensures Carries(Applied([Lit(Dur(n * NANOS))])) <==> n * NANOS < U64_LIMIT
  {
    hide *;
    NanosIs();
    Forms.DurationUnits(n);
    DigitsOnly(n);
    DurationParse(NatText(n) + "s", cal);
    CarriesOne(Lit(Dur(n * NANOS)));
    DurationCarries(n * NANOS);
  }

  lemma NanosIs()
    ensures NANOS == 1_000_000_000 && U64_LIMIT == 0x1_0000_0000_0000_0000
  {
  }

  lemma DurationCarries(nanos: nat)
    ensures TermCarries(Lit(Dur(nanos))) <==> nanos < U64_LIMIT
  {
  }

  lemma CarriesOne(t: Term)
    ensures Carries(Applied([t])) <==> TermCarries(t)
  {
    hide TermCarries;
    var one, none: seq<Term> := [t], [];
    assert one[1..] == none && ArgsCarry(none);
  }

  lemma DigitsOnly(n: nat)
    ensures forall i :: 0 <= i < |NatText(n)| ==> IsDigit(NatText(n)[i])
  {
    hide NatText, DigitsValue;
  }

  lemma DurationSpelled(s: Text)
    requires forall i :: 0 <= i < |s| ==> IsDigit(s[i]) || s[i] == 'n' || s[i] == 's'
    ensures WellSpelled(Spelled(DurationText(s)))
  {
  }

  /** A bare symbol is read as an entity, which carries if and only if it is an entity name. */
  lemma BareSymbolRead(s: Text, cal: Calendar)
    requires IsSymbol(s)
    ensures ParsePredicate("(f " + s + ")", cal) == Ok(Applied([Ent(s)]))
    ensures Carries(Applied([Ent(s)])) <==> IsEntityName(s)
  {
    hide *;
    SymbolLeaf(s, cal);
    LeafSource(Spelled(Symbol(s)));
    OneLeaf("(f " + s + ")", Symbol(s), cal);
    CarriesOne(Ent(s));
    EntityCarries(s);
  }

  lemma EntityCarries(s: Text)
    ensures TermCarries(Ent(s)) <==> IsEntityName(s)
  {
  }

  lemma SymbolLeaf(s: Text, cal: Calendar)
    requires IsSymbol(s)
    ensures WellSpelled(Spelled(Symbol(s))) && !Opens(Spelled(Symbol(s))) && !Closes(Spelled(Symbol(s)))
    ensures Spelled(Symbol(s)).text == s && Spelled(Symbol(s)).token == Symbol(s) && IsLeafToken(Symbol(s))
    ensures ParseLeaf(Symbol(s), cal) == Ok(Ent(s))
  {
    hide IsSymbol;
  }

  /** Not every symbol is one: `a/b` is read and does not carry. */
  lemma SlashSymbol()
    ensures IsSymbol("a/b") && !IsEntityName("a/b")
  {
    LettersAreSymbols("b");
    ValidMore("/", "b");
    ValidMore("a", "/b");
    assert "/" + "b" == "/b" && "a" + "/b" == "a/b";
    hide Utf8.Valid;
    assert "a/b"[1] == '/';
  }

  // ----- provenance texts -----

  lemma UnescapeShort(c: char)
    ensures |Unescape(c)| <= 2 && (Utf8.IsAscii(c) ==> |Unescape(c)| == 1)
  {
  }

  lemma {:induction false} BodyShorter(s: Text)
    ensures StringBody(s).Ok? ==> |StringBody(s).value.0| < StringBody(s).value.1
  {
    hide ReadChar, Unescape;
    if s != [] && s[0] == '\\' && |s| > 1 {
      BodyShorter(s[2..]);
      UnescapeShort(s[1]);
    } else if s != [] && s[0] != '"' && ReadChar(s).Ok? {
      BodyShorter(s[ReadChar(s).value..]);
    }
  }

  lemma {:induction false} RawBody(s: Text, rest: Text)
    requires Utf8.Valid(s) && StringBody(s + "\"" + rest) == Ok((s, |s| + 1))
    ensures NoEscapes(s)
    decreases |s|
  {
    hide *;
    if s != [] {
      var piece, tail := FirstChar(s);
      assert s + "\"" + rest == piece + (tail + "\"" + rest);
      RawPiece(piece, tail, tail + "\"" + rest);
      RawBody(tail, rest);
      NoEscapesMore(piece, tail);
    } else {
      NoEscapesNothing();
    }
  }

  lemma NoEscapesNothing()
    ensures NoEscapes([])
  {
  }

  lemma NoEscapesMore(piece: Text, tail: Text)
    requires IsPiece(piece) && piece[0] != '"' && piece[0] != '\\' && NoEscapes(tail)
    ensures NoEscapes(piece + tail)
  {
  }

  lemma RawPiece(piece: Text, tail: Text, rest: Text)
    requires IsPiece(piece) && StringBody(piece + rest) == Ok((piece + tail, |piece + tail| + 1)) && |rest| > |tail|
    requires Utf8.Valid(tail) && rest[..|tail|] == tail
    ensures piece[0] != '"' && piece[0] != '\\'
    ensures StringBody(rest) == Ok((tail, |tail| + 1))
  {
    hide *;
    PieceOff(piece, rest);
    var u := piece + rest;
    if u[0] == '\\' {
      PieceIsAscii(piece);
      RawEscape(u, rest, tail);
    } else {
      PlainStep(u, |piece|);
      assert (piece + tail)[|piece|..] == tail && |(piece + tail)| == |piece| + |tail|;
    }
  }

  lemma PieceIsAscii(piece: Text)
    requires IsPiece(piece) && piece[0] == '\\'
    ensures |piece| == 1
  {
  }

  lemma PlainStep(u: Text, w: nat)
    requires u != [] && u[0] != '\\' && ReadChar(u) == Ok(w) && StringBody(u).Ok?
    ensures u[0] == '"' ==> StringBody(u).value.0 == []
    ensures u[0] != '"' ==>
              && 0 < w <= |u| && StringBody(u[w..]).Ok?
              && StringBody(u).value == (u[..w] + StringBody(u[w..]).value.0, StringBody(u[w..]).value.1 + w)
  {
    hide ReadChar, Unescape;
  }

  lemma EscapeStep(u: Text)
    requires u != [] && u[0] == '\\' && StringBody(u).Ok?
    ensures |u| > 1 && StringBody(u[2..]).Ok?
    ensures StringBody(u).value == (Unescape(u[1]) + StringBody(u[2..]).value.0, StringBody(u[2..]).value.1 + 2)
  {
    hide ReadChar, Unescape;
  }

  lemma ContinuationFails(v: Text)
    requires v != [] && Utf8.IsContinuation(v[0])
    ensures StringBody(v).Err?
  {
  }

  lemma SecondByte(tail: Text)
    requires tail != [] && Utf8.Valid(tail) && !Utf8.IsAscii(tail[0])
    ensures |tail| > 1 && Utf8.IsContinuation(tail[1])
  {
  }

  /** An escape gives less than it takes, or is followed by half a character. */
  lemma RawEscape(u: Text, rest: Text, tail: Text)
    requires u == ['\\'] + rest && |rest| > |tail| && rest[..|tail|] == tail && Utf8.Valid(tail)
    requires StringBody(u).Ok? && StringBody(u).value.1 == |tail| + 2
    ensures |StringBody(u).value.0| <= |tail|
  {
    hide *;
    EscapeStep(u);
    BodyShorter(u[2..]);
    UnescapeShort(u[1]);
    if tail != [] && !Utf8.IsAscii(u[1]) {
      assert tail[0] == rest[..|tail|][0];
      SecondByte(tail);
      assert u[2..][0] == rest[1] == rest[..|tail|][1];
      ContinuationFails(u[2..]);
    }
  }

  /** A provenance text is read back from between its quotes if and only if it needs no escapes. */
  lemma RawTextIff(s: Text, rest: Text)
    requires Utf8.Valid(s)
    ensures Next(Quote(s) + rest) == Ok((QuotedText(s), |s| + 2)) <==> NoEscapes(s)
  {
    assert Quote(s) + rest != [];
    hide *;
    if NoEscapes(s) {
      PlainLexeme(s);
      NextQuoted(RawQuoted(s), rest);
    } else if Next(Quote(s) + rest) == Ok((QuotedText(s), |s| + 2)) {
      QuotedNext(s, rest);
      RawBody(s, rest);
    }
  }

  lemma QuotedStart(s: Text, rest: Text)
    ensures Quote(s) + rest == ['"'] + (s + "\"" + rest)
  {
  }

  lemma QuotedBody(u: Text, body: Text)
    requires u == ['"'] + body
    ensures Next(u).Ok? ==> StringBody(body).Ok?
    ensures Next(u).Ok? ==> Next(u).value == (QuotedText(StringBody(body).value.0), StringBody(body).value.1 + 1)
  {
    hide StringBody;
    assert u[1..] == body;
  }

  lemma QuotedNext(s: Text, rest: Text)
    requires Next(Quote(s) + rest) == Ok((QuotedText(s), |s| + 2))
    ensures StringBody(s + "\"" + rest) == Ok((s, |s| + 1))
  {
    var u := Quote(s) + rest;
    var body := s + "\"" + rest;
    QuotedStart(s, rest);
    hide *;
    QuotedBody(u, body);
  }

  lemma PlainLexeme(s: Text)
    requires Utf8.Valid(s) && NoEscapes(s)
    ensures WellSpelled(RawQuoted(s)) && RawQuoted(s).token == QuotedText(s)
    ensures RawQuoted(s).text == Quote(s) && |Quote(s)| == |s| + 2
  {
  }
}
