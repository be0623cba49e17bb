/** Texts of several nodes: what parsing gives back of everything `canonical_all` writes. */
module Sources {
  import opened Types
  import opened Lexer
  import opened Serialize
  import opened Grammar
  import opened Lexemes
  import opened Printing
  import opened NodePrinting
  import opened Parsing
  import opened RoundTrip

  ghost predicate AllFit(nodes: seq<Node>) {
    forall n <- nodes :: NodeFits(n)
  }

  predicate AllShallow(nodes: seq<Node>) {
    forall n <- nodes :: Shallow(n)
  }

  /** The tokens of all nodes in a row. */
  function AllTokens(nodes: seq<Node>, cal: Calendar): seq<Token> {
    if nodes == [] then [] else TokensOf(NodeLexemes(nodes[0], cal)) + AllTokens(nodes[1..], cal)
  }

  function AllCarried(nodes: seq<Node>): seq<Node> {
    if nodes == [] then [] else [Carried(nodes[0])] + AllCarried(nodes[1..])
  }

  lemma AllFitCons(nodes: seq<Node>)
    requires nodes != []
    ensures AllFit(nodes) <==> NodeFits(nodes[0]) && AllFit(nodes[1..])
    ensures AllShallow(nodes) <==> Shallow(nodes[0]) && AllShallow(nodes[1..])
  {
    hide NodeFits, Shallow;
    assert nodes == [nodes[0]] + nodes[1..];
  }

  lemma AllCons(nodes: seq<Node>, cal: Calendar)
    requires nodes != []
    ensures AllText(nodes, cal) == NodeText(nodes[0], cal) + ("\n" + AllText(nodes[1..], cal))
    ensures AllTokens(nodes, cal) == TokensOf(NodeLexemes(nodes[0], cal)) + AllTokens(nodes[1..], cal)
    ensures AllCarried(nodes) == [Carried(nodes[0])] + AllCarried(nodes[1..])
  {
    hide NodeText, TokensOf, NodeLexemes, Carried;
  }

  lemma AllNothing(cal: Calendar)
    ensures AllText([], cal) == "" && AllTokens([], cal) == [] && AllCarried([]) == []
    ensures AllFit([]) && AllShallow([])
  {
  }

  lemma LineBreak(s: Text, count: int)
    ensures LexFrom("\n" + s, count) == LexFrom(s, count) && Stops("\n" + s)
  {
    hide Next;
    assert ("\n" + s)[1..] == s;
    assert Skip("\n" + s) == 1 + Skip(s);
    assert ("\n" + s)[1 + Skip(s)..] == s[Skip(s)..];
  }

  lemma PrefixedMore(a: seq<Token>, b: seq<Token>)
    ensures Prefixed(a, Ok(b + [Eof])) == Ok(a + b + [Eof])
    ensures Prefixed(a, Err(TooManyTokens)) == Err(TooManyTokens)
  {
    assert a + (b + [Eof]) == a + b + [Eof];
  }

  /** Lexing a text of nodes, up to the token limit and beyond. */
  lemma {:induction false} LexAllNodes(nodes: seq<Node>, count: int, cal: Calendar)
    requires AllFit(nodes) && Lawful(cal) && count <= MAX_TOKENS
    ensures LexFrom(AllText(nodes, cal), count)
         == if count + |AllTokens(nodes, cal)| <= MAX_TOKENS then Ok(AllTokens(nodes, cal) + [Eof])
            else Err(TooManyTokens)
  {
    hide *;
    if nodes == [] {
      AllNothing(cal);
      LexNothing(count);
      assert [] + [Eof] == [Eof];
    } else {
      var ls, rest := NodeLexemes(nodes[0], cal), nodes[1..];
      var after := "\n" + AllText(rest, cal);
      AllFitCons(nodes);
      AllCons(nodes, cal);
      NodeSpelled(nodes[0], cal);
      NodeRender(nodes[0], cal);
      NodeNotEmpty(nodes[0], cal);
      LineBreak(AllText(rest, cal), count + |ls|);
      assert "" + AllText(nodes, cal) == AllText(nodes, cal);
      PrefixedMore(TokensOf(ls), AllTokens(rest, cal));
      if count + |ls| <= MAX_TOKENS {
        LexAllNodes(rest, count + |ls|, cal);
        LexThen(ls, "", after, count);
      } else {
        LexTooMany(ls, "", after, count);
      }
    }
  }

  lemma NodeNotEmpty(n: Node, cal: Calendar)
    ensures NodeLexemes(n, cal) != []
  {
    hide AppendFields, FieldsOf, NodeHeader;
  }

  // ----- parsing -----

  function Nodes(fits: bool, nodes: seq<Node>): Result<seq<Node>, ParseError> {
    if fits then Ok(nodes) else Err(DepthLimitExceeded)
  }

  lemma NodesStep(ts: Stream, fits: bool, n: Node, rest: Stream, all: bool, nodes: seq<Node>, cal: Calendar)
    requires AtNode(ts) && ParseNode(ts, 0, cal) == Outcome(fits, n, rest) && ParseNodes(rest, cal) == Nodes(all, nodes)
    ensures ParseNodes(ts, cal) == Nodes(fits && all, [n] + nodes)
  {
    hide ParseNode;
  }

  /** The parser's loop reads the nodes back one after the other. */
  lemma {:induction false} NodesReadBack(nodes: seq<Node>, all: Stream, cal: Calendar)
    requires AllFit(nodes) && Lawful(cal) && all == AllTokens(nodes, cal) + [Eof]
    ensures ParseNodes(all, cal) == Nodes(AllShallow(nodes), AllCarried(nodes))
  {
    hide *;
    if nodes == [] {
      AllNothing(cal);
      assert all == [Eof];
      NoNodesLeft(cal);
    } else {
      var rest: Stream := AllTokens(nodes[1..], cal) + [Eof];
      AllFitCons(nodes);
      AllCons(nodes, cal);
      Associated(TokensOf(NodeLexemes(nodes[0], cal)), AllTokens(nodes[1..], cal), [Eof]);
      NodesReadBack(nodes[1..], rest, cal);
      NodeReadBack(nodes[0], all, rest, cal);
      NodeStart(nodes[0], all, rest, cal);
      NodesStep(all, Shallow(nodes[0]), Carried(nodes[0]), rest, AllShallow(nodes[1..]), AllCarried(nodes[1..]), cal);
    }
  }

  lemma NoNodesLeft(cal: Calendar)
    ensures ParseNodes([Eof], cal) == Nodes(true, [])
  {
  }

  lemma NodeStart(n: Node, all: Stream, rest: Stream, cal: Calendar)
    requires all == TokensOf(NodeLexemes(n, cal)) + rest
    ensures AtNode(all)
  {
    hide TokensOf, NodeLexemes, FieldsTokens, FieldsOf;
    NodeTokens(n, rest, cal);
  }

  /** What parsing the text of any number of nodes that fit returns: the token errors, the depth error if some node is
      nested too deeply, and otherwise all of them, in order. */
  lemma AllRoundTrip(nodes: seq<Node>, cal: Calendar)
    requires AllFit(nodes) && Lawful(cal)
    ensures Parse(AllText(nodes, cal), cal)
         == if |AllTokens(nodes, cal)| > MAX_TOKENS then Err(LexFailed(LexError.TooManyTokens))
            else if |AllTokens(nodes, cal)| == MAX_TOKENS then Err(TokenLimit)
            else if AllShallow(nodes) then Ok(AllCarried(nodes))
            else Err(DepthLimitExceeded)
  {
    assert 0 <= MAX_TOKENS;
    hide *;
    LexAllNodes(nodes, 0, cal);
    if |AllTokens(nodes, cal)| > MAX_TOKENS {
      ParseFails(AllText(nodes, cal), cal);
    } else {
      var all: Stream := AllTokens(nodes, cal) + [Eof];
      ParseLexed(AllText(nodes, cal), all, cal);
      NodesReadBack(nodes, all, cal);
      NodesOf(AllShallow(nodes), AllCarried(nodes));
    }
  }

  lemma NodesOf(fits: bool, nodes: seq<Node>)
    ensures Nodes(fits, nodes) == if fits then Ok(nodes) else Err(DepthLimitExceeded)
  {
  }

  lemma ParseFails(src: Text, cal: Calendar)
    requires LexFrom(src, 0) == Err(TooManyTokens)
    ensures Parse(src, cal) == Err(LexFailed(LexError.TooManyTokens))
  {
    hide LexFrom, ParseNodes;
  }

  lemma ParseLexed(src: Text, all: Stream, cal: Calendar)
    requires LexFrom(src, 0) == Ok(all)
    ensures Parse(src, cal) == if |all| > MAX_TOKENS then Err(TokenLimit) else ParseNodes(all, cal)
  {
    hide LexFrom, ParseNodes;
  }
}
