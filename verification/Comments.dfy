/** White space and comments between tokens: what the lexer skips changes nothing. */
module Comments {
  import opened Types
  import opened Lexer
  import opened Serialize
  import opened Grammar
  import opened Lexemes
  import opened RoundTrip

  /** One blank byte, or a comment up to and including the end of its line. */
  ghost predicate IsSkipped(g: Text) {
    || g == " " || g == "\t" || g == "\r" || g == "\n"
    || exists c: Text :: '\n' !in c && g == ";" + c + "\n"
  }

  /** Any number of these. */
  ghost predicate IsTrivia(gs: seq<Text>) {
    forall g <- gs :: IsSkipped(g)
  }

  function Joined(gs: seq<Text>): Text {
    if gs == [] then "" else gs[0] + Joined(gs[1..])
  }

  lemma {:induction false} CommentEnds(c: Text, s: Text)
    requires '\n' !in c
    ensures CommentLength(c + "\n" + s) == |c|
    ensures CommentLength(c) == |c|
  {
    if c != [] {
      assert (c + "\n" + s)[1..] == c[1..] + "\n" + s;
      CommentEnds(c[1..], s);
    }
  }

  lemma SameLeft(a: Text, b: Text, count: int)
    requires a[Skip(a)..] == b[Skip(b)..]
    ensures LexFrom(a, count) == LexFrom(b, count)
  {
    hide Next, Skip;
  }

  /** Each blank byte is skipped. */
  lemma BlankSkipped(g: Text, s: Text, count: int)
    requires g == " " || g == "\t" || g == "\r" || g == "\n"
    ensures LexFrom(g + s, count) == LexFrom(s, count)
  {
    var all := g + s;
    assert all[1..] == s;
    assert Skip(all) == 1 + Skip(s);
    assert all[Skip(all)..] == s[Skip(s)..];
    hide Skip, LexFrom;
    SameLeft(all, s, count);
  }

  /** A comment is skipped to the end of its line. */
  lemma CommentSkipped(c: Text, s: Text, count: int)
    requires '\n' !in c
    ensures LexFrom(";" + c + "\n" + s, count) == LexFrom(s, count)
  {
    var all, next := ";" + c + "\n" + s, "\n" + s;
    CommentEnds(";" + c, s);
    assert all == (";" + c) + "\n" + s;
    assert CommentLength(all) == 1 + |c|;
    assert all[1 + |c|..] == next;
    assert Skip(all) == 1 + |c| + Skip(next);
    assert all[1 + |c| + Skip(next)..] == next[Skip(next)..];
    hide Skip, LexFrom, CommentLength;
    SameLeft(all, next, count);
    BlankSkipped("\n", s, count);
  }

  /** A comment on the last line goes up to the end. */
  lemma LastComment(c: Text, count: int)
    requires '\n' !in c
    ensures LexFrom(";" + c, count) == Ok([Eof])
  {
    CommentEnds(";" + c, "");
    var all := ";" + c;
    assert all[|all|..] == [];
    assert Skip(all) == |all|;
    hide Skip, CommentLength;
    assert all[Skip(all)..] == [];
  }

  lemma SkippedOne(g: Text, s: Text, count: int)
    requires IsSkipped(g)
    ensures LexFrom(g + s, count) == LexFrom(s, count)
  {
    hide LexFrom;
    if c: Text :| '\n' !in c && g == ";" + c + "\n" {
      CommentSkipped(c, s, count);
      assert g + s == ";" + c + "\n" + s;
    } else {
      BlankSkipped(g, s, count);
    }
  }

  /** Any white space and comments in front of a text change nothing. */
  lemma {:induction false} TriviaSkipped(gs: seq<Text>, s: Text, count: int)
    requires IsTrivia(gs)
    ensures LexFrom(Joined(gs) + s, count) == LexFrom(s, count)
  {
    hide LexFrom, IsSkipped;
    if gs == [] {
      assert Joined(gs) + s == s;
    } else {
      assert gs == [gs[0]] + gs[1..];
      TriviaSkipped(gs[1..], s, count);
      SkippedOne(gs[0], Joined(gs[1..]) + s, count);
      assert Joined(gs) + s == gs[0] + (Joined(gs[1..]) + s);
    }
  }

  lemma SkippedStops(g: Text, s: Text)
    requires IsSkipped(g)
    ensures Stops(g + s)
  {
    if c: Text :| '\n' !in c && g == ";" + c + "\n" {
      assert (g + s)[0] == ';';
    }
  }

  lemma TriviaStops(gs: seq<Text>, s: Text)
    requires IsTrivia(gs) && gs != []
    ensures Stops(Joined(gs) + s)
  {
    assert IsSkipped(gs[0]);
    SkippedStops(gs[0], Joined(gs[1..]) + s);
    hide IsSkipped, Stops;
    assert Joined(gs) + s == gs[0] + (Joined(gs[1..]) + s);
  }

  // ----- texts with white space and comments anywhere between tokens -----

  /** Each token after what is skipped before it. */
  function Spread(ls: seq<Lexeme>, gaps: seq<seq<Text>>): Text
    requires |gaps| == |ls| + 1
  {
    if ls == [] then Joined(gaps[0]) else Joined(gaps[0]) + (ls[0].text + Spread(ls[1..], gaps[1..]))
  }

  /** Two neighbours that are not kept apart by a bracket are kept apart by something. */
  ghost predicate Apart(ls: seq<Lexeme>, gaps: seq<seq<Text>>)
    requires |gaps| == |ls| + 1
  {
    && (forall gap <- gaps :: IsTrivia(gap))
    && forall i :: 0 < i < |ls| && gaps[i] == [] ==> Opens(ls[i - 1]) || Closes(ls[i])
  }

  lemma ApartTail(ls: seq<Lexeme>, gaps: seq<seq<Text>>)
    requires |gaps| == |ls| + 1 && ls != [] && Apart(ls, gaps)
    ensures Apart(ls[1..], gaps[1..]) && IsTrivia(gaps[0]) && IsTrivia(gaps[1])
    ensures |ls| > 1 && gaps[1] == [] ==> Opens(ls[0]) || Closes(ls[1])
  {
    hide IsTrivia;
    forall i | 0 < i < |ls[1..]| && gaps[1..][i] == [] ensures Opens(ls[1..][i - 1]) || Closes(ls[1..][i]) {
      assert gaps[1..][i] == gaps[i + 1];
    }
  }

  lemma SpreadStops(ls: seq<Lexeme>, gaps: seq<seq<Text>>, left: Lexeme)
    requires |gaps| == |ls| + 1 && AllWellSpelled(ls) && IsTrivia(gaps[0])
    requires ls != [] && gaps[0] == [] ==> Opens(left) || Closes(ls[0])
    ensures Opens(left) || Stops(Spread(ls, gaps))
  {
    if gaps[0] == [] {
      if ls != [] && Closes(ls[0]) {
        assert WellSpelled(ls[0]);
        assert Joined(gaps[0]) + (ls[0].text + Spread(ls[1..], gaps[1..])) == ls[0].text + Spread(ls[1..], gaps[1..]);
      }
    } else {
      TriviaStops(gaps[0], if ls == [] then "" else ls[0].text + Spread(ls[1..], gaps[1..]));
      assert Joined(gaps[0]) + "" == Joined(gaps[0]);
    }
  }

  lemma SpreadCons(ls: seq<Lexeme>, gaps: seq<seq<Text>>)
    requires |gaps| == |ls| + 1 && ls != []
    ensures Spread(ls, gaps) == Joined(gaps[0]) + (ls[0].text + Spread(ls[1..], gaps[1..]))
  {
  }

  lemma SpreadEnd(gaps: seq<seq<Text>>)
    requires |gaps| == 1
    ensures Spread([], gaps) == Joined(gaps[0]) + ""
  {
  }

  /** Lexing gives the tokens, whatever white space and comments stand between them. */
  lemma {:induction false} SpreadLexes(ls: seq<Lexeme>, gaps: seq<seq<Text>>, count: int)
    requires |gaps| == |ls| + 1 && AllWellSpelled(ls) && Apart(ls, gaps) && count + |ls| <= MAX_TOKENS
    ensures LexFrom(Spread(ls, gaps), count) == Ok(TokensOf(ls) + [Eof])
    decreases |ls|
  {
    hide *;
    if ls == [] {
      FirstTrivia(ls, gaps);
      SpreadEnd(gaps);
      TriviaSkipped(gaps[0], "", count);
      LexNothing(count);
      NothingRendered();
      assert [] + [Eof] == [Eof];
    } else {
      var l, tail := ls[0], ls[1..];
      assert ls == [l] + tail;
      ApartTail(ls, gaps);
      WellSpelledSplit(l, tail);
      SpreadCons(ls, gaps);
      assert gaps[1..][0] == gaps[1];
      assert tail != [] ==> tail[0] == ls[1];
      SpreadStops(tail, gaps[1..], l);
      SpreadLexes(tail, gaps[1..], count + 1);
      TriviaSkipped(gaps[0], l.text + Spread(tail, gaps[1..]), count);
      LexFromCons(l, "", Spread(tail, gaps[1..]), count);
      assert "" + (l.text + Spread(tail, gaps[1..])) == l.text + Spread(tail, gaps[1..]);
      TokensOfCons(l, tail);
      PrefixedOk([l.token], TokensOf(tail) + [Eof]);
      assert [l.token] + (TokensOf(tail) + [Eof]) == [l.token] + TokensOf(tail) + [Eof];
    }
  }

  lemma FirstTrivia(ls: seq<Lexeme>, gaps: seq<seq<Text>>)
    requires |gaps| == |ls| + 1 && Apart(ls, gaps)
    ensures IsTrivia(gaps[0])
  {
    hide IsTrivia;
  }

  lemma PrefixedOk(tokens: seq<Token>, rest: seq<Token>)
    ensures Prefixed(tokens, Ok(rest)) == Ok(tokens + rest)
  {
  }

  /** White space and comments anywhere between tokens leave the parsed nodes as they are. */
  lemma SpreadParses(ls: seq<Lexeme>, gaps: seq<seq<Text>>, cal: Calendar)
    requires |gaps| == |ls| + 1 && AllWellSpelled(ls) && Apart(ls, gaps) && |ls| < MAX_TOKENS
    ensures Parse(Spread(ls, gaps), cal) == Parse(Render(ls), cal)
  {
    hide *;
    SpreadLexes(ls, gaps, 0);
    LexRender(ls, 0);
    SameTokens(Spread(ls, gaps), Render(ls), cal);
  }

  lemma SameTokens(a: Text, b: Text, cal: Calendar)
    requires LexFrom(a, 0) == LexFrom(b, 0)
    ensures Parse(a, cal) == Parse(b, cal)
  {
    hide LexFrom, ParseNodes;
  }
}
