/** The parser's cursor (`factum-core/src/parser.rs`): a token list, a position and a nesting counter.

    Every method says what it does to the cursor in terms of `Grammar`: on success the value and the tokens
    left are those of the grammar function; on failure the error is. On every exit, error exits included, the
    position is in bounds and has not moved back, and the nesting counter is what it was. */
module Parser {
  import opened Types
  import opened Decimal
  import opened Lexer
  import opened Serialize
  import opened Grammar

  /** A parse step that left `rest` agrees with the grammar. */
  ghost predicate Follows<T>(spec: Parsed<T>, r: Result<T, ParseError>, rest: Stream) {
    match spec
    case Ok((value, left)) => r == Ok(value) && rest == left
    case Err(e) => r == Err(e)
  }

  ghost predicate Accepts(spec: Result<Stream, ParseError>, r: Result<(), ParseError>, rest: Stream) {
    match spec
    case Ok(left) => r == Ok(()) && rest == left
    case Err(e) => r == Err(e)
  }

  lemma DropMore(ts: seq<Token>, i: nat)
    requires i < |ts|
    ensures ts[i..][1..] == ts[i + 1..] && ts[i..][0] == ts[i]
  {
  }

  // ----- loops that collect -----

  function PrependItems(items: seq<Term>, r: Parsed<seq<Term>>): Parsed<seq<Term>> {
    match r
    case Ok((more, left)) => Ok((items + more, left))
    case Err(e) => Err(e)
  }

  lemma PrependItemsTwice(a: seq<Term>, b: seq<Term>, r: Parsed<seq<Term>>)
    ensures PrependItems(a, PrependItems(b, r)) == PrependItems(a + b, r) && PrependItems([], r) == r
  {
    match r
    case Ok((more, _)) =>
      assert a + (b + more) == a + b + more;
      assert [] + more == more;
    case Err(_) =>
  }

  /** One turn of the item loop. */
  function ItemsOnce(ts: Stream, depth: int, cal: Calendar): Parsed<seq<Term>> {
    if ts[0] == RBracket || ts[0] == Eof then Ok(([], ts))
    else
      var (item, left) :- ParseTerm(ts, depth, cal);
      PrependItems([item], ParseItems(left, depth, cal))
  }

  lemma ItemsUnfold(ts: Stream, depth: int, cal: Calendar)
    ensures ParseItems(ts, depth, cal) == ItemsOnce(ts, depth, cal)
  {
    hide ParseTerm;
  }

  function PrependArgs(a: Arguments, r: Parsed<Arguments>): Parsed<Arguments> {
    match r
    case Ok((more, left)) => Ok((Arguments(a.args + more.args, a.named + more.named), left))
    case Err(e) => Err(e)
  }

  lemma PrependArgsTwice(a: Arguments, b: Arguments, r: Parsed<Arguments>)
    ensures PrependArgs(a, PrependArgs(b, r)) == PrependArgs(Arguments(a.args + b.args, a.named + b.named), r)
    ensures PrependArgs(Arguments([], []), r) == r
  {
    match r
    case Ok((more, _)) =>
      assert a.args + (b.args + more.args) == a.args + b.args + more.args;
      assert a.named + (b.named + more.named) == a.named + b.named + more.named;
      assert [] + more.args == more.args && [] + more.named == more.named;
    case Err(_) =>
  }

  /** One turn of the argument loop. */
  function ArgsOnce(ts: Stream, inNamed: bool, depth: int, cal: Calendar): Parsed<Arguments> {
    if ts[0] == RParen || ts[0] == Eof then Ok((Arguments([], []), ts))
    else if ts[0].Keyword? then
      var (value, left) :- ParseTerm(Advance(ts), depth, cal);
      PrependArgs(Arguments([], [NamedArg(ts[0].text, value)]), ParseArgs(left, true, depth, cal))
    else if inNamed then Err(NamedArgBeforePositional)
    else
      var (arg, left) :- ParseTerm(ts, depth, cal);
      PrependArgs(Arguments([arg], []), ParseArgs(left, false, depth, cal))
  }

  lemma ArgsUnfold(ts: Stream, inNamed: bool, depth: int, cal: Calendar)
    ensures ParseArgs(ts, inNamed, depth, cal) == ArgsOnce(ts, inNamed, depth, cal)
  {
    hide ParseTerm, Advance;
    assert forall a: Arguments :: [] + a.args == a.args && [] + a.named == a.named;
  }

  function PrependIds(ids: seq<Text>, r: Parsed<seq<Text>>): Parsed<seq<Text>> {
    match r
    case Ok((more, left)) => Ok((ids + more, left))
    case Err(e) => Err(e)
  }

  lemma PrependIdsTwice(a: seq<Text>, b: seq<Text>, r: Parsed<seq<Text>>)
    ensures PrependIds(a, PrependIds(b, r)) == PrependIds(a + b, r) && PrependIds([], r) == r
  {
    match r
    case Ok((more, _)) =>
      assert a + (b + more) == a + b + more;
      assert [] + more == more;
    case Err(_) =>
  }

  class Parser {
    const tokens: Stream
    const cal: Calendar
    var pos: nat
    var depth: nat

    ghost predicate Valid()
      reads this
    {
      pos < |tokens| && depth <= MAX_PARSE_DEPTH
    }

    /** The tokens left. */
    ghost function Rest(): Stream
      requires Valid()
      reads this
    {
      tokens[pos..]
    }

    constructor (tokens: Stream, cal: Calendar)
      ensures Valid() && this.tokens == tokens && this.cal == cal && pos == 0 && depth == 0
    {
      this.tokens := tokens;
      this.cal := cal;
      pos := 0;
      depth := 0;
    }

    /** `advance`: gives the current token and moves past it, unless it is `Eof`. */
    method Next() returns (token: Token)
      requires Valid()
      modifies this
      ensures Valid() && depth == old(depth) && old(pos) <= pos
      ensures token == old(Rest())[0] && Rest() == Advance(old(Rest()))
    {
      DropMore(tokens, pos);
      token := tokens[pos];
      if token != Eof {
        pos := pos + 1;
      }
    }

    method ExpectToken(token: Token) returns (r: Result<(), ParseError>)
      requires Valid() && token != Eof
      modifies this
      ensures Valid() && depth == old(depth) && old(pos) <= pos
      ensures Accepts(Expect(old(Rest()), token), r, Rest())
    {
      if tokens[pos] == token {
        var _ := Next();
        r := Ok(());
      } else if token == RParen && tokens[pos] == Eof {
        r := Err(UnbalancedParen);
      } else {
        r := Err(UnexpectedToken);
      }
    }

    method ExpectWord(text: Text) returns (r: Result<(), ParseError>)
      requires Valid()
      modifies this
      ensures Valid() && depth == old(depth) && old(pos) <= pos
      ensures Accepts(ExpectSymbol(old(Rest()), text), r, Rest())
    {
      if tokens[pos] == Symbol(text) {
        var _ := Next();
        r := Ok(());
      } else {
        r := Err(UnexpectedToken);
      }
    }

    // ----- terms and predicates -----

    /** `parse_term`. */
    method Term() returns (r: Result<Term, ParseError>)
      requires Valid()
      modifies this
      ensures Valid() && depth == old(depth) && old(pos) <= pos
      ensures Follows(ParseTerm(old(Rest()), depth, cal), r, Rest())
      decreases |tokens| - pos, 1
    {
      if tokens[pos] == LParen {
        r := CompoundTerm();
      } else if tokens[pos] == LBracket {
        r := ListTerm();
      } else {
        r := ParseLeaf(tokens[pos], cal);
        if r.Ok? {
          var _ := Next();
        }
      }
    }

    method CompoundTerm() returns (r: Result<Term, ParseError>)
      requires Valid() && Rest()[0] == LParen
      modifies this
      ensures Valid() && depth == old(depth) && old(pos) <= pos
      ensures Follows(ParseTerm(old(Rest()), depth, cal), r, Rest())
      decreases |tokens| - pos, 0
    {
      hide ParseBody, Advance;
      if depth >= MAX_PARSE_DEPTH {
        return Err(DepthLimitExceeded);
      }
      depth := depth + 1;
      var _ := Next();
      var pred := Body();
      if pred.Err? {
        depth := depth - 1;
        return Err(pred.error);
      }
      var close := ExpectToken(RParen);
      depth := depth - 1;
      r := if close.Ok? then Ok(Compound(pred.value)) else Err(close.error);
    }

    method ListTerm() returns (r: Result<Term, ParseError>)
      requires Valid() && Rest()[0] == LBracket
      modifies this
      ensures Valid() && depth == old(depth) && old(pos) <= pos
      ensures Follows(ParseTerm(old(Rest()), depth, cal), r, Rest())
      decreases |tokens| - pos, 0
    {
      hide ParseItems, Advance;
      if depth >= MAX_PARSE_DEPTH {
        return Err(DepthLimitExceeded);
      }
      depth := depth + 1;
      var _ := Next();
      var items := Items();
      if items.Err? {
        depth := depth - 1;
        return Err(items.error);
      }
      var close := ExpectToken(RBracket);
      depth := depth - 1;
      r := if close.Ok? then Ok(List(items.value)) else Err(close.error);
    }

    /** The item loop of a list. */
    method Items() returns (r: Result<seq<Term>, ParseError>)
      requires Valid()
      modifies this
      ensures Valid() && depth == old(depth) && old(pos) <= pos
      ensures Follows(ParseItems(old(Rest()), depth, cal), r, Rest())
      decreases |tokens| - pos, 2
    {
      hide ParseItems, ParseTerm, PrependItems;
      ghost var spec := ParseItems(Rest(), depth, cal);
      var items := [];
      PrependItemsTwice([], [], spec);
      while tokens[pos] != RBracket && tokens[pos] != Eof
        invariant Valid() && depth == old(depth) && old(pos) <= pos
        invariant spec == PrependItems(items, ParseItems(Rest(), depth, cal))
        decreases |tokens| - pos
      {
        ItemsUnfold(Rest(), depth, cal);
        PrependItemsEnd(items, ParseItems(Rest(), depth, cal));
        var item := Term();
        if item.Err? {
          return Err(item.error);
        }
        PrependItemsTwice(items, [item.value], ParseItems(Rest(), depth, cal));
        items := items + [item.value];
      }
      ItemsUnfold(Rest(), depth, cal);
      PrependItemsEnd(items, ParseItems(Rest(), depth, cal));
      assert items + [] == items;
      r := Ok(items);
    }

    /** `parse_predicate_body_inner`. */
    method Body() returns (r: Result<Predicate, ParseError>)
      requires Valid()
      modifies this
      ensures Valid() && depth == old(depth) && old(pos) <= pos
      ensures Follows(ParseBody(old(Rest()), depth, cal), r, Rest())
      decreases |tokens| - pos, 3
    {
      hide ParseArgs;
      var head := tokens[pos];
      if !head.Symbol? {
        return Err(HeadExpected);
      }
      var _ := Next();
      var a := Args();
      r := if a.Ok? then Ok(Predicate(Name(head.text), a.value.args, a.value.named)) else Err(a.error);
    }

    /** The argument loop: positional arguments, then named ones. */
    method Args() returns (r: Result<Arguments, ParseError>)
      requires Valid()
      modifies this
      ensures Valid() && depth == old(depth) && old(pos) <= pos
      ensures Follows(ParseArgs(old(Rest()), false, depth, cal), r, Rest())
      decreases |tokens| - pos, 2
    {
      hide ParseArgs, ParseTerm, PrependArgs;
      ghost var spec := ParseArgs(Rest(), false, depth, cal);
      var args, named, inNamed := [], [], false;
      PrependArgsTwice(Arguments([], []), Arguments([], []), spec);
      while tokens[pos] != RParen && tokens[pos] != Eof
        invariant Valid() && depth == old(depth) && old(pos) <= pos
        invariant spec == PrependArgs(Arguments(args, named), ParseArgs(Rest(), inNamed, depth, cal))
        decreases |tokens| - pos
      {
        ArgsUnfold(Rest(), inNamed, depth, cal);
        PrependArgsEnd(Arguments(args, named), ParseArgs(Rest(), inNamed, depth, cal));
        if tokens[pos].Keyword? {
          inNamed := true;
          var key := Next();
          var value := Term();
          if value.Err? {
            return Err(value.error);
          }
          PrependArgsTwice(Arguments(args, named), Arguments([], [NamedArg(key.text, value.value)]),
                           ParseArgs(Rest(), true, depth, cal));
          assert args + [] == args;
          named := named + [NamedArg(key.text, value.value)];
        } else if inNamed {
          return Err(NamedArgBeforePositional);
        } else {
          var arg := Term();
          if arg.Err? {
            return Err(arg.error);
          }
          PrependArgsTwice(Arguments(args, named), Arguments([arg.value], []), ParseArgs(Rest(), false, depth, cal));
          assert named + [] == named;
          args := args + [arg.value];
        }
      }
      ArgsUnfold(Rest(), inNamed, depth, cal);
      PrependArgsEnd(Arguments(args, named), ParseArgs(Rest(), inNamed, depth, cal));
      assert args + [] == args && named + [] == named;
      r := Ok(Arguments(args, named));
    }

    /** `parse_predicate_form`. */
    method Form() returns (r: Result<Predicate, ParseError>)
      requires Valid()
      modifies this
      ensures Valid() && depth == old(depth) && old(pos) <= pos
      ensures Follows(ParseForm(old(Rest()), depth, cal), r, Rest())
    {
      hide ParseBody;
      if depth >= MAX_PARSE_DEPTH {
        return Err(DepthLimitExceeded);
      }
      depth := depth + 1;
      var open := ExpectToken(LParen);
      if open.Err? {
        depth := depth - 1;
        return Err(open.error);
      }
      var pred := Body();
      if pred.Err? {
        depth := depth - 1;
        return Err(pred.error);
      }
      var close := ExpectToken(RParen);
      depth := depth - 1;
      r := if close.Ok? then Ok(pred.value) else Err(close.error);
    }

    // ----- node fields -----

    method Time() returns (r: Result<Instant, ParseError>)
      requires Valid()
      modifies this
      ensures Valid() && depth == old(depth) && old(pos) <= pos
      ensures Follows(ParseTime(old(Rest()), cal), r, Rest())
    {
      hide Advance;
      ghost var ts := Rest();
      var token := Next();
      match token {
        case DateText(s) =>
          match cal.readDate(s) {
            case Some(day) =>
              r := if I64_MIN * NANOS <= day * DAY_NANOS < (I64_MAX + 1) * NANOS then Ok(day * DAY_NANOS)
                   else Err(BadDate);
            case None =>
              r := Err(BadDate);
          }
        case QuotedText(s) =>
          var t := cal.readTime(s);
          r := if t.Some? then Ok(t.value) else Err(BadDate);
        case _ =>
          r := Err(TimeExpected);
      }
    }

    /** `parse_validity`. */
    method ValidityField() returns (r: Result<Validity, ParseError>)
      requires Valid()
      modifies this
      ensures Valid() && depth == old(depth) && old(pos) <= pos
      ensures Follows(ParseValidity(old(Rest()), cal), r, Rest())
    {
      hide ParseTime, Advance;
      if tokens[pos] == Symbol("forever") {
        var _ := Next();
        return Ok(Forever);
      }
      if tokens[pos] != LParen {
        return Err(ValidityExpected);
      }
      var _ := Next();
      var word := ExpectWord("window");
      if word.Err? {
        return Err(word.error);
      }
      var from := Time();
      if from.Err? {
        return Err(from.error);
      }
      if tokens[pos] == RParen {
        var _ := Next();
        return Ok(Window(from.value, None));
      }
      var until := Time();
      if until.Err? {
        return Err(until.error);
      }
      var close := ExpectToken(RParen);
      r := if close.Ok? then Ok(Window(from.value, Some(until.value))) else Err(close.error);
    }

    /** `parse_doc_id`, `parse_rule_id`, `parse_principal` and `parse_smol_str`. */
    method TextToken() returns (r: Result<Text, ParseError>)
      requires Valid()
      modifies this
      ensures Valid() && depth == old(depth) && old(pos) <= pos
      ensures Follows(ParseText(old(Rest())), r, Rest())
    {
      hide Advance;
      var token := Next();
      r := if token.Symbol? || token.QuotedText? then Ok(token.text) else Err(TextExpected);
    }

    method U32Token() returns (r: Result<U32, ParseError>)
      requires Valid()
      modifies this
      ensures Valid() && depth == old(depth) && old(pos) <= pos
      ensures Follows(ParseU32(old(Rest())), r, Rest())
    {
      hide Advance, ParseUnsigned;
      var token := Next();
      if !token.Number? {
        return Err(NumberExpected);
      }
      match ParseUnsigned(token.text, U32_LIMIT) {
        case Some(n) =>
          r := if n < U32_LIMIT then Ok(n) else Err(BadNumber);
        case None =>
          r := Err(BadNumber);
      }
    }

    method SpanField() returns (r: Result<Span, ParseError>)
      requires Valid()
      modifies this
      ensures Valid() && depth == old(depth) && old(pos) <= pos
      ensures Follows(ParseSpan(old(Rest())), r, Rest())
    {
      hide ParseU32, Advance;
      var bracketed := tokens[pos] == LBracket;
      if bracketed {
        var _ := Next();
      }
      var start := U32Token();
      if start.Err? {
        return Err(start.error);
      }
      var end := U32Token();
      if end.Err? {
        return Err(end.error);
      }
      r := Ok(Span(start.value, end.value));
      if bracketed {
        var close := ExpectToken(RBracket);
        r := if close.Ok? then r else Err(close.error);
      }
    }

    /** `parse_model_ref`. */
    method ModelField() returns (r: Result<(Text, Text), ParseError>)
      requires Valid()
      modifies this
      ensures Valid() && depth == old(depth) && old(pos) <= pos
      ensures Follows(ParseModel(old(Rest())), r, Rest())
    {
      hide ParseText, Advance;
      var enclosed := tokens[pos] == LParen;
      if enclosed {
        var _ := Next();
        var word := ExpectWord("model");
        if word.Err? {
          return Err(word.error);
        }
      } else if !tokens[pos].Symbol? && !tokens[pos].QuotedText? {
        return Err(MissingModelRef);
      }
      var name := TextToken();
      if name.Err? {
        return Err(name.error);
      }
      var version := TextToken();
      if version.Err? {
        return Err(version.error);
      }
      r := Ok((name.value, version.value));
      if enclosed {
        var close := ExpectToken(RParen);
        r := if close.Ok? then r else Err(close.error);
      }
    }

    /** The branch of `parse_provenance` for `kind`. */
    method ProvenanceOf(kind: Text) returns (r: Result<Provenance, ParseError>)
      requires Valid()
      modifies this
      ensures Valid() && depth == old(depth) && old(pos) <= pos
      ensures Follows(ParseProvenanceOf(kind, old(Rest())), r, Rest())
    {
      hide ParseText, ParseSpan, ParseModel, Advance;
      if kind == "verbatim" || kind == "summary" || kind == "extracted" {
        var doc := TextToken();
        if doc.Err? {
          return Err(doc.error);
        }
        var span := SpanField();
        if span.Err? {
          return Err(span.error);
        }
        if kind == "verbatim" {
          return Ok(Verbatim(doc.value, span.value));
        } else if kind == "summary" {
          return Ok(Summary(doc.value, span.value));
        }
        var model := ModelField();
        r := if model.Ok? then Ok(Extracted(doc.value, span.value, model.value.0, model.value.1)) else Err(model.error);
      } else if kind == "derived" {
        if !tokens[pos].Symbol? {
          return Err(NodeIdExpected);
        }
        var from := Next();
        var rule := TextToken();
        r := if rule.Ok? then Ok(Derived(from.text, rule.value)) else Err(rule.error);
      } else if kind == "asserted" {
        var principal := TextToken();
        r := if principal.Ok? then Ok(Asserted(principal.value)) else Err(principal.error);
      } else {
        r := Err(UnknownProvenance);
      }
    }

    /** `parse_provenance`. */
    method ProvenanceField() returns (r: Result<Provenance, ParseError>)
      requires Valid()
      modifies this
      ensures Valid() && depth == old(depth) && old(pos) <= pos
      ensures Follows(ParseProvenance(old(Rest())), r, Rest())
    {
      hide ParseProvenanceOf, Advance;
      var open := ExpectToken(LParen);
      if open.Err? {
        return Err(open.error);
      }
      if !tokens[pos].Symbol? {
        return Err(ProvenanceExpected);
      }
      var kind := Next();
      r := ProvenanceOf(kind.text);
      if r.Ok? {
        var close := ExpectToken(RParen);
        r := if close.Ok? then r else Err(close.error);
      }
    }

    /** `parse_f32` and the range check of its callers. */
    method UnitScore() returns (r: Result<Score, ParseError>)
      requires Valid()
      modifies this
      ensures Valid() && depth == old(depth) && old(pos) <= pos
      ensures Follows(ParseUnitScore(old(Rest())), r, Rest())
    {
      hide Advance, ParseScore;
      var token := Next();
      if !token.Number? {
        return Err(NumberExpected);
      }
      match ParseScore(token.text) {
        case Some(score) =>
          r := if score.InUnit() then Ok(score) else Err(ScoreOutOfRange);
        case None =>
          r := Err(BadNumber);
      }
    }

    /** `parse_permission_tag`. */
    method PermissionField() returns (r: Result<bv32, ParseError>)
      requires Valid()
      modifies this
      ensures Valid() && depth == old(depth) && old(pos) <= pos
      ensures Follows(ParsePermission(old(Rest())), r, Rest())
    {
      hide Advance;
      var token := Next();
      if !token.Symbol? {
        return Err(PermissionExpected);
      }
      r := if token.text == "public" then Ok(PUBLIC)
           else if token.text == "internal" then Ok(INTERNAL)
           else if token.text == "confidential" then Ok(CONFIDENTIAL)
           else if token.text == "restricted" then Ok(RESTRICTED)
           else Err(UnknownPermission);
    }

    /** The bracketed loop of `parse_id_list`. */
    method Ids() returns (r: Result<seq<Text>, ParseError>)
      requires Valid()
      modifies this
      ensures Valid() && depth == old(depth) && old(pos) <= pos
      ensures Follows(ParseIds(old(Rest())), r, Rest())
    {
      hide ParseIds, PrependIds, Advance;
      ghost var spec := ParseIds(Rest());
      var ids := [];
      PrependIdsTwice([], [], spec);
      while tokens[pos] != RBracket && tokens[pos] != Eof
        invariant Valid() && depth == old(depth) && old(pos) <= pos
        invariant spec == PrependIds(ids, ParseIds(Rest()))
        decreases |tokens| - pos
      {
        IdsUnfold(Rest());
        PrependIdsEnd(ids, ParseIds(Rest()));
        AdvanceShrinks(Rest());
        var token := Next();
        if !token.Symbol? {
          return Err(IdExpected);
        }
        PrependIdsTwice(ids, [token.text], ParseIds(Rest()));
        ids := ids + [token.text];
      }
      IdsUnfold(Rest());
      PrependIdsEnd(ids, ParseIds(Rest()));
      assert ids + [] == ids;
      r := Ok(ids);
    }

    /** `parse_id_list`. */
    method IdList() returns (r: Result<seq<Text>, ParseError>)
      requires Valid()
      modifies this
      ensures Valid() && depth == old(depth) && old(pos) <= pos
      ensures Follows(ParseIdList(old(Rest())), r, Rest())
    {
      hide ParseIds, Advance;
      if tokens[pos] == LBracket {
        var _ := Next();
        r := Ids();
        if r.Ok? {
          var close := ExpectToken(RBracket);
          r := if close.Ok? then r else Err(close.error);
        }
      } else {
        var token := Next();
        r := if token.Symbol? then Ok([token.text]) else Err(IdExpected);
      }
    }

    /** One field, after its keyword. */
    method FieldOf(keyword: Text, f: Fields) returns (r: Result<Fields, ParseError>)
      requires Valid()
      modifies this
      ensures Valid() && depth == old(depth) && old(pos) <= pos
      ensures Follows(ParseField(keyword, old(Rest()), f, depth, cal), r, Rest())
    {
      hide ParseForm, ParseValidity, ParseProvenance, ParseUnitScore, ParsePermission, ParseIdList, Advance;
      if keyword == "pred" {
        var pred := Form();
        r := if pred.Ok? then Ok(f.(pred := Some(pred.value))) else Err(pred.error);
      } else if keyword == "valid" {
        var validity := ValidityField();
        r := if validity.Ok? then Ok(f.(validity := validity.value)) else Err(validity.error);
      } else if keyword == "src" {
        var provenance := ProvenanceField();
        r := if provenance.Ok? then Ok(f.(provenance := provenance.value)) else Err(provenance.error);
      } else if keyword == "conf" {
        var score := UnitScore();
        r := if score.Ok? then Ok(f.(confidence := score.value)) else Err(score.error);
      } else if keyword == "auth" {
        var score := UnitScore();
        r := if score.Ok? then Ok(f.(authority := score.value)) else Err(score.error);
      } else if keyword == "perm" {
        var tag := PermissionField();
        r := if tag.Ok? then Ok(f.(permissions := tag.value)) else Err(tag.error);
      } else if keyword == "deps" {
        var ids := IdList();
        r := if ids.Ok? then Ok(f.(deps := ids.value)) else Err(ids.error);
      } else if keyword == "note" {
        var token := Next();
        r := if token.QuotedText? || token.Symbol? then Ok(f.(note := Some(token.text))) else Err(NoteExpected);
      } else {
        r := Err(UnknownNodeField);
      }
    }

    /** The field loop of `parse_node`. */
    method NodeFields() returns (r: Result<Fields, ParseError>)
      requires Valid()
      modifies this
      ensures Valid() && depth == old(depth) && old(pos) <= pos
      ensures Follows(ParseFields(old(Rest()), DEFAULT_FIELDS, depth, cal), r, Rest())
    {
      hide ParseFields, ParseField, Advance;
      ghost var spec := ParseFields(Rest(), DEFAULT_FIELDS, depth, cal);
      var f := DEFAULT_FIELDS;
      while tokens[pos] != RParen && tokens[pos] != Eof
        invariant Valid() && depth == old(depth) && old(pos) <= pos
        invariant spec == ParseFields(Rest(), f, depth, cal)
        decreases |tokens| - pos
      {
        FieldsUnfold(Rest(), f, depth, cal);
        AdvanceShrinks(Rest());
        if !tokens[pos].Keyword? {
          return Err(FieldExpected);
        }
        var keyword := Next();
        r := FieldOf(keyword.text, f);
        if r.Err? {
          return;
        }
        f := r.value;
      }
      FieldsUnfold(Rest(), f, depth, cal);
      r := Ok(f);
    }

    /** `parse_node`. */
    method NodeForm() returns (r: Result<Node, ParseError>)
      requires Valid()
      modifies this
      ensures Valid() && depth == old(depth) && old(pos) <= pos
      ensures Follows(ParseNode(old(Rest()), depth, cal), r, Rest())
    {
      hide ParseFields, Advance;
      if depth >= MAX_PARSE_DEPTH {
        return Err(DepthLimitExceeded);
      }
      depth := depth + 1;
      r := NodeBody();
      depth := depth - 1;
    }

    /** `parse_node` inside `with_depth`. */
    method NodeBody() returns (r: Result<Node, ParseError>)
      requires Valid() && depth > 0
      modifies this
      ensures Valid() && depth == old(depth) && old(pos) <= pos
      ensures Follows(ParseNode(old(Rest()), depth - 1, cal), r, Rest())
    {
      hide ParseFields, Advance;
      var open := ExpectToken(LParen);
      if open.Err? {
        return Err(open.error);
      }
      var word := ExpectWord("node");
      if word.Err? {
        return Err(word.error);
      }
      var id := Next();
      if !id.Symbol? {
        return Err(NodeIdExpected);
      }
      var f := NodeFields();
      if f.Err? {
        return Err(f.error);
      }
      var close := ExpectToken(RParen);
      if close.Err? {
        return Err(close.error);
      }
      var g := f.value;
      r := if g.pred.None? then Err(MissingPredField)
           else Ok(Node(id.text, g.pred.value, g.validity, g.provenance, g.confidence, g.authority, g.permissions,
                        g.deps, Active, g.note));
    }

    // ----- whole inputs -----

    /** `skip_sexp`. */
    method SkipForm()
      requires Valid()
      modifies this
      ensures Valid() && depth == old(depth) && old(pos) <= pos
      ensures Rest() == SkipSexp(old(Rest()))
    {
      hide SkipOpen, Advance;
      if tokens[pos] == LParen || tokens[pos] == LBracket {
        var close := if tokens[pos] == LParen then RParen else RBracket;
        var _ := Next();
        ghost var spec := SkipOpen(Rest(), 1, close);
        var open := 1;
        while open > 0 && tokens[pos] != Eof
          invariant Valid() && depth == old(depth) && old(pos) <= pos && open >= 0
          invariant spec == SkipOpen(Rest(), open, close)
          decreases |tokens| - pos
        {
          SkipUnfold(Rest(), open, close);
          AdvanceShrinks(Rest());
          var token := Next();
          if token == LParen || token == LBracket {
            open := open + 1;
          } else if token == close {
            open := open - 1;
          }
        }
        SkipUnfold(Rest(), open, close);
      } else {
        var _ := Next();
      }
    }

    /** The loop of `parse` over top-level forms. */
    method Nodes() returns (r: Result<seq<Node>, ParseError>)
      requires Valid() && depth == 0
      modifies this
      ensures Valid() && depth == 0 && old(pos) <= pos
      ensures r == ParseNodes(old(Rest()), cal)
    {
      hide ParseNodes, ParseNode, SkipSexp, Advance, PrependNodes;
      ghost var spec := ParseNodes(Rest(), cal);
      var nodes := [];
      PrependNodesTwice([], [], spec);
      while tokens[pos] != Eof
        invariant Valid() && depth == 0 && old(pos) <= pos
        invariant spec == PrependNodes(nodes, ParseNodes(Rest(), cal))
        decreases |tokens| - pos
      {
        NodesUnfold(Rest(), cal);
        PrependNodesEnd(nodes, ParseNodes(Rest(), cal));
        AdvanceShrinks(Rest());
        if tokens[pos] == LParen {
          if pos + 1 < |tokens| && tokens[pos + 1] == Symbol("node") {
            var node := NodeForm();
            if node.Err? {
              return Err(node.error);
            }
            PrependNodesTwice(nodes, [node.value], ParseNodes(Rest(), cal));
            nodes := nodes + [node.value];
          } else {
            SkipForm();
          }
        } else {
          var _ := Next();
        }
      }
      NodesUnfold(Rest(), cal);
      PrependNodesEnd(nodes, ParseNodes(Rest(), cal));
      assert nodes + [] == nodes;
      r := Ok(nodes);
    }
  }

  /** `Parser::parse`: lexes with the lexer's cursor, guards the token count, parses with the parser's. */
  method ParseSource(src: Text, cal: Calendar) returns (r: Result<seq<Node>, ParseError>)
    ensures r == Parse(src, cal)
  {
    hide LexAll, ParseNodes;
    var lexer := new Lexer(src);
    var tokens := lexer.Tokenize();
    if tokens.Err? {
      return Err(LexFailed(tokens.error));
    }
    if |tokens.value| > MAX_TOKENS {
      return Err(TokenLimit);
    }
    var parser := new Parser(tokens.value, cal);
    assert parser.tokens[0..] == tokens.value;
    r := parser.Nodes();
  }

  // ----- loop steps -----

  lemma AdvanceShrinks(ts: Stream)
    requires ts[0] != Eof
    ensures |Advance(ts)| < |ts|
  {
  }

  /** One turn of the id loop. */
  function IdsOnce(ts: Stream): Parsed<seq<Text>> {
    if ts[0] == RBracket || ts[0] == Eof then Ok(([], ts))
    else if !ts[0].Symbol? then Err(IdExpected)
    else PrependIds([ts[0].text], ParseIds(Advance(ts)))
  }

  lemma IdsUnfold(ts: Stream)
    ensures ParseIds(ts) == IdsOnce(ts)
  {
    hide Advance;
  }

  lemma PrependIdsEnd(ids: seq<Text>, r: Parsed<seq<Text>>)
    ensures r.Err? ==> PrependIds(ids, r) == r
    ensures r.Ok? ==> PrependIds(ids, r) == Ok((ids + r.value.0, r.value.1))
  {
  }

  /** One turn of the field loop. */
  function FieldsOnce(ts: Stream, f: Fields, depth: int, cal: Calendar): Parsed<Fields> {
    if ts[0] == RParen || ts[0] == Eof then Ok((f, ts))
    else if !ts[0].Keyword? then Err(FieldExpected)
    else
      var (g, left) :- ParseField(ts[0].text, Advance(ts), f, depth, cal);
      ParseFields(left, g, depth, cal)
  }

  lemma FieldsUnfold(ts: Stream, f: Fields, depth: int, cal: Calendar)
    ensures ParseFields(ts, f, depth, cal) == FieldsOnce(ts, f, depth, cal)
  {
    hide ParseField, Advance;
  }

  function SkipOnce(ts: Stream, open: nat, close: Token): Stream {
    if open == 0 || ts[0] == Eof then ts
    else if ts[0] == LParen || ts[0] == LBracket then SkipOpen(Advance(ts), open + 1, close)
    else if ts[0] == close then SkipOpen(Advance(ts), open - 1, close)
    else SkipOpen(Advance(ts), open, close)
  }

  lemma SkipUnfold(ts: Stream, open: nat, close: Token)
    ensures SkipOpen(ts, open, close) == SkipOnce(ts, open, close)
  {
    hide Advance;
  }

  function PrependNodes(nodes: seq<Node>, r: Result<seq<Node>, ParseError>): Result<seq<Node>, ParseError> {
    match r
    case Ok(more) => Ok(nodes + more)
    case Err(e) => Err(e)
  }

  lemma PrependNodesTwice(a: seq<Node>, b: seq<Node>, r: Result<seq<Node>, ParseError>)
    ensures PrependNodes(a, PrependNodes(b, r)) == PrependNodes(a + b, r) && PrependNodes([], r) == r
  {
    match r
    case Ok(more) =>
      assert a + (b + more) == a + b + more;
      assert [] + more == more;
    case Err(_) =>
  }

  lemma PrependNodesEnd(nodes: seq<Node>, r: Result<seq<Node>, ParseError>)
    ensures r.Err? ==> PrependNodes(nodes, r) == r
    ensures r.Ok? ==> PrependNodes(nodes, r) == Ok(nodes + r.value)
  {
  }

  /** One turn of the top-level loop. */
  function NodesOnce(ts: Stream, cal: Calendar): Result<seq<Node>, ParseError> {
    if ts[0] == Eof then Ok([])
    else if AtNode(ts) then
      var (node, left) :- ParseNode(ts, 0, cal);
      PrependNodes([node], ParseNodes(left, cal))
    else if ts[0] == LParen then ParseNodes(SkipSexp(ts), cal)
    else ParseNodes(Advance(ts), cal)
  }

  lemma NodesUnfold(ts: Stream, cal: Calendar)
    ensures ParseNodes(ts, cal) == NodesOnce(ts, cal)
    ensures ts[0] != Eof ==> |SkipSexp(ts)| < |ts|
  {
    hide ParseNode, Advance, SkipSexp;
  }

  lemma PrependItemsEnd(items: seq<Term>, r: Parsed<seq<Term>>)
    ensures r.Err? ==> PrependItems(items, r) == r
    ensures r.Ok? ==> PrependItems(items, r) == Ok((items + r.value.0, r.value.1))
  {
  }

  lemma PrependArgsEnd(a: Arguments, r: Parsed<Arguments>)
    ensures r.Err? ==> PrependArgs(a, r) == r
    ensures r.Ok? ==>
              PrependArgs(a, r) == Ok((Arguments(a.args + r.value.0.args, a.named + r.value.0.named), r.value.1))
  {
  }
}
