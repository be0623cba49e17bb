/** The loops of `factum-rt/src/query.rs`, proved to compute what `Matching` and `Query` define. A pattern's bindings
    are one list that the calls append to; a failed match leaves it unspecified, as nobody reads it then. */
module QueryEngine {
  import opened Types
  import opened Serialize
  import opened Storage
  import opened Store
  import opened Lookup
  import opened Matching
  import opened Query
  import Bags
  import FactumStore

  lemma BoundStep(bs: Bindings, name: Text, i: nat)
    requires i < |bs|
    ensures Bound(bs[i..], name) == if bs[i].0 == name then Some(bs[i].1) else Bound(bs[i + 1..], name)
  {
    assert bs[i..][0] == bs[i] && bs[i..][1..] == bs[i + 1..];
  }

  lemma BoundEnds(bs: Bindings, name: Text)
    ensures Bound(bs[|bs|..], name).None? && bs[0..] == bs
  {
  }

  method Find(bs: Bindings, name: Text) returns (r: Option<Term>)
    ensures r == Bound(bs, name)
  {
    BoundEnds(bs, name);
    for i := 0 to |bs|
      invariant Bound(bs[i..], name) == Bound(bs, name)
    {
      BoundStep(bs, name, i);
      if bs[i].0 == name {
        return Some(bs[i].1);
      }
    }
    r := None;
  }

  lemma ArgStep(named: seq<NamedArg>, key: Text, i: nat)
    requires i < |named|
    ensures ArgAt(named[i..], key) == if named[i].key == key then Some(named[i].value) else ArgAt(named[i + 1..], key)
  {
    assert named[i..][0] == named[i] && named[i..][1..] == named[i + 1..];
  }

  lemma ArgEnds(named: seq<NamedArg>, key: Text)
    ensures ArgAt(named[|named|..], key).None? && named[0..] == named
  {
  }

  method FindArg(named: seq<NamedArg>, key: Text) returns (r: Option<Term>)
    ensures r == ArgAt(named, key)
  {
    ArgEnds(named, key);
    for i := 0 to |named|
      invariant ArgAt(named[i..], key) == ArgAt(named, key)
    {
      ArgStep(named, key, i);
      if named[i].key == key {
        return Some(named[i].value);
      }
    }
    r := None;
  }

  /** The outcome of a call that appends to the bindings. */
  ghost predicate Outcome(spec: Option<Bindings>, ok: bool, bs: Bindings) {
    (ok <==> spec.Some?) && (ok ==> bs == spec.value)
  }

  /** `match_term`. */
  method MatchTermInto(pat: Term, conc: Term, bs0: Bindings) returns (ok: bool, bs: Bindings)
    ensures Outcome(MatchTerm(pat, conc, bs0), ok, bs)
    decreases pat
  {
    hide MatchArgs, MatchPattern, Bound;
    bs := bs0;
    match pat {
      case Var(name) =>
        var existing := Find(bs, name);
        if existing.Some? {
          ok := existing.value == conc;
        } else {
          bs := bs + [(name, conc)];
          ok := true;
        }
      case Compound(p) =>
        if conc.Compound? {
          var inner := MatchPredicate(p, conc.pred);
          ok := inner.Some?;
        } else {
          ok := false;
        }
      case List(items) =>
        if conc.List? {
          ok, bs := MatchArgsInto(items, conc.items, bs);
        } else {
          ok := false;
        }
      case _ => ok := pat == conc;
    }
  }

  lemma ArgsStep(pats: seq<Term>, concs: seq<Term>, i: nat, bs: Bindings)
    requires |pats| == |concs| && i < |pats|
    ensures MatchArgs(pats[i..], concs[i..], bs)
         == if MatchTerm(pats[i], concs[i], bs).Some?
            then MatchArgs(pats[i + 1..], concs[i + 1..], MatchTerm(pats[i], concs[i], bs).value)
            else None
  {
    hide *;
    assert pats[i..][0] == pats[i] && pats[i..][1..] == pats[i + 1..];
    assert concs[i..][0] == concs[i] && concs[i..][1..] == concs[i + 1..];
    ArgsUnfold(pats[i..], concs[i..], bs);
  }

  lemma ArgsEnd(pats: seq<Term>, concs: seq<Term>, bs: Bindings)
    ensures |pats| != |concs| ==> MatchArgs(pats, concs, bs).None?
    ensures |pats| == |concs| ==> MatchArgs(pats[|pats|..], concs[|pats|..], bs) == Some(bs)
    ensures pats[0..] == pats && concs[0..] == concs
  {
  }

  /** The zip over positional arguments or list items. */
  method MatchArgsInto(pats: seq<Term>, concs: seq<Term>, bs0: Bindings) returns (ok: bool, bs: Bindings)
    ensures Outcome(MatchArgs(pats, concs, bs0), ok, bs)
    decreases pats
  {
    hide MatchArgs, MatchTerm;
    bs := bs0;
    ArgsEnd(pats, concs, bs);
    if |pats| != |concs| {
      return false, bs;
    }
    for i := 0 to |pats|
      invariant MatchArgs(pats[i..], concs[i..], bs) == MatchArgs(pats, concs, bs0)
    {
      ArgsStep(pats, concs, i, bs);
      ok, bs := MatchTermInto(pats[i], concs[i], bs);
      if !ok {
        return;
      }
    }
    ArgsEnd(pats, concs, bs);
    ok := true;
  }

  lemma NamedStep(pats: seq<NamedArg>, concs: seq<NamedArg>, i: nat, bs: Bindings)
    requires i < |pats|
    ensures MatchNamed(pats[i..], concs, bs)
         == if ArgAt(concs, pats[i].key).None? then None
            else if MatchTerm(pats[i].value, ArgAt(concs, pats[i].key).value, bs).None? then None
            else MatchNamed(pats[i + 1..], concs, MatchTerm(pats[i].value, ArgAt(concs, pats[i].key).value, bs).value)
  {
    hide *;
    assert pats[i..][0] == pats[i] && pats[i..][1..] == pats[i + 1..];
    NamedUnfold(pats[i..], concs, bs);
  }

  lemma NamedEnd(pats: seq<NamedArg>, concs: seq<NamedArg>, bs: Bindings)
    ensures MatchNamed(pats[|pats|..], concs, bs) == Some(bs) && pats[0..] == pats
  {
  }

  method MatchNamedInto(pats: seq<NamedArg>, concs: seq<NamedArg>, bs0: Bindings) returns (ok: bool, bs: Bindings)
    ensures Outcome(MatchNamed(pats, concs, bs0), ok, bs)
    decreases pats
  {
    hide MatchNamed, MatchTerm, ArgAt;
    bs := bs0;
    NamedEnd(pats, concs, bs);
    for i := 0 to |pats|
      invariant MatchNamed(pats[i..], concs, bs) == MatchNamed(pats, concs, bs0)
    {
      NamedStep(pats, concs, i, bs);
      var conc := FindArg(concs, pats[i].key);
      if conc.None? {
        return false, bs;
      }
      ok, bs := MatchTermInto(pats[i].value, conc.value, bs);
      if !ok {
        return;
      }
    }
    NamedEnd(pats, concs, bs);
    ok := true;
  }

  /** `match_pattern`. */
  method MatchPredicate(pat: Predicate, conc: Predicate) returns (r: Option<Bindings>)
    ensures r == MatchPattern(pat, conc)
    decreases pat
  {
    hide MatchArgs, MatchNamed;
    if pat.head.Id? || conc.head.Id? || pat.head.name != conc.head.name {
      return None;
    }
    var ok, bs := MatchArgsInto(pat.args, conc.args, []);
    if ok {
      ok, bs := MatchNamedInto(pat.named, conc.named, bs);
    }
    r := if ok then Some(bs) else None;
  }

  lemma {:induction false} MatchesConcat(pattern: Predicate, o: Options, a: seq<Node>, b: seq<Node>)
    ensures MatchesOf(pattern, o, a + b) == MatchesOf(pattern, o, a) + MatchesOf(pattern, o, b)
  {
    hide MatchOf;
    if a == [] {
      assert a + b == b;
    } else {
      MatchesConcat(pattern, o, a[1..], b);
      assert (a + b)[1..] == a[1..] + b;
    }
  }

  lemma MatchesStep(pattern: Predicate, o: Options, ns: seq<Node>, i: nat)
    requires i < |ns|
    ensures MatchesOf(pattern, o, ns[..i + 1]) == MatchesOf(pattern, o, ns[..i]) + MatchOf(pattern, o, ns[i])
  {
    hide MatchOf;
    assert ns[..i + 1] == ns[..i] + [ns[i]];
    MatchesConcat(pattern, o, ns[..i], [ns[i]]);
    assert [ns[i]][1..] == [];
    assert MatchesOf(pattern, o, [ns[i]]) == MatchOf(pattern, o, ns[i]) + MatchesOf(pattern, o, []);
  }

  /** `get_candidates`. */
  method GetCandidates(store: FactumStore.FactumStore, pattern: Predicate, entity: Option<Text>) returns (ns: seq<Node>)
    requires store.Valid()
    ensures Candidates(store.Value(), pattern, entity, store.registry, ns)
  {
    hide Scan, Fetch, HeadKey, Indexed, InMemoryBackend.Valid;
    if entity.Some? {
      ns := store.LookupBy(ByEntity, entity.value);
    } else {
      ns := store.LookupBy(ByPred, HeadKey(store.registry, pattern.head));
    }
    SameFilter(store.Value().nodes, CandidateIds(store.Value(), pattern, entity, store.registry));
  }

  lemma {:induction false} SameFilter(nodes: map<Text, Node>, ids: seq<Text>)
    ensures Fetch(nodes, ids, FactumStore.IsActive) == Fetch(nodes, ids, IsActive)
  {
    if ids != [] {
      SameFilter(nodes, ids[1..]);
    }
  }

  /** `query` up to arbitration: the filters first, then the matches, in the order of the candidates. */
  method FindMatches(store: FactumStore.FactumStore, pattern: Predicate, entity: Option<Text>, o: Options)
      returns (matches: seq<Match>, ghost candidates: seq<Node>)
    requires store.Valid()
    ensures Candidates(store.Value(), pattern, entity, store.registry, candidates)
    ensures matches == MatchesOf(pattern, o, candidates)
  {
    hide Candidates, MatchPattern, Passes, MatchesOf, Indexed, InMemoryBackend.Valid;
    var ns := GetCandidates(store, pattern, entity);
    candidates := ns;
    matches := [];
    NoMatches(pattern, o);
    for i := 0 to |ns|
      invariant matches == MatchesOf(pattern, o, ns[..i])
    {
      MatchesStep(pattern, o, ns, i);
      if Passes(ns[i], o) {
        var bindings := MatchPredicate(pattern, ns[i].pred);
        if bindings.Some? {
          matches := matches + [Match(ns[i], bindings.value)];
        }
      }
    }
    assert ns[..|ns|] == ns;
  }

  lemma NoMatches(pattern: Predicate, o: Options)
    ensures MatchesOf(pattern, o, []) == []
  {
  }
}
