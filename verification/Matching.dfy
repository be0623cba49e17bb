/** Pattern matching (`match_pattern` and `match_term` of `factum-rt/src/query.rs`). */
module Matching {
  import opened Types

  type Bindings = seq<(Text, Term)>

  function Bound(bs: Bindings, name: Text): Option<Term> {
    if bs == [] then None else if bs[0].0 == name then Some(bs[0].1) else Bound(bs[1..], name)
  }

  /** The first argument under a key. */
  function ArgAt(named: seq<NamedArg>, key: Text): Option<Term> {
    if named == [] then None else if named[0].key == key then Some(named[0].value) else ArgAt(named[1..], key)
  }

  /** `match_term`: the bindings after a match, none if it fails. A compound is matched on its own and binds
      nothing outside. */
  function MatchTerm(pat: Term, conc: Term, bs: Bindings): Option<Bindings>
    decreases pat
  {
    match pat
    case Var(name) => BindVar(name, conc, bs)
    case Compound(p) => if conc.Compound? && MatchPattern(p, conc.pred).Some? then Some(bs) else None
    case List(items) => if conc.List? then MatchArgs(items, conc.items, bs) else None
    case _ => if pat == conc then Some(bs) else None
  }

  function BindVar(name: Text, conc: Term, bs: Bindings): Option<Bindings> {
    match Bound(bs, name)
    case Some(t) => if t == conc then Some(bs) else None
    case None => Some(bs + [(name, conc)])
  }

  function MatchArgs(pats: seq<Term>, concs: seq<Term>, bs: Bindings): Option<Bindings>
    decreases pats
  {
    if |pats| != |concs| then None
    else if pats == [] then Some(bs)
    else
      match MatchTerm(pats[0], concs[0], bs)
      case Some(more) => MatchArgs(pats[1..], concs[1..], more)
      case None => None
  }

  function MatchNamed(pats: seq<NamedArg>, concs: seq<NamedArg>, bs: Bindings): Option<Bindings>
    decreases pats
  {
    if pats == [] then Some(bs)
    else if ArgAt(concs, pats[0].key).None? then None
    else
      match MatchTerm(pats[0].value, ArgAt(concs, pats[0].key).value, bs)
      case Some(more) => MatchNamed(pats[1..], concs, more)
      case None => None
  }

  /** `match_pattern`; a head that is a morpheme id never matches. */
  function MatchPattern(pat: Predicate, conc: Predicate): Option<Bindings>
    decreases pat
  {
    if pat.head.Id? || pat.head != conc.head then None
    else
      match MatchArgs(pat.args, conc.args, [])
      case Some(bs) => MatchNamed(pat.named, conc.named, bs)
      case None => None
  }

  // ----- what a match means -----

  type Subst = map<Text, Term>

  /** `conc` is what the pattern becomes under the substitution. A compound has a substitution of its own. */
  ghost predicate InstTerm(pat: Term, conc: Term, s: Subst)
    decreases pat
  {
    match pat
    case Var(name) => name in s && s[name] == conc
    case Compound(p) => conc.Compound? && Matchable(p, conc.pred)
    case List(items) => conc.List? && InstArgs(items, conc.items, s)
    case _ => pat == conc
  }

  ghost predicate Matchable(pat: Predicate, conc: Predicate)
    decreases pat, 1
  {
    exists s: Subst :: Inst(pat, conc, s)
  }

  ghost predicate InstArgs(pats: seq<Term>, concs: seq<Term>, s: Subst)
    decreases pats
  {
    |pats| == |concs| && forall i :: 0 <= i < |pats| ==> InstTerm(pats[i], concs[i], s)
  }

  /** The first argument under a key stands at `j`. */
  ghost predicate StandsAt(concs: seq<NamedArg>, key: Text, j: nat) {
    j < |concs| && concs[j].key == key && forall i :: 0 <= i < j ==> concs[i].key != key
  }

  /** The concrete predicate may have more named arguments; of several under one key the first counts. */
  ghost predicate InstNamed(pats: seq<NamedArg>, concs: seq<NamedArg>, s: Subst)
    decreases pats
  {
    forall i :: 0 <= i < |pats| ==>
      exists j: nat :: StandsAt(concs, pats[i].key, j) && InstTerm(pats[i].value, concs[j].value, s)
  }

  ghost predicate Inst(pat: Predicate, conc: Predicate, s: Subst)
    decreases pat, 0
  {
    pat.head.Name? && pat.head == conc.head && InstArgs(pat.args, conc.args, s) && InstNamed(pat.named, conc.named, s)
  }

  /** The variables outside compounds. */
  ghost function TermVars(t: Term): set<Text> {
    match t
    case Var(name) => {name}
    case List(items) => ArgVars(items)
    case _ => {}
  }

  ghost function ArgVars(args: seq<Term>): set<Text> {
    if args == [] then {} else TermVars(args[0]) + ArgVars(args[1..])
  }

  ghost function NamedVars(named: seq<NamedArg>): set<Text> {
    if named == [] then {} else TermVars(named[0].value) + NamedVars(named[1..])
  }

  ghost function Vars(p: Predicate): set<Text> {
    ArgVars(p.args) + NamedVars(p.named)
  }

  // ----- bindings as substitutions -----

  ghost function Names(bs: Bindings): set<Text> {
    set b | b in bs :: b.0
  }

  ghost predicate Proper(bs: Bindings) {
    forall i, j :: 0 <= i < j < |bs| ==> bs[i].0 != bs[j].0
  }

  /** The bindings are part of the substitution. */
  ghost predicate Agrees(bs: Bindings, s: Subst) {
    forall b <- bs :: b.0 in s && s[b.0] == b.1
  }

  ghost function AsSubst(bs: Bindings): Subst
    requires Proper(bs)
  {
    map name | name in Names(bs) && Bound(bs, name).Some? :: Bound(bs, name).value
  }

  lemma {:induction false} BoundIs(bs: Bindings, name: Text)
    ensures Bound(bs, name).None? <==> name !in Names(bs)
    ensures Bound(bs, name).Some? ==> (name, Bound(bs, name).value) in bs
  {
    if bs != [] {
      BoundIs(bs[1..], name);
      assert bs == [bs[0]] + bs[1..];
      assert bs[0] in bs;
    }
  }

  lemma AsSubstAgrees(bs: Bindings)
    requires Proper(bs)
    ensures Agrees(bs, AsSubst(bs)) && AsSubst(bs).Keys == Names(bs)
  {
    hide Bound;
    forall name ensures name in Names(bs) <==> Bound(bs, name).Some? {
      BoundIs(bs, name);
    }
    forall b | b in bs ensures b.0 in AsSubst(bs) && AsSubst(bs)[b.0] == b.1 {
      assert b.0 in Names(bs);
      BoundIs(bs, b.0);
      SameName(bs, b, (b.0, Bound(bs, b.0).value));
    }
  }

  lemma SameName(bs: Bindings, a: (Text, Term), b: (Text, Term))
    requires Proper(bs) && a in bs && b in bs && a.0 == b.0
    ensures a == b
  {
  }

  lemma BoundAgrees(bs: Bindings, name: Text, s: Subst)
    requires Agrees(bs, s) && Bound(bs, name).Some?
    ensures name in s && s[name] == Bound(bs, name).value
  {
    hide Bound;
    BoundIs(bs, name);
  }

  // ----- a step from `bs` to `out` -----

  /** The step adds to the bindings and keeps names distinct; it adds exactly the names in `vars`. */
  ghost predicate Extends(bs: Bindings, out: Bindings, vars: set<Text>) {
    bs <= out && (Proper(bs) ==> Proper(out)) && Names(out) == Names(bs) + vars
  }

  lemma ExtendsSelf(bs: Bindings)
    ensures Extends(bs, bs, {})
  {
  }

  lemma ExtendsChain(a: Bindings, b: Bindings, c: Bindings, v: set<Text>, w: set<Text>)
    requires Extends(a, b, v) && Extends(b, c, w)
    ensures Extends(a, c, v + w)
  {
    hide Names, Proper;
  }

  lemma AgreesPrefix(bs: Bindings, out: Bindings, s: Subst)
    requires bs <= out && Agrees(out, s)
    ensures Agrees(bs, s)
  {
    forall b | b in bs ensures b in out {
      var i :| 0 <= i < |bs| && bs[i] == b;
      assert out[i] == b;
    }
  }

  lemma BindExtends(name: Text, conc: Term, bs: Bindings)
    requires BindVar(name, conc, bs).Some?
    ensures Extends(bs, BindVar(name, conc, bs).value, {name})
  {
    hide Bound;
    BoundIs(bs, name);
    var out := bs + [(name, conc)];
    assert forall b :: b in out <==> b in bs || b == (name, conc);
    if Bound(bs, name).None? {
      assert out[|bs|] == (name, conc);
      forall i | 0 <= i < |bs| ensures out[i].0 != name {
        assert out[i] == bs[i] && bs[i] in bs;
      }
      assert Names(out) == Names(bs) + {name};
    } else {
      assert Names(bs) == Names(bs) + {name};
    }
  }

  /** Binding a variable succeeds and agrees with exactly the substitutions that give it that value. */
  lemma BindExact(name: Text, conc: Term, bs: Bindings, s: Subst)
    requires Agrees(bs, s)
    ensures name in s && s[name] == conc ==> BindVar(name, conc, bs).Some? && Agrees(BindVar(name, conc, bs).value, s)
  {
    hide Bound;
    if Bound(bs, name).Some? {
      BoundAgrees(bs, name, s);
    } else {
      assert forall b :: b in bs + [(name, conc)] <==> b in bs || b == (name, conc);
    }
  }

  lemma BindMeans(name: Text, conc: Term, bs: Bindings, s: Subst)
    requires BindVar(name, conc, bs).Some? && Agrees(BindVar(name, conc, bs).value, s)
    ensures name in s && s[name] == conc
  {
    hide Bound;
    if Bound(bs, name).Some? {
      BoundAgrees(bs, name, s);
    } else {
      assert (bs + [(name, conc)])[|bs|] == (name, conc);
    }
  }

  // ----- soundness -----

  /** A match yields bindings under which, and under every substitution that extends them, the pattern is the
      concrete term. */
  lemma {:induction false} TermSound(pat: Term, conc: Term, bs: Bindings)
    requires MatchTerm(pat, conc, bs).Some?
    ensures Extends(bs, MatchTerm(pat, conc, bs).value, TermVars(pat))
    ensures forall s :: Agrees(MatchTerm(pat, conc, bs).value, s) ==> InstTerm(pat, conc, s)
    decreases pat
  {
    hide Agrees, Extends, MatchArgs, MatchPattern, BindVar, InstArgs, Matchable, ArgVars;
    ExtendsSelf(bs);
    match pat {
      case Var(name) =>
        BindExtends(name, conc, bs);
        forall s | Agrees(MatchTerm(pat, conc, bs).value, s) ensures InstTerm(pat, conc, s) {
          BindMeans(name, conc, bs, s);
        }
      case Compound(p) => PatternSound(p, conc.pred);
      case List(items) => ArgsSound(items, conc.items, bs);
      case _ =>
    }
  }

  lemma ArgsUnfold(pats: seq<Term>, concs: seq<Term>, bs: Bindings)
    requires |pats| == |concs| && pats != []
    ensures MatchArgs(pats, concs, bs)
         == if MatchTerm(pats[0], concs[0], bs).Some?
            then MatchArgs(pats[1..], concs[1..], MatchTerm(pats[0], concs[0], bs).value)
            else None
    ensures ArgVars(pats) == TermVars(pats[0]) + ArgVars(pats[1..])
  {
    hide MatchTerm, TermVars;
  }

  lemma InstArgsCons(pats: seq<Term>, concs: seq<Term>, s: Subst)
    requires |pats| == |concs| && pats != []
    ensures InstArgs(pats, concs, s) <==> InstTerm(pats[0], concs[0], s) && InstArgs(pats[1..], concs[1..], s)
  {
    hide InstTerm;
    if InstTerm(pats[0], concs[0], s) && InstArgs(pats[1..], concs[1..], s) {
      forall i | 0 <= i < |pats| ensures InstTerm(pats[i], concs[i], s) {
        if i > 0 {
          assert pats[1..][i - 1] == pats[i] && concs[1..][i - 1] == concs[i];
        }
      }
    }
  }

  lemma NoArgs(pats: seq<Term>, concs: seq<Term>, bs: Bindings, s: Subst)
    ensures |pats| != |concs| ==> MatchArgs(pats, concs, bs).None? && !InstArgs(pats, concs, s)
    ensures MatchArgs([], [], bs) == Some(bs) && InstArgs([], [], s) && ArgVars([]) == {}
  {
  }

  lemma {:induction false} ArgsSound(pats: seq<Term>, concs: seq<Term>, bs: Bindings)
    requires MatchArgs(pats, concs, bs).Some?
    ensures Extends(bs, MatchArgs(pats, concs, bs).value, ArgVars(pats))
    ensures forall s :: Agrees(MatchArgs(pats, concs, bs).value, s) ==> InstArgs(pats, concs, s)
    decreases pats
  {
    hide *;
    NoArgs(pats, concs, bs, map[]);
    if pats == [] {
      ExtendsSelf(bs);
      forall s ensures InstArgs(pats, concs, s) {
        NoArgs([], [], bs, s);
      }
    } else {
      ArgsUnfold(pats, concs, bs);
      var more := MatchTerm(pats[0], concs[0], bs).value;
      var out := MatchArgs(pats, concs, bs).value;
      TermSound(pats[0], concs[0], bs);
      ArgsSound(pats[1..], concs[1..], more);
      ExtendsChain(bs, more, out, TermVars(pats[0]), ArgVars(pats[1..]));
      forall s | Agrees(out, s) ensures InstArgs(pats, concs, s) {
        ExtendsPrefix(more, out, ArgVars(pats[1..]));
        AgreesPrefix(more, out, s);
        InstArgsCons(pats, concs, s);
      }
    }
  }

  lemma ExtendsPrefix(bs: Bindings, out: Bindings, vars: set<Text>)
    requires Extends(bs, out, vars)
    ensures bs <= out
  {
  }

  lemma NamedUnfold(pats: seq<NamedArg>, concs: seq<NamedArg>, bs: Bindings)
    requires pats != []
    ensures MatchNamed(pats, concs, bs)
         == if ArgAt(concs, pats[0].key).None? then None
            else if MatchTerm(pats[0].value, ArgAt(concs, pats[0].key).value, bs).None? then None
            else MatchNamed(pats[1..], concs, MatchTerm(pats[0].value, ArgAt(concs, pats[0].key).value, bs).value)
    ensures NamedVars(pats) == TermVars(pats[0].value) + NamedVars(pats[1..])
  {
    hide MatchTerm, TermVars, ArgAt;
  }

  lemma {:induction false} ArgStands(concs: seq<NamedArg>, key: Text)
    ensures forall j: nat :: StandsAt(concs, key, j) ==> ArgAt(concs, key) == Some(concs[j].value)
    ensures ArgAt(concs, key).Some? ==> exists j: nat :: StandsAt(concs, key, j)
  {
    if concs != [] {
      ArgStands(concs[1..], key);
      if concs[0].key == key {
        assert StandsAt(concs, key, 0);
      } else {
        forall j: nat | StandsAt(concs, key, j) ensures ArgAt(concs, key) == Some(concs[j].value) {
          assert forall i :: 0 <= i < j - 1 ==> concs[1..][i] == concs[i + 1];
          assert StandsAt(concs[1..], key, j - 1);
        }
        if j: nat :| StandsAt(concs[1..], key, j) {
          assert forall i :: 0 < i <= j ==> concs[i] == concs[1..][i - 1];
          assert StandsAt(concs, key, j + 1);
        }
      }
    }
  }

  lemma InstOne(pat: NamedArg, concs: seq<NamedArg>, s: Subst)
    ensures (exists j: nat :: StandsAt(concs, pat.key, j) && InstTerm(pat.value, concs[j].value, s))
       <==> ArgAt(concs, pat.key).Some? && InstTerm(pat.value, ArgAt(concs, pat.key).value, s)
  {
    hide InstTerm, ArgAt, StandsAt;
    ArgStands(concs, pat.key);
  }

  lemma InstNamedCons(pats: seq<NamedArg>, concs: seq<NamedArg>, s: Subst)
    requires pats != []
    ensures InstNamed(pats, concs, s)
       <==> ArgAt(concs, pats[0].key).Some? && InstTerm(pats[0].value, ArgAt(concs, pats[0].key).value, s)
            && InstNamed(pats[1..], concs, s)
  {
    hide InstTerm, ArgAt;
    InstOne(pats[0], concs, s);
    if ArgAt(concs, pats[0].key).Some? && InstTerm(pats[0].value, ArgAt(concs, pats[0].key).value, s)
       && InstNamed(pats[1..], concs, s) {
      forall i | 0 <= i < |pats|
        ensures exists j: nat :: StandsAt(concs, pats[i].key, j) && InstTerm(pats[i].value, concs[j].value, s)
      {
        if i > 0 {
          assert pats[1..][i - 1] == pats[i];
        }
      }
    }
  }

  lemma NoNamed(concs: seq<NamedArg>, bs: Bindings, s: Subst)
    ensures MatchNamed([], concs, bs) == Some(bs) && InstNamed([], concs, s) && NamedVars([]) == {}
  {
  }

  lemma {:induction false} NamedSound(pats: seq<NamedArg>, concs: seq<NamedArg>, bs: Bindings)
    requires MatchNamed(pats, concs, bs).Some?
    ensures Extends(bs, MatchNamed(pats, concs, bs).value, NamedVars(pats))
    ensures forall s :: Agrees(MatchNamed(pats, concs, bs).value, s) ==> InstNamed(pats, concs, s)
    decreases pats
  {
    hide *;
    if pats == [] {
      NoNamed(concs, bs, map[]);
      ExtendsSelf(bs);
      forall s ensures InstNamed(pats, concs, s) {
        NoNamed(concs, bs, s);
      }
    } else {
      NamedUnfold(pats, concs, bs);
      var conc := ArgAt(concs, pats[0].key).value;
      var more := MatchTerm(pats[0].value, conc, bs).value;
      var out := MatchNamed(pats, concs, bs).value;
      TermSound(pats[0].value, conc, bs);
      NamedSound(pats[1..], concs, more);
      ExtendsChain(bs, more, out, TermVars(pats[0].value), NamedVars(pats[1..]));
      forall s | Agrees(out, s) ensures InstNamed(pats, concs, s) {
        ExtendsPrefix(more, out, NamedVars(pats[1..]));
        AgreesPrefix(more, out, s);
        InstNamedCons(pats, concs, s);
      }
    }
  }

  lemma PatternUnfold(pat: Predicate, conc: Predicate)
    ensures MatchPattern(pat, conc)
         == if pat.head.Id? || pat.head != conc.head || MatchArgs(pat.args, conc.args, []).None? then None
            else MatchNamed(pat.named, conc.named, MatchArgs(pat.args, conc.args, []).value)
  {
    hide MatchArgs, MatchNamed;
  }

  /** The bindings of a match have distinct names, exactly the variables outside compounds, and are themselves a
      substitution that makes the pattern the concrete predicate. */
  lemma {:induction false} PatternSound(pat: Predicate, conc: Predicate)
    requires MatchPattern(pat, conc).Some?
    ensures Proper(MatchPattern(pat, conc).value) && Names(MatchPattern(pat, conc).value) == Vars(pat)
    ensures Inst(pat, conc, AsSubst(MatchPattern(pat, conc).value)) && Matchable(pat, conc)
    decreases pat
  {
    hide MatchArgs, MatchNamed, InstArgs, InstNamed, ArgVars, NamedVars, AsSubst, Agrees, Extends, MatchPattern,
      Names, Proper;
    PatternUnfold(pat, conc);
    var args := MatchArgs(pat.args, conc.args, []).value;
    var out := MatchPattern(pat, conc).value;
    ArgsSound(pat.args, conc.args, []);
    NamedSound(pat.named, conc.named, args);
    FromNothing(args, out, ArgVars(pat.args), NamedVars(pat.named));
    AsSubstAgrees(out);
    ExtendsPrefix(args, out, NamedVars(pat.named));
    AgreesPrefix(args, out, AsSubst(out));
  }

  lemma FromNothing(args: Bindings, out: Bindings, v: set<Text>, w: set<Text>)
    requires Extends([], args, v) && Extends(args, out, w)
    ensures Proper(out) && Names(out) == v + w
  {
    hide Names;
    assert Names([]) == {} by {
      NoNames();
    }
  }

  lemma NoNames()
    ensures Names([]) == {}
  {
  }

  // ----- completeness and minimality -----

  /** Whatever substitution makes the pattern the concrete term is found, and the bindings are part of it. */
  lemma {:induction false} TermComplete(pat: Term, conc: Term, bs: Bindings, s: Subst)
    requires Agrees(bs, s) && InstTerm(pat, conc, s)
    ensures MatchTerm(pat, conc, bs).Some? && Agrees(MatchTerm(pat, conc, bs).value, s)
    decreases pat, 1
  {
    hide Agrees, MatchArgs, MatchPattern, BindVar, InstArgs, Inst;
    match pat {
      case Var(name) => BindExact(name, conc, bs, s);
      case Compound(p) =>
        assert Matchable(p, conc.pred);
        var t :| Inst(p, conc.pred, t);
        PatternComplete(p, conc.pred, t);
      case List(items) => ArgsComplete(items, conc.items, bs, s);
      case _ =>
    }
  }

  lemma {:induction false} ArgsComplete(pats: seq<Term>, concs: seq<Term>, bs: Bindings, s: Subst)
    requires Agrees(bs, s) && InstArgs(pats, concs, s)
    ensures MatchArgs(pats, concs, bs).Some? && Agrees(MatchArgs(pats, concs, bs).value, s)
    decreases pats, 1
  {
    hide *;
    NoArgs(pats, concs, bs, s);
    if pats != [] {
      ArgsUnfold(pats, concs, bs);
      InstArgsCons(pats, concs, s);
      TermComplete(pats[0], concs[0], bs, s);
      ArgsComplete(pats[1..], concs[1..], MatchTerm(pats[0], concs[0], bs).value, s);
    }
  }

  lemma {:induction false} NamedComplete(pats: seq<NamedArg>, concs: seq<NamedArg>, bs: Bindings, s: Subst)
    requires Agrees(bs, s) && InstNamed(pats, concs, s)
    ensures MatchNamed(pats, concs, bs).Some? && Agrees(MatchNamed(pats, concs, bs).value, s)
    decreases pats, 1
  {
    hide *;
    if pats == [] {
      NoNamed(concs, bs, s);
    } else {
      NamedUnfold(pats, concs, bs);
      InstNamedCons(pats, concs, s);
      var conc := ArgAt(concs, pats[0].key).value;
      TermComplete(pats[0].value, conc, bs, s);
      NamedComplete(pats[1..], concs, MatchTerm(pats[0].value, conc, bs).value, s);
    }
  }

  lemma {:induction false} PatternComplete(pat: Predicate, conc: Predicate, s: Subst)
    requires Inst(pat, conc, s)
    ensures MatchPattern(pat, conc).Some? && Agrees(MatchPattern(pat, conc).value, s)
    decreases pat, 0
  {
    hide MatchArgs, MatchNamed, InstArgs, InstNamed, MatchPattern;
    PatternUnfold(pat, conc);
    ArgsComplete(pat.args, conc.args, [], s);
    NamedComplete(pat.named, conc.named, MatchArgs(pat.args, conc.args, []).value, s);
    hide Agrees;
  }

  /** Matching is sound, complete and minimal: it succeeds exactly when some substitution makes the pattern the
      concrete predicate; then the names bound are distinct, are the variables outside compounds, and the bindings
      are what every such substitution says of them. */
  lemma MatchingExact(pat: Predicate, conc: Predicate)
    ensures MatchPattern(pat, conc).Some? <==> exists s: Subst :: Inst(pat, conc, s)
    ensures MatchPattern(pat, conc).Some? ==>
              && Proper(MatchPattern(pat, conc).value)
              && Names(MatchPattern(pat, conc).value) == Vars(pat)
              && (forall s: Subst :: Inst(pat, conc, s) ==> Agrees(MatchPattern(pat, conc).value, s))
  {
    hide MatchPattern, Inst, AsSubst, Agrees, Proper, Names, Vars;
    if MatchPattern(pat, conc).Some? {
      PatternSound(pat, conc);
    }
    forall s: Subst | Inst(pat, conc, s)
      ensures MatchPattern(pat, conc).Some? && Agrees(MatchPattern(pat, conc).value, s)
    {
      PatternComplete(pat, conc, s);
    }
  }
}
