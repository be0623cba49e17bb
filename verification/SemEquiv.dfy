/** Semantic equivalence (`factum-l/src/sequiv.rs`): a comparison in three levels for predicates and terms, a fourth
    for nodes that differ only in metadata. Scores are reals; the texts that explain differences are left out. */
module SemEquiv {
  import opened Types
  import opened Decimal
  import opened Serialize

  datatype Level = Exact | MetadataDrift | WrongValues | Different

  datatype Equiv = Equiv(level: Level, score: real)

  const EXACT := Equiv(Exact, 1.0)
  const DRIFT := Equiv(MetadataDrift, 0.85)
  const DIFFERENT := Equiv(Different, 0.0)

  function Wrong(score: real): Equiv {
    Equiv(WrongValues, if score < 0.3 then score else 0.3)
  }

  predicate SameKind(a: Literal, b: Literal) {
    match a
    case Dec(_, _) => b.Dec?
    case Str(_) => b.Str?
    case Date(_) => b.Date?
    case Dur(_) => b.Dur?
    case Bool(_) => b.Bool?
    case Uri(_) => b.Uri?
  }

  /** How many values were wrong and how many drifted, or that something was of a different shape. */
  datatype Tally = Count(wrong: nat, drifted: nat) | Mismatch

  function Tallied(t: Tally, level: Level): Tally {
    match level
    case Exact => t
    case WrongValues => if t.Count? then Count(t.wrong + 1, t.drifted) else t
    case MetadataDrift => if t.Count? then Count(t.wrong, t.drifted + 1) else t
    case Different => Mismatch
  }

  /** The score of `k` wrong values. */
  function Penalty(k: nat): real {
    if 0.3 - 0.1 * k as real > 0.0 then 0.3 - 0.1 * k as real else 0.0
  }

  function Verdict(t: Tally): Equiv {
    match t
    case Mismatch => DIFFERENT
    case Count(wrong, drifted) => if wrong > 0 then Wrong(Penalty(wrong)) else if drifted == 0 then EXACT else DRIFT
  }

  /** `compare_terms`. */
  function CompareTerms(a: Term, b: Term, registry: Registry): Equiv
    decreases a
  {
    match (a, b)
    case (Var(x), Var(y)) => if x == y then EXACT else Wrong(0.2)
    case (Ent(x), Ent(y)) => if x == y then EXACT else Wrong(0.3)
    case (Lit(x), Lit(y)) => if x == y then EXACT else if SameKind(x, y) then Wrong(0.3) else DIFFERENT
    case (Compound(x), Compound(y)) => ComparePredicates(x, y, registry)
    case (List(x), List(y)) => if |x| != |y| then DIFFERENT else Verdict(TallyTerms(x, y, registry))
    case _ => DIFFERENT
  }

  function TallyTerms(a: seq<Term>, b: seq<Term>, registry: Registry): Tally
    requires |a| == |b|
    decreases a
  {
    if a == [] then Count(0, 0)
    else Tallied(TallyTerms(a[..|a| - 1], b[..|b| - 1], registry), CompareTerms(a[|a| - 1], b[|b| - 1], registry).level)
  }

  function TallyNamed(t: Tally, a: seq<NamedArg>, b: seq<NamedArg>, registry: Registry): Tally
    requires |a| == |b|
    decreases a
  {
    if a == [] then t
    else if a[|a| - 1].key != b[|b| - 1].key then Mismatch
    else
      Tallied(TallyNamed(t, a[..|a| - 1], b[..|b| - 1], registry),
              CompareTerms(a[|a| - 1].value, b[|b| - 1].value, registry).level)
  }

  /** `compare_predicates`: heads of the same kind but different names are as different as any. */
  function ComparePredicates(a: Predicate, b: Predicate, registry: Registry): Equiv
    decreases a
  {
    if HeadKey(registry, a.head) != HeadKey(registry, b.head) then DIFFERENT
    else if |a.args| != |b.args| || |a.named| != |b.named| then DIFFERENT
    else Verdict(TallyNamed(TallyTerms(a.args, b.args, registry), a.named, b.named, registry))
  }

  // ----- what the levels mean -----

  /** The name the registry gives a head; without one it is called by its number. */
  function NameOf(registry: Registry, head: Head): Text {
    if head.Name? then head.name
    else if head.index < |registry| then registry[head.index]
    else "M" + NatText(head.index)
  }

  lemma NameIsKey(registry: Registry, head: Head)
    ensures HeadKey(registry, head) == NameOf(registry, head)
  {
    hide NatText;
  }

  /** Heads replaced by the names the registry gives them. */
  function ResolveTerm(t: Term, registry: Registry): Term
    decreases t
  {
    match t
    case Compound(p) => Compound(Resolve(p, registry))
    case List(items) => List(ResolveTerms(items, registry))
    case _ => t
  }

  function ResolveTerms(ts: seq<Term>, registry: Registry): (r: seq<Term>)
    ensures |r| == |ts|
    decreases ts
  {
    if ts == [] then [] else ResolveTerms(ts[..|ts| - 1], registry) + [ResolveTerm(ts[|ts| - 1], registry)]
  }

  function ResolveNamed(ns: seq<NamedArg>, registry: Registry): (r: seq<NamedArg>)
    ensures |r| == |ns|
    decreases ns
  {
    if ns == [] then []
    else
      ResolveNamed(ns[..|ns| - 1], registry) + [NamedArg(ns[|ns| - 1].key, ResolveTerm(ns[|ns| - 1].value, registry))]
  }

  function Resolve(p: Predicate, registry: Registry): Predicate
    decreases p
  {
    Predicate(Name(NameOf(registry, p.head)), ResolveTerms(p.args, registry), ResolveNamed(p.named, registry))
  }

  /** The same kinds of term, the same literal kinds, the same heads, lengths and keys throughout. */
  predicate TermsAlike(a: Term, b: Term, registry: Registry)
    decreases a
  {
    match (a, b)
    case (Var(_), Var(_)) => true
    case (Ent(_), Ent(_)) => true
    case (Lit(x), Lit(y)) =>
      && (x.Dec? <==> y.Dec?) && (x.Str? <==> y.Str?) && (x.Date? <==> y.Date?)
      && (x.Dur? <==> y.Dur?) && (x.Bool? <==> y.Bool?) && (x.Uri? <==> y.Uri?)
    case (Compound(x), Compound(y)) => Alike(x, y, registry)
    case (List(x), List(y)) => AllAlike(x, y, registry)
    case _ => false
  }

  predicate AllAlike(a: seq<Term>, b: seq<Term>, registry: Registry)
    decreases a
  {
    |a| == |b| && (a == [] ||
      (AllAlike(a[..|a| - 1], b[..|b| - 1], registry) && TermsAlike(a[|a| - 1], b[|b| - 1], registry)))
  }

  predicate NamedAlike(a: seq<NamedArg>, b: seq<NamedArg>, registry: Registry)
    decreases a
  {
    |a| == |b| && (a == [] ||
      (NamedAlike(a[..|a| - 1], b[..|b| - 1], registry) && a[|a| - 1].key == b[|b| - 1].key
       && TermsAlike(a[|a| - 1].value, b[|b| - 1].value, registry)))
  }

  predicate Alike(a: Predicate, b: Predicate, registry: Registry)
    decreases a
  {
    NameOf(registry, a.head) == NameOf(registry, b.head)
    && AllAlike(a.args, b.args, registry) && NamedAlike(a.named, b.named, registry)
  }

  /** How many terms differ after resolving heads. */
  function WrongTerms(a: seq<Term>, b: seq<Term>, registry: Registry): nat
    requires |a| == |b|
  {
    if a == [] then 0
    else
      WrongTerms(a[..|a| - 1], b[..|b| - 1], registry)
      + if ResolveTerm(a[|a| - 1], registry) == ResolveTerm(b[|b| - 1], registry) then 0 else 1
  }

  function WrongNamed(a: seq<NamedArg>, b: seq<NamedArg>, registry: Registry): nat
    requires |a| == |b|
  {
    if a == [] then 0
    else
      WrongNamed(a[..|a| - 1], b[..|b| - 1], registry)
      + if ResolveTerm(a[|a| - 1].value, registry) == ResolveTerm(b[|b| - 1].value, registry) then 0 else 1
  }

  /** The level that shape and resolved equality call for. */
  function LevelOf(alike: bool, same: bool): Level {
    if !alike then Different else if same then Exact else WrongValues
  }

  lemma SameKindSelf(a: Literal, b: Literal)
    ensures a == b ==> SameKind(a, b)
    ensures SameKind(a, b) == SameKind(b, a)
  {
  }

  /** Terms equal after resolving are alike, and their comparison has the level called for. */
  lemma {:induction false} TermLevel(a: Term, b: Term, registry: Registry)
    ensures ResolveTerm(a, registry) == ResolveTerm(b, registry) ==> TermsAlike(a, b, registry)
    ensures CompareTerms(a, b, registry).level
         == LevelOf(TermsAlike(a, b, registry), ResolveTerm(a, registry) == ResolveTerm(b, registry))
    decreases a
  {
    hide HeadKey, NameOf, TallyTerms, AllAlike, Alike, ComparePredicates, Resolve, ResolveTerms;
    match (a, b) {
      case (Lit(x), Lit(y)) => SameKindSelf(x, y);
      case (Compound(x), Compound(y)) => PredicateLevel(x, y, registry);
      case (List(x), List(y)) =>
        if |x| == |y| {
          TermsLevel(x, y, registry);
          ListVerdict(x, y, registry);
        }
        LengthsAlike(x, y, registry);
      case _ =>
    }
  }

  lemma LengthsAlike(a: seq<Term>, b: seq<Term>, registry: Registry)
    ensures |a| != |b| ==> !AllAlike(a, b, registry) && ResolveTerms(a, registry) != ResolveTerms(b, registry)
  {
  }

  /** What a tally of terms is. */
  ghost predicate TermsTallied(a: seq<Term>, b: seq<Term>, registry: Registry)
    requires |a| == |b|
  {
    && (AllAlike(a, b, registry) ==> TallyTerms(a, b, registry) == Count(WrongTerms(a, b, registry), 0))
    && (!AllAlike(a, b, registry) ==> TallyTerms(a, b, registry) == Mismatch)
    && (WrongTerms(a, b, registry) == 0 <==> ResolveTerms(a, registry) == ResolveTerms(b, registry))
    && (WrongTerms(a, b, registry) == 0 ==> AllAlike(a, b, registry))
  }

  lemma ListVerdict(a: seq<Term>, b: seq<Term>, registry: Registry)
    requires |a| == |b| && TermsTallied(a, b, registry)
    ensures Verdict(TallyTerms(a, b, registry)).level
         == LevelOf(AllAlike(a, b, registry), ResolveTerms(a, registry) == ResolveTerms(b, registry))
    ensures ResolveTerms(a, registry) == ResolveTerms(b, registry) ==> AllAlike(a, b, registry)
  {
    hide TallyTerms, AllAlike, WrongTerms, ResolveTerms, Penalty;
  }

  lemma LastEqual<T>(a: seq<T>, b: seq<T>, x: T, y: T)
    requires |a| == |b|
    ensures a + [x] == b + [y] <==> a == b && x == y
  {
    if a + [x] == b + [y] {
      assert (a + [x])[|a|] == x && (b + [y])[|a|] == y;
      assert (a + [x])[..|a|] == a && (b + [y])[..|a|] == b;
    }
  }

  lemma {:induction false} TermsLevel(a: seq<Term>, b: seq<Term>, registry: Registry)
    requires |a| == |b|
    ensures TermsTallied(a, b, registry)
    decreases a
  {
    hide CompareTerms, TermsAlike, ResolveTerm;
    if a != [] {
      var x, y := a[|a| - 1], b[|b| - 1];
      TermsLevel(a[..|a| - 1], b[..|b| - 1], registry);
      TermLevel(x, y, registry);
      LastEqual(ResolveTerms(a[..|a| - 1], registry), ResolveTerms(b[..|b| - 1], registry),
                ResolveTerm(x, registry), ResolveTerm(y, registry));
    }
  }

  /** What adding named arguments to a tally of alike terms gives. */
  ghost predicate NamedTallied(t: Tally, a: seq<NamedArg>, b: seq<NamedArg>, registry: Registry)
    requires |a| == |b|
  {
    && (NamedAlike(a, b, registry) && t.Count? ==>
          TallyNamed(t, a, b, registry) == Count(t.wrong + WrongNamed(a, b, registry), t.drifted))
    && (!NamedAlike(a, b, registry) || t.Mismatch? ==> TallyNamed(t, a, b, registry) == Mismatch)
    && (NamedAlike(a, b, registry) ==>
          (WrongNamed(a, b, registry) == 0 <==> ResolveNamed(a, registry) == ResolveNamed(b, registry)))
    && (ResolveNamed(a, registry) == ResolveNamed(b, registry) ==> NamedAlike(a, b, registry))
  }

  lemma {:induction false} NamedLevel(t: Tally, a: seq<NamedArg>, b: seq<NamedArg>, registry: Registry)
    requires |a| == |b|
    ensures NamedTallied(t, a, b, registry)
    decreases a
  {
    hide CompareTerms, TermsAlike, ResolveTerm;
    if a != [] {
      var x, y := a[|a| - 1], b[|b| - 1];
      NamedLevel(t, a[..|a| - 1], b[..|b| - 1], registry);
      TermLevel(x.value, y.value, registry);
      LastEqual(ResolveNamed(a[..|a| - 1], registry), ResolveNamed(b[..|b| - 1], registry),
                NamedArg(x.key, ResolveTerm(x.value, registry)), NamedArg(y.key, ResolveTerm(y.value, registry)));
    }
  }

  lemma {:induction false} PredicateLevel(a: Predicate, b: Predicate, registry: Registry)
    ensures Resolve(a, registry) == Resolve(b, registry) ==> Alike(a, b, registry)
    ensures ComparePredicates(a, b, registry).level
         == LevelOf(Alike(a, b, registry), Resolve(a, registry) == Resolve(b, registry))
    ensures Alike(a, b, registry) && Resolve(a, registry) != Resolve(b, registry) ==>
              ComparePredicates(a, b, registry).score
              == Penalty(WrongTerms(a.args, b.args, registry) + WrongNamed(a.named, b.named, registry))
    decreases a
  {
    NameIsKey(registry, a.head);
    NameIsKey(registry, b.head);
    hide HeadKey, NameOf, TallyTerms, TallyNamed, AllAlike, NamedAlike, ResolveTerms, ResolveNamed, WrongTerms,
      WrongNamed;
    Lengths(a, b, registry);
    if |a.args| == |b.args| && |a.named| == |b.named| {
      TermsLevel(a.args, b.args, registry);
      NamedLevel(TallyTerms(a.args, b.args, registry), a.named, b.named, registry);
    }
  }

  lemma Lengths(a: Predicate, b: Predicate, registry: Registry)
    ensures |a.args| != |b.args| ==>
              !AllAlike(a.args, b.args, registry) && ResolveTerms(a.args, registry) != ResolveTerms(b.args, registry)
    ensures |a.named| != |b.named| ==>
              && !NamedAlike(a.named, b.named, registry)
              && ResolveNamed(a.named, registry) != ResolveNamed(b.named, registry)
    ensures AllAlike(a.args, b.args, registry) ==> |a.args| == |b.args|
    ensures NamedAlike(a.named, b.named, registry) ==> |a.named| == |b.named|
  {
  }

  /** The positions at which two lists of terms differ after resolving heads. */
  ghost function WrongAt(a: seq<Term>, b: seq<Term>, registry: Registry): set<nat>
    requires |a| == |b|
  {
    set i: nat | i < |a| && ResolveTerm(a[i], registry) != ResolveTerm(b[i], registry)
  }

  ghost function WrongNamedAt(a: seq<NamedArg>, b: seq<NamedArg>, registry: Registry): set<nat>
    requires |a| == |b|
  {
    set i: nat | i < |a| && ResolveTerm(a[i].value, registry) != ResolveTerm(b[i].value, registry)
  }

  lemma {:induction false} WrongCount(a: seq<Term>, b: seq<Term>, registry: Registry)
    requires |a| == |b|
    ensures |WrongAt(a, b, registry)| == WrongTerms(a, b, registry)
  {
    hide ResolveTerm;
    if a != [] {
      var n := |a| - 1;
      WrongCount(a[..n], b[..n], registry);
      if ResolveTerm(a[n], registry) != ResolveTerm(b[n], registry) {
        assert WrongAt(a, b, registry) == WrongAt(a[..n], b[..n], registry) + {n};
      } else {
        assert WrongAt(a, b, registry) == WrongAt(a[..n], b[..n], registry);
      }
    }
  }

  lemma {:induction false} WrongNamedCount(a: seq<NamedArg>, b: seq<NamedArg>, registry: Registry)
    requires |a| == |b|
    ensures |WrongNamedAt(a, b, registry)| == WrongNamed(a, b, registry)
  {
    hide ResolveTerm;
    if a != [] {
      var n := |a| - 1;
      WrongNamedCount(a[..n], b[..n], registry);
      if ResolveTerm(a[n].value, registry) != ResolveTerm(b[n].value, registry) {
        assert WrongNamedAt(a, b, registry) == WrongNamedAt(a[..n], b[..n], registry) + {n};
      } else {
        assert WrongNamedAt(a, b, registry) == WrongNamedAt(a[..n], b[..n], registry);
      }
    }
  }

  /** The score of `k` wrong values: 0.2, 0.1, and 0.0 from three on. */
  ghost predicate IsScore(score: real, k: nat) {
    k >= 1 && score == if k <= 3 then 0.3 - 0.1 * k as real else 0.0
  }

  lemma PenaltyIs(k: nat)
    requires k >= 1
    ensures IsScore(Penalty(k), k)
  {
  }

  /** Predicate comparison decides resolved equality and shape: it is `Exact` exactly for predicates equal after
      resolving heads, `Different` exactly for those of different shape, otherwise `WrongValues` with a score that
      falls by 0.1 for every position at which they differ, and never `MetadataDrift`. */
  lemma ComparesExactly(a: Predicate, b: Predicate, registry: Registry)
    ensures var r := ComparePredicates(a, b, registry);
            && (r.level == Exact <==> Resolve(a, registry) == Resolve(b, registry))
            && (r.level == Different <==> !Alike(a, b, registry))
            && r.level != MetadataDrift
            && (r.level == Exact ==> r.score == 1.0)
            && (r.level == Different ==> r.score == 0.0)
            && (r.level == WrongValues ==>
                  && |a.args| == |b.args| && |a.named| == |b.named|
                  && IsScore(r.score, |WrongAt(a.args, b.args, registry)| + |WrongNamedAt(a.named, b.named, registry)|))
  {
    hide Alike, Resolve, WrongTerms, WrongNamed, Penalty, ComparePredicates, WrongAt, WrongNamedAt, IsScore;
    PredicateLevel(a, b, registry);
    AlikeLengths(a, b, registry);
    ScoresOfLevels(a, b, registry);
    if Alike(a, b, registry) && Resolve(a, registry) != Resolve(b, registry) {
      WrongCount(a.args, b.args, registry);
      WrongNamedCount(a.named, b.named, registry);
      SomethingWrong(a, b, registry);
      PenaltyIs(WrongTerms(a.args, b.args, registry) + WrongNamed(a.named, b.named, registry));
    }
  }

  lemma SomethingWrong(a: Predicate, b: Predicate, registry: Registry)
    requires Alike(a, b, registry) && Resolve(a, registry) != Resolve(b, registry)
    ensures |a.args| == |b.args| && |a.named| == |b.named|
    ensures WrongTerms(a.args, b.args, registry) + WrongNamed(a.named, b.named, registry) >= 1
  {
    Lengths(a, b, registry);
    TermsLevel(a.args, b.args, registry);
    NamedLevel(Count(0, 0), a.named, b.named, registry);
    hide AllAlike, NamedAlike, ResolveTerms, ResolveNamed, NameOf, WrongTerms, WrongNamed, TallyTerms, TallyNamed;
  }

  /** Terms: the level is decided in the same way; different variables score 0.2, different entities and literals of one
      kind 0.3, compounds as their predicates, and lists by the positions at which they differ. */
  lemma TermsCompareExactly(a: Term, b: Term, registry: Registry)
    ensures var r := CompareTerms(a, b, registry);
            && (r.level == Exact <==> ResolveTerm(a, registry) == ResolveTerm(b, registry))
            && (r.level == Different <==> !TermsAlike(a, b, registry))
            && r.level != MetadataDrift
            && (r.level == Exact ==> r.score == 1.0)
            && (r.level == Different ==> r.score == 0.0)
            && (r.level == WrongValues && a.Var? ==> r.score == 0.2)
            && (r.level == WrongValues && (a.Ent? || a.Lit?) ==> r.score == 0.3)
            && (r.level == WrongValues && a.Compound? ==>
                  b.Compound? && r == ComparePredicates(a.pred, b.pred, registry))
            && (r.level == WrongValues && a.List? ==>
                  b.List? && |a.items| == |b.items| && IsScore(r.score, |WrongAt(a.items, b.items, registry)|))
  {
    TermLevel(a, b, registry);
    TermScores(a, b, registry);
    hide TermsAlike, ResolveTerm, CompareTerms, WrongAt, IsScore;
  }

  lemma TermScores(a: Term, b: Term, registry: Registry)
    ensures var r := CompareTerms(a, b, registry);
            && (r.level == Exact ==> r.score == 1.0)
            && (r.level == Different ==> r.score == 0.0)
            && (r.level == WrongValues && a.Var? ==> r.score == 0.2)
            && (r.level == WrongValues && (a.Ent? || a.Lit?) ==> r.score == 0.3)
            && (r.level == WrongValues && a.Compound? ==>
                  b.Compound? && r == ComparePredicates(a.pred, b.pred, registry))
            && (r.level == WrongValues && a.List? ==>
                  b.List? && |a.items| == |b.items| && IsScore(r.score, |WrongAt(a.items, b.items, registry)|))
  {
    hide SameKind, TallyTerms, ComparePredicates, WrongAt, IsScore, Penalty;
    match (a, b) {
      case (Compound(x), Compound(y)) => ScoresOfLevels(x, y, registry);
      case (List(x), List(y)) =>
        if |x| == |y| {
          TermsLevel(x, y, registry);
          WrongCount(x, y, registry);
          ListScore(x, y, registry);
        }
      case _ =>
    }
  }

  lemma ListScore(a: seq<Term>, b: seq<Term>, registry: Registry)
    requires |a| == |b| && TermsTallied(a, b, registry)
    ensures var r := Verdict(TallyTerms(a, b, registry));
            && (r.level == Exact ==> r.score == 1.0) && (r.level == Different ==> r.score == 0.0)
            && (r.level == WrongValues ==> IsScore(r.score, WrongTerms(a, b, registry)))
  {
    hide TallyTerms, AllAlike, WrongTerms, ResolveTerms;
  }

  lemma AlikeLengths(a: Predicate, b: Predicate, registry: Registry)
    ensures Alike(a, b, registry) ==> |a.args| == |b.args| && |a.named| == |b.named|
  {
    Lengths(a, b, registry);
    hide AllAlike, NamedAlike, ResolveTerms, ResolveNamed, NameOf;
  }

  lemma ScoresOfLevels(a: Predicate, b: Predicate, registry: Registry)
    ensures ComparePredicates(a, b, registry).level == Exact ==> ComparePredicates(a, b, registry).score == 1.0
    ensures ComparePredicates(a, b, registry).level == Different ==> ComparePredicates(a, b, registry).score == 0.0
  {
    hide HeadKey, TallyTerms, TallyNamed, Penalty;
  }

  // ----- symmetry -----

  lemma {:induction false} TermSymmetric(a: Term, b: Term, registry: Registry)
    ensures CompareTerms(a, b, registry) == CompareTerms(b, a, registry)
    decreases a
  {
    hide HeadKey, SameKind, TallyTerms, ComparePredicates, Verdict, Wrong;
    match (a, b) {
      case (Lit(x), Lit(y)) => SameKindSelf(x, y);
      case (Compound(x), Compound(y)) => PredicateSymmetric(x, y, registry);
      case (List(x), List(y)) =>
        if |x| == |y| {
          TermsSymmetric(x, y, registry);
        }
      case _ =>
    }
  }

  lemma {:induction false} TermsSymmetric(a: seq<Term>, b: seq<Term>, registry: Registry)
    requires |a| == |b|
    ensures TallyTerms(a, b, registry) == TallyTerms(b, a, registry)
    decreases a
  {
    hide CompareTerms, Tallied;
    if a != [] {
      TermsSymmetric(a[..|a| - 1], b[..|b| - 1], registry);
      TermSymmetric(a[|a| - 1], b[|b| - 1], registry);
    }
  }

  lemma {:induction false} NamedSymmetric(t: Tally, a: seq<NamedArg>, b: seq<NamedArg>, registry: Registry)
    requires |a| == |b|
    ensures TallyNamed(t, a, b, registry) == TallyNamed(t, b, a, registry)
    decreases a
  {
    hide CompareTerms, Tallied;
    if a != [] {
      NamedSymmetric(t, a[..|a| - 1], b[..|b| - 1], registry);
      TermSymmetric(a[|a| - 1].value, b[|b| - 1].value, registry);
    }
  }

  /** Level and score do not depend on which of the two is called the original. */
  lemma {:induction false} PredicateSymmetric(a: Predicate, b: Predicate, registry: Registry)
    ensures ComparePredicates(a, b, registry) == ComparePredicates(b, a, registry)
    decreases a
  {
    hide HeadKey, TallyTerms, TallyNamed, Verdict;
    if |a.args| == |b.args| && |a.named| == |b.named| {
      TermsSymmetric(a.args, b.args, registry);
      NamedSymmetric(TallyTerms(a.args, b.args, registry), a.named, b.named, registry);
    }
  }

  // ----- nodes -----

  const F32_EPS: real := 0.000001

  predicate Apart(x: real, y: real) {
    x - y > F32_EPS || y - x > F32_EPS
  }

  /** How many metadata fields differ (`collect_metadata_diffs`); ids and notes are not compared. */
  function MetadataDiffs(a: Node, b: Node): nat {
    (if a.validity != b.validity then 1 else 0)
    + (if a.provenance != b.provenance then 1 else 0)
    + (if Apart(a.confidence.Value(), b.confidence.Value()) then 1 else 0)
    + (if Apart(a.authority.Value(), b.authority.Value()) then 1 else 0)
    + (if a.permissions != b.permissions then 1 else 0)
    + (if a.deps != b.deps then 1 else 0)
    + (if a.status != b.status then 1 else 0)
  }

  /** `compare`. */
  function Compare(a: Node, b: Node, registry: Registry): Equiv {
    var r := ComparePredicates(a.pred, b.pred, registry);
    match r.level
    case Different => r
    case WrongValues => Wrong(r.score)
    case MetadataDrift => DRIFT
    case Exact => if MetadataDiffs(a, b) == 0 then EXACT else DRIFT
  }

  predicate SameMetadata(a: Node, b: Node) {
    && a.validity == b.validity && a.provenance == b.provenance && a.permissions == b.permissions
    && a.deps == b.deps && a.status == b.status
    && -0.000001 <= a.confidence.Value() - b.confidence.Value() <= 0.000001
    && -0.000001 <= a.authority.Value() - b.authority.Value() <= 0.000001
  }

  /** Nodes are `Exact` exactly when they say the same with the same metadata, `MetadataDrift` at 0.85 exactly when
      they say the same with other metadata; otherwise their comparison is that of their predicates, at most 0.3. */
  lemma NodesCompareExactly(a: Node, b: Node, registry: Registry)
    ensures var r, same := Compare(a, b, registry), Resolve(a.pred, registry) == Resolve(b.pred, registry);
            && (r == Equiv(Exact, 1.0) <==> same && SameMetadata(a, b))
            && (r.level == MetadataDrift <==> same && !SameMetadata(a, b))
            && (r.level == MetadataDrift ==> r.score == 0.85)
            && (!same ==> r == ComparePredicates(a.pred, b.pred, registry) && r.score <= 0.3)
  {
    hide ComparePredicates, Resolve, Alike, WrongAt, WrongNamedAt, Score.Value, Apart;
    ComparesExactly(a.pred, b.pred, registry);
    DiffsAreMetadata(a, b);
    hide MetadataDiffs, SameMetadata;
  }

  lemma DiffsAreMetadata(a: Node, b: Node)
    ensures MetadataDiffs(a, b) == 0 <==> SameMetadata(a, b)
  {
    hide Score.Value;
  }

  lemma ComparisonSymmetric(a: Node, b: Node, registry: Registry)
    ensures Compare(a, b, registry) == Compare(b, a, registry)
  {
    hide ComparePredicates, Score.Value;
    PredicateSymmetric(a.pred, b.pred, registry);
  }

  // ----- the loops -----

  lemma TallyStep(a: seq<Term>, b: seq<Term>, i: nat, registry: Registry)
    requires |a| == |b| && i < |a|
    ensures TallyTerms(a[..i + 1], b[..i + 1], registry)
         == Tallied(TallyTerms(a[..i], b[..i], registry), CompareTerms(a[i], b[i], registry).level)
  {
    hide CompareTerms, Tallied;
    assert a[..i + 1][..i] == a[..i] && b[..i + 1][..i] == b[..i];
  }

  lemma {:induction false} MismatchStays(a: seq<Term>, b: seq<Term>, i: nat, j: nat, registry: Registry)
    requires |a| == |b| && i <= j <= |a| && TallyTerms(a[..i], b[..i], registry) == Mismatch
    ensures TallyTerms(a[..j], b[..j], registry) == Mismatch
    decreases j
  {
    hide CompareTerms, TallyTerms;
    if i < j {
      MismatchStays(a, b, i, j - 1, registry);
      TallyStep(a, b, j - 1, registry);
    }
  }

  lemma NamedTallyStep(t: Tally, a: seq<NamedArg>, b: seq<NamedArg>, i: nat, registry: Registry)
    requires |a| == |b| && i < |a|
    ensures TallyNamed(t, a[..i + 1], b[..i + 1], registry)
         == if a[i].key != b[i].key then Mismatch
            else Tallied(TallyNamed(t, a[..i], b[..i], registry), CompareTerms(a[i].value, b[i].value, registry).level)
  {
    hide CompareTerms, Tallied;
    assert a[..i + 1][..i] == a[..i] && b[..i + 1][..i] == b[..i];
  }

  lemma {:induction false} NamedMismatchStays(
      t: Tally, a: seq<NamedArg>, b: seq<NamedArg>, i: nat, j: nat, registry: Registry)
    requires |a| == |b| && i <= j <= |a| && TallyNamed(t, a[..i], b[..i], registry) == Mismatch
    ensures TallyNamed(t, a[..j], b[..j], registry) == Mismatch
    decreases j
  {
    hide CompareTerms, TallyNamed;
    if i < j {
      NamedMismatchStays(t, a, b, i, j - 1, registry);
      NamedTallyStep(t, a, b, j - 1, registry);
    }
  }

  lemma NothingTallied(t: Tally, registry: Registry)
    ensures TallyTerms([], [], registry) == Count(0, 0) && TallyNamed(t, [], [], registry) == t
  {
  }

  /** The loop over arguments or items: stops at the first of a different shape. */
  method CompareEach(a: seq<Term>, b: seq<Term>, registry: Registry) returns (t: Tally)
    requires |a| == |b|
    ensures t == TallyTerms(a, b, registry)
    decreases a
  {
    hide TallyTerms, CompareTerms, TallyNamed;
    NothingTallied(Mismatch, registry);
    t := Count(0, 0);
    for i := 0 to |a|
      invariant t == TallyTerms(a[..i], b[..i], registry) && t.Count?
    {
      TallyStep(a, b, i, registry);
      var r := CompareTwo(a[i], b[i], registry);
      if r.level == Different {
        MismatchStays(a, b, i + 1, |a|, registry);
        assert a[..|a|] == a && b[..|b|] == b;
        return Mismatch;
      }
      t := Tallied(t, r.level);
    }
    assert a[..|a|] == a && b[..|b|] == b;
  }

  method CompareEachNamed(start: Tally, a: seq<NamedArg>, b: seq<NamedArg>, registry: Registry) returns (t: Tally)
    requires |a| == |b| && start.Count?
    ensures t == TallyNamed(start, a, b, registry)
    decreases a
  {
    hide TallyTerms, CompareTerms, TallyNamed;
    NothingTallied(start, registry);
    t := start;
    for i := 0 to |a|
      invariant t == TallyNamed(start, a[..i], b[..i], registry) && t.Count?
    {
      NamedTallyStep(start, a, b, i, registry);
      var r := DIFFERENT;
      if a[i].key == b[i].key {
        r := CompareTwo(a[i].value, b[i].value, registry);
      }
      if r.level == Different {
        NamedMismatchStays(start, a, b, i + 1, |a|, registry);
        assert a[..|a|] == a && b[..|b|] == b;
        return Mismatch;
      }
      t := Tallied(t, r.level);
    }
    assert a[..|a|] == a && b[..|b|] == b;
  }

  method CompareTwo(a: Term, b: Term, registry: Registry) returns (r: Equiv)
    ensures r == CompareTerms(a, b, registry)
    decreases a
  {
    hide ComparePredicates, TallyTerms, SameKind;
    match (a, b) {
      case (Compound(x), Compound(y)) => r := CompareBoth(x, y, registry);
      case (List(x), List(y)) =>
        if |x| != |y| {
          r := DIFFERENT;
        } else {
          var t := CompareEach(x, y, registry);
          r := Verdict(t);
        }
      case (Var(x), Var(y)) => r := if x == y then EXACT else Wrong(0.2);
      case (Ent(x), Ent(y)) => r := if x == y then EXACT else Wrong(0.3);
      case (Lit(x), Lit(y)) => r := if x == y then EXACT else if SameKind(x, y) then Wrong(0.3) else DIFFERENT;
      case _ => r := DIFFERENT;
    }
  }

  lemma {:induction false} NamedAfterMismatch(a: seq<NamedArg>, b: seq<NamedArg>, registry: Registry)
    requires |a| == |b|
    ensures TallyNamed(Mismatch, a, b, registry) == Mismatch
  {
    if a != [] {
      NamedAfterMismatch(a[..|a| - 1], b[..|b| - 1], registry);
    }
    hide CompareTerms;
  }

  method CompareBoth(a: Predicate, b: Predicate, registry: Registry) returns (r: Equiv)
    ensures r == ComparePredicates(a, b, registry)
    decreases a
  {
    hide TallyTerms, TallyNamed, HeadKey;
    if HeadKey(registry, a.head) != HeadKey(registry, b.head) || |a.args| != |b.args| {
      return DIFFERENT;
    }
    var t := CompareEach(a.args, b.args, registry);
    if |a.named| != |b.named| {
      return DIFFERENT;
    }
    if t == Mismatch {
      NamedAfterMismatch(a.named, b.named, registry);
      return DIFFERENT;
    }
    t := CompareEachNamed(t, a.named, b.named, registry);
    r := Verdict(t);
  }
}
