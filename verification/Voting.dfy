/** The weighted vote of `factum-rt/src/arbitration.rs`: which outcomes it can have over all orders in which matches
    arrive and its signature map is iterated. */
module Voting {
  import opened Types
  import opened Serialize
  import opened Query
  import opened Arbitration
  import Bags
  import Matching
  import Printing
  import RoundTrip

  // ----- sums of weights -----

  function Sum(f: Match -> real, ms: seq<Match>): real {
    if ms == [] then 0.0 else f(ms[0]) + Sum(f, ms[1..])
  }

  lemma {:induction false} SumWithout(f: Match -> real, ms: seq<Match>, i: nat)
    requires i < |ms|
    ensures Sum(f, ms) == f(ms[i]) + Sum(f, Bags.Without(ms, i))
  {
    if i == 0 {
      assert Bags.Without(ms, i) == ms[1..];
    } else {
      SumWithout(f, ms[1..], i - 1);
      assert Bags.Without(ms, i)[1..] == Bags.Without(ms[1..], i - 1);
    }
  }

  lemma {:induction false} SumPermutes(f: Match -> real, a: seq<Match>, b: seq<Match>)
    requires Bags.Permutes(a, b)
    ensures Sum(f, a) == Sum(f, b)
  {
    if a == [] {
      assert |b| == |multiset(b)|;
    } else {
      hide Bags.Without, Bags.Permutes;
      var i := Bags.TakeOut(a, b);
      SumPermutes(f, a[1..], Bags.Without(b, i));
      SumWithout(f, b, i);
    }
  }

  function WeightIn(weights: map<Text, real>): Match -> real {
    (m: Match) => Weight(m, weights)
  }

  function WeightOf(weights: map<Text, real>, cal: Calendar, sig: Text): Match -> real {
    (m: Match) => if Signature(m, cal) == sig then Weight(m, weights) else 0.0
  }

  lemma {:induction false} TotalIsSum(ms: seq<Match>, weights: map<Text, real>)
    ensures Total(ms, weights) == Sum(WeightIn(weights), ms)
  {
    hide Weight;
    if ms != [] {
      TotalIsSum(ms[1..], weights);
    }
  }

  lemma {:induction false} ClassIsSum(ms: seq<Match>, weights: map<Text, real>, cal: Calendar, sig: Text)
    ensures ClassWeight(ms, weights, cal, sig) == Sum(WeightOf(weights, cal, sig), ms)
  {
    hide Weight, Signature;
    if ms != [] {
      ClassIsSum(ms[1..], weights, cal, sig);
    }
  }

  lemma WeightsPermute(ms: seq<Match>, ns: seq<Match>, weights: map<Text, real>, cal: Calendar, sig: Text)
    requires Bags.Permutes(ms, ns)
    ensures Total(ms, weights) == Total(ns, weights)
    ensures ClassWeight(ms, weights, cal, sig) == ClassWeight(ns, weights, cal, sig)
  {
    hide *;
    TotalIsSum(ms, weights);
    TotalIsSum(ns, weights);
    SumPermutes(WeightIn(weights), ms, ns);
    ClassIsSum(ms, weights, cal, sig);
    ClassIsSum(ns, weights, cal, sig);
    SumPermutes(WeightOf(weights, cal, sig), ms, ns);
  }

  // ----- majorities -----

  ghost predicate NonNegative(weights: map<Text, real>) {
    forall p <- weights :: weights[p] >= 0.0
  }

  lemma {:induction false} TwoClasses(ms: seq<Match>, weights: map<Text, real>, cal: Calendar, s: Text, t: Text)
    requires s != t && NonNegative(weights)
    ensures ClassWeight(ms, weights, cal, s) + ClassWeight(ms, weights, cal, t) <= Total(ms, weights)
  {
    hide Signature;
    if ms != [] {
      TwoClasses(ms[1..], weights, cal, s, t);
    }
  }

  /** Without negative weights at most one class has a majority. */
  lemma OneMajority(ms: seq<Match>, weights: map<Text, real>, cal: Calendar, s: Text, t: Text)
    requires NonNegative(weights) && Majority(ms, weights, cal, s) && Majority(ms, weights, cal, t)
    ensures s == t
  {
    if s != t {
      TwoClasses(ms, weights, cal, s, t);
    }
  }

  lemma {:induction false} HeaviestIs(order: seq<Text>, ms: seq<Match>, weights: map<Text, real>, cal: Calendar)
    requires order != []
    ensures forall sig <- order ::
              ClassWeight(ms, weights, cal, sig) <= ClassWeight(ms, weights, cal, Heaviest(order, ms, weights, cal))
  {
    hide ClassWeight;
    if |order| > 1 {
      HeaviestIs(order[..|order| - 1], ms, weights, cal);
      assert order == order[..|order| - 1] + [order[|order| - 1]];
    }
  }

  /** Two classes share a majority and no class is heavier. */
  ghost predicate SharedMajority(ms: seq<Match>, weights: map<Text, real>, cal: Calendar, order: seq<Text>) {
    exists s, t :: s in order && t in order && s != t && Shares(ms, weights, cal, order, s, t)
  }

  ghost predicate Shares(ms: seq<Match>, weights: map<Text, real>, cal: Calendar, order: seq<Text>, s: Text, t: Text) {
    && Majority(ms, weights, cal, s)
    && ClassWeight(ms, weights, cal, s) == ClassWeight(ms, weights, cal, t)
    && forall u <- order :: ClassWeight(ms, weights, cal, u) <= ClassWeight(ms, weights, cal, s)
  }

  lemma NonNegativeNeverShares(ms: seq<Match>, weights: map<Text, real>, cal: Calendar, order: seq<Text>)
    requires NonNegative(weights)
    ensures !SharedMajority(ms, weights, cal, order)
  {
    hide ClassWeight, Total, NonNegative;
    forall s, t | s != t && Shares(ms, weights, cal, order, s, t) ensures false {
      OneMajority(ms, weights, cal, s, t);
    }
  }

  /** The signature answered, if any. */
  ghost function Elected(ms: seq<Match>, weights: map<Text, real>, cal: Calendar, order: seq<Text>): Option<Text> {
    if order != [] && Majority(ms, weights, cal, Heaviest(order, ms, weights, cal))
    then Some(Heaviest(order, ms, weights, cal)) else None
  }

  /** Whatever the order of the signature map, the same class is elected, or none, unless two share a majority. */
  lemma ElectedSame(ms: seq<Match>, ns: seq<Match>, weights: map<Text, real>, cal: Calendar, a: seq<Text>, b: seq<Text>)
    requires Bags.Permutes(ms, ns) && Bags.Permutes(a, b) && !SharedMajority(ms, weights, cal, a)
    ensures Elected(ms, weights, cal, a) == Elected(ns, weights, cal, b)
  {
    hide ClassWeight, Total, Heaviest, Bags.Permutes, SharedMajority;
    SameKeys(a, b);
    if a != [] {
      var s, t := Heaviest(a, ms, weights, cal), Heaviest(b, ns, weights, cal);
      HeaviestIs(a, ms, weights, cal);
      HeaviestIs(b, ns, weights, cal);
      WeightsPermute(ms, ns, weights, cal, s);
      WeightsPermute(ms, ns, weights, cal, t);
      MustShare(ms, weights, cal, a, s, t);
    }
  }

  lemma MustShare(ms: seq<Match>, weights: map<Text, real>, cal: Calendar, order: seq<Text>, s: Text, t: Text)
    requires s in order && t in order
    requires ClassWeight(ms, weights, cal, s) == ClassWeight(ms, weights, cal, t)
    requires forall u <- order :: ClassWeight(ms, weights, cal, u) <= ClassWeight(ms, weights, cal, s)
    ensures Majority(ms, weights, cal, s) && s != t ==> SharedMajority(ms, weights, cal, order)
  {
    hide ClassWeight, Majority;
    assert Majority(ms, weights, cal, s) ==> Shares(ms, weights, cal, order, s, t);
  }

  lemma SameKeys(a: seq<Text>, b: seq<Text>)
    requires Bags.Permutes(a, b)
    ensures (a == [] <==> b == []) && forall k :: k in a <==> k in b
  {
    assert |a| == |multiset(a)| && |b| == |multiset(b)|;
    assert forall k :: k in a <==> k in multiset(a);
    assert forall k :: k in b <==> k in multiset(b);
  }

  /** `order` with `k` moved to the end. */
  function Last(order: seq<Text>, k: Text): seq<Text> {
    Bags.Filter((x: Text) => x != k, order) + [k]
  }

  lemma HeaviestLast(order: seq<Text>, ms: seq<Match>, weights: map<Text, real>, cal: Calendar, k: Text)
    requires forall u <- order :: ClassWeight(ms, weights, cal, u) <= ClassWeight(ms, weights, cal, k)
    ensures Heaviest(order + [k], ms, weights, cal) == k
  {
    hide ClassWeight;
    var more := order + [k];
    if order != [] {
      assert more[..|more| - 1] == order;
    }
  }

  lemma LastPermutes(order: seq<Text>, k: Text)
    requires Bags.Distinct(order) && k in order
    ensures Bags.Permutes(order, Last(order, k))
  {
    forall x ensures multiset(order)[x] == multiset(Last(order, k))[x] {
      Bags.FilterCount((y: Text) => y != k, order, x);
      Bags.DistinctCounts(order, x);
    }
  }

  /** The vote depends on the order of the hash map exactly when two classes share a majority. */
  lemma VoteDependsOnOrder(ms: seq<Match>, weights: map<Text, real>, cal: Calendar, order: seq<Text>)
    requires Bags.Distinct(order)
    ensures SharedMajority(ms, weights, cal, order)
       <==> exists other ::
              Bags.Permutes(order, other) && Elected(ms, weights, cal, other) != Elected(ms, weights, cal, order)
  {
    hide Elected, Bags.Distinct;
    if SharedMajority(ms, weights, cal, order) {
      var s, t :| s in order && t in order && s != t && Shares(ms, weights, cal, order, s, t);
      ElectedLast(ms, weights, cal, order, s);
      ElectedLast(ms, weights, cal, order, t);
      LastPermutes(order, s);
      LastPermutes(order, t);
      assert Elected(ms, weights, cal, Last(order, s)) != Elected(ms, weights, cal, Last(order, t));
    } else {
      forall other | Bags.Permutes(order, other)
        ensures Elected(ms, weights, cal, other) == Elected(ms, weights, cal, order)
      {
        hide *;
        assert Bags.Permutes(ms, ms) by {
          PermutesSelf(ms);
        }
        ElectedSame(ms, ms, weights, cal, order, other);
      }
    }
  }

  lemma PermutesSelf(ms: seq<Match>)
    ensures Bags.Permutes(ms, ms)
  {
  }

  lemma ElectedLast(ms: seq<Match>, weights: map<Text, real>, cal: Calendar, order: seq<Text>, k: Text)
    requires Majority(ms, weights, cal, k)
    requires forall u <- order :: ClassWeight(ms, weights, cal, u) <= ClassWeight(ms, weights, cal, k)
    ensures Elected(ms, weights, cal, Last(order, k)) == Some(k)
  {
    hide ClassWeight, Total, Heaviest;
    var others := Bags.Filter((x: Text) => x != k, order);
    Bags.FilterIn((x: Text) => x != k, order);
    HeaviestLast(others, ms, weights, cal, k);
  }

  /** With a negative weight two classes can share a majority, and then the order of a hash map decides. */
  lemma NegativeWeightGuesses(a: Match, b: Match, c: Match, cal: Calendar)
    requires Signature(a, cal) != Signature(b, cal) && Signature(b, cal) != Signature(c, cal)
    requires Signature(a, cal) != Signature(c, cal)
    requires Principal(a.node.provenance) == "a" && Principal(b.node.provenance) == "b"
    requires Principal(c.node.provenance) == "c"
    ensures var weights := map["a" := 1.0, "b" := 1.0, "c" := -1.0];
            var order := [Signature(a, cal), Signature(b, cal), Signature(c, cal)];
            SharedMajority([a, b, c], weights, cal, order)
  {
    hide Signature, Principal;
    var weights := map["a" := 1.0, "b" := 1.0, "c" := -1.0];
    var order := [Signature(a, cal), Signature(b, cal), Signature(c, cal)];
    ThreeClasses(a, b, c, weights, cal, []);
    forall sig ensures ClassWeight([a, b, c], weights, cal, sig)
      == (if Signature(a, cal) == sig then 1.0 else 0.0) + (if Signature(b, cal) == sig then 1.0 else 0.0)
         + (if Signature(c, cal) == sig then -1.0 else 0.0) {
      ThreeClasses(a, b, c, weights, cal, sig);
    }
    hide ClassWeight, Total;
    assert Shares([a, b, c], weights, cal, order, Signature(a, cal), Signature(b, cal));
  }

  lemma WeightsCons(m: Match, rest: seq<Match>, weights: map<Text, real>, cal: Calendar, sig: Text)
    ensures Total([m] + rest, weights) == Weight(m, weights) + Total(rest, weights)
    ensures ClassWeight([m] + rest, weights, cal, sig)
         == (if Signature(m, cal) == sig then Weight(m, weights) else 0.0) + ClassWeight(rest, weights, cal, sig)
  {
    hide Weight, Signature;
    assert ([m] + rest)[1..] == rest;
  }

  lemma ThreeClasses(a: Match, b: Match, c: Match, weights: map<Text, real>, cal: Calendar, sig: Text)
    ensures Total([a, b, c], weights) == Weight(a, weights) + Weight(b, weights) + Weight(c, weights)
    ensures ClassWeight([a, b, c], weights, cal, sig)
         == (if Signature(a, cal) == sig then Weight(a, weights) else 0.0)
            + (if Signature(b, cal) == sig then Weight(b, weights) else 0.0)
            + (if Signature(c, cal) == sig then Weight(c, weights) else 0.0)
  {
    hide Weight, Signature;
    WeightsCons(a, [b, c], weights, cal, sig);
    WeightsCons(b, [c], weights, cal, sig);
    WeightsCons(c, [], weights, cal, sig);
    assert [a] + [b, c] == [a, b, c] && [b] + [c] == [b, c] && [c] + [] == [c];
  }

  // ----- votes -----

  /** Equal signatures mean equal predicates among these matches. */
  ghost predicate Distinguishes(ms: seq<Match>, cal: Calendar) {
    forall a <- ms, b <- ms :: Signature(a, cal) == Signature(b, cal) ==> PredOf(a) == PredOf(b)
  }

  /** Predicates a parser can have produced are told apart by their signatures, so the classes of a weighted vote and
      the agreement `Unanimous` asks for are the same relation. */
  lemma CanonicalDistinguishes(ms: seq<Match>, cal: Calendar)
    requires Printing.Lawful(cal)
    requires forall m <- ms :: Printing.PredicateFits(PredOf(m)) && RoundTrip.HeadsNamed(PredOf(m))
    ensures Distinguishes(ms, cal)
    ensures forall a <- ms, b <- ms :: Signature(a, cal) == Signature(b, cal) <==> PredOf(a) == PredOf(b)
  {
    hide Printing.PredicateFits, RoundTrip.HeadsNamed, Printing.Lawful, PredicateText;
    forall a, b | a in ms && b in ms ensures Signature(a, cal) == Signature(b, cal) <==> PredOf(a) == PredOf(b) {
      RoundTrip.SignatureDecidesEquality(PredOf(a), PredOf(b), cal);
    }
  }

  lemma ClassNotEmpty(ms: seq<Match>, cal: Calendar, sig: Text)
    requires exists m :: m in ms && Signature(m, cal) == sig
    ensures Class(ms, cal, sig) != [] && Class(ms, cal, sig)[0] in ms && Signature(Class(ms, cal, sig)[0], cal) == sig
  {
    ClassFacts(ms, cal, sig);
    hide Signature, Class;
    var m :| m in ms && Signature(m, cal) == sig;
    assert m in Class(ms, cal, sig);
    assert Class(ms, cal, sig)[0] in Class(ms, cal, sig);
  }

  lemma VoteIs(ms: seq<Match>, weights: map<Text, real>, order: seq<Text>, cal: Calendar)
    requires |ms| > 1 && IsOrder(ms, SignatureKey(cal), order)
    ensures Elected(ms, weights, cal, order).Some? ==>
              && (exists m :: m in ms && Signature(m, cal) == Elected(ms, weights, cal, order).value)
              && Class(ms, cal, Elected(ms, weights, cal, order).value) != []
    ensures VoteOutcome(ms, weights, order, cal)
         == if Elected(ms, weights, cal, order).Some?
            then Outcome([Class(ms, cal, Elected(ms, weights, cal, order).value)[0]], false)
            else Outcome([], true)
  {
    hide Signature, Class, Majority, Heaviest;
    if Elected(ms, weights, cal, order).Some? {
      var best := Elected(ms, weights, cal, order).value;
      assert best in order;
      var m :| m in ms && SignatureKey(cal)(m) == best;
      assert Signature(m, cal) == best;
      ClassNotEmpty(ms, cal, best);
    }
  }

  /** The match lies in a class that has a majority and than which none is heavier. */
  ghost predicate Tops(ms: seq<Match>, weights: map<Text, real>, cal: Calendar, x: Match) {
    && Majority(ms, weights, cal, Signature(x, cal))
    && forall z <- ms ::
         ClassWeight(ms, weights, cal, Signature(z, cal)) <= ClassWeight(ms, weights, cal, Signature(x, cal))
  }

  ghost predicate Rivals(ms: seq<Match>, weights: map<Text, real>, cal: Calendar, x: Match, y: Match) {
    x in ms && y in ms && PredOf(x) != PredOf(y) && Tops(ms, weights, cal, x) && Tops(ms, weights, cal, y)
  }

  /** Two matches with different predicates both lie in a heaviest class that has a majority. */
  ghost predicate Undecided(ms: seq<Match>, weights: map<Text, real>, cal: Calendar) {
    exists x, y :: Rivals(ms, weights, cal, x, y)
  }

  /** `ns` lists the matches in some order and `a` is an order of its signature map. */
  ghost predicate Arrives(ms: seq<Match>, ns: seq<Match>, a: seq<Text>, cal: Calendar) {
    Bags.Permutes(ms, ns) && IsOrder(ns, SignatureKey(cal), a)
  }

  /** What is elected tops the vote; if nothing is, nothing does. */
  lemma ElectedTops(ms: seq<Match>, ns: seq<Match>, weights: map<Text, real>, a: seq<Text>, cal: Calendar, x: Match)
    requires Arrives(ms, ns, a, cal) && |ns| > 1 && x in ns
    ensures Elected(ns, weights, cal, a) == Some(Signature(x, cal)) ==> x in ms && Tops(ms, weights, cal, x)
    ensures Elected(ns, weights, cal, a).None? ==> !Tops(ms, weights, cal, x)
  {
    hide ClassWeight, Total, Signature, Heaviest;
    PermutesFacts(ms, ns);
    assert SignatureKey(cal)(x) == Signature(x, cal);
    assert Signature(x, cal) in a;
    HeaviestIs(a, ns, weights, cal);
    forall z | z in ns ensures Signature(z, cal) in a {
      assert SignatureKey(cal)(z) == Signature(z, cal);
    }
    forall sig ensures ClassWeight(ms, weights, cal, sig) == ClassWeight(ns, weights, cal, sig)
                    && Total(ms, weights) == Total(ns, weights) {
      WeightsPermute(ms, ns, weights, cal, sig);
    }
  }

  lemma FirstOf(ns: seq<Match>, cal: Calendar, sig: Text)
    requires Class(ns, cal, sig) != []
    ensures Class(ns, cal, sig)[0] in ns && Signature(Class(ns, cal, sig)[0], cal) == sig
  {
    ClassFacts(ns, cal, sig);
    hide Class, Signature;
    assert Class(ns, cal, sig)[0] in Class(ns, cal, sig);
  }

  /** What a vote answers, if anything, tops it; if it refuses, nothing does. */
  lemma VoteAnswers(ms: seq<Match>, ns: seq<Match>, weights: map<Text, real>, a: seq<Text>, cal: Calendar)
      returns (o: Option<Match>)
    requires Arrives(ms, ns, a, cal) && |ns| > 1
    ensures VoteOutcome(ns, weights, a, cal) == if o.Some? then Outcome([o.value], false) else Outcome([], true)
    ensures o.Some? ==> o.value in ms && Tops(ms, weights, cal, o.value)
    ensures o.None? ==> forall x <- ms :: !Tops(ms, weights, cal, x)
  {
    hide Elected, Tops, Class, Signature, IsOrder, SignatureKey, VoteOutcome;
    VoteIs(ns, weights, a, cal);
    PermutesFacts(ms, ns);
    var elected := Elected(ns, weights, cal, a);
    if elected.Some? {
      FirstOf(ns, cal, elected.value);
      var x := Class(ns, cal, elected.value)[0];
      ElectedTops(ms, ns, weights, a, cal, x);
      o := Some(x);
    } else {
      forall x | x in ms ensures !Tops(ms, weights, cal, x) {
        ElectedTops(ms, ns, weights, a, cal, x);
      }
      o := None;
    }
  }

  lemma VoteSame(
      ms: seq<Match>, ns: seq<Match>, ks: seq<Match>, weights: map<Text, real>, a: seq<Text>, b: seq<Text>,
      cal: Calendar)
    requires Arrives(ms, ns, a, cal) && Arrives(ms, ks, b, cal) && !Undecided(ms, weights, cal)
    ensures Same(false, VoteOutcome(ns, weights, a, cal), VoteOutcome(ks, weights, b, cal))
  {
    hide Same, IsOrder, Tops, SignatureKey;
    PermutesFacts(ms, ns);
    PermutesFacts(ms, ks);
    if |ns| <= 1 {
      SameResults(false, VoteOutcome(ns, weights, a, cal), VoteOutcome(ks, weights, b, cal));
    } else {
      var x := VoteAnswers(ms, ns, weights, a, cal);
      var y := VoteAnswers(ms, ks, weights, b, cal);
      if x.Some? && y.Some? {
        assert !Rivals(ms, weights, cal, x.value, y.value);
        SameOne(false, x.value, y.value);
      } else {
        SameResults(false, VoteOutcome(ns, weights, a, cal), VoteOutcome(ks, weights, b, cal));
      }
    }
    hide VoteOutcome;
  }

  /** The matches with `x` first. */
  lemma WithFirst(ms: seq<Match>, x: Match) returns (ns: seq<Match>)
    requires x in ms
    ensures ns != [] && ns[0] == x && Bags.Permutes(ms, ns)
  {
    var i :| 0 <= i < |ms| && ms[i] == x;
    ns := [x] + Bags.Without(ms, i);
    Bags.WithoutBag(ms, i);
  }

  lemma FirstInClass(ns: seq<Match>, cal: Calendar)
    requires ns != []
    ensures Class(ns, cal, Signature(ns[0], cal)) != [] && Class(ns, cal, Signature(ns[0], cal))[0] == ns[0]
  {
    hide Signature;
  }

  lemma OrderMoved(ns: seq<Match>, cal: Calendar, order: seq<Text>, k: Text)
    requires IsOrder(ns, SignatureKey(cal), order) && k in order
    ensures IsOrder(ns, SignatureKey(cal), Last(order, k))
  {
    hide SignatureKey;
    LastPermutes(order, k);
    SameKeys(order, Last(order, k));
    forall x ensures multiset(Last(order, k))[x] <= 1 {
      Bags.DistinctCounts(order, x);
    }
    DistinctFromCounts(Last(order, k));
  }

  lemma DistinctFromCounts(s: seq<Text>)
    requires forall x :: multiset(s)[x] <= 1
    ensures Bags.Distinct(s)
  {
    forall i, j | 0 <= i < j < |s| ensures s[i] != s[j] {
      var before, after := s[..j], s[j..];
      assert s == before + after;
      assert before[i] == s[i] && after[0] == s[j];
      assert s[i] in before && s[j] in after;
      assert multiset(s)[s[j]] == multiset(before)[s[j]] + multiset(after)[s[j]];
    }
  }

  /** A match that tops the vote can be made its answer: let it arrive first and its class be yielded last. */
  lemma MakeAnswer(ms: seq<Match>, weights: map<Text, real>, cal: Calendar, x: Match)
      returns (ns: seq<Match>, a: seq<Text>)
    requires x in ms && Tops(ms, weights, cal, x) && |ms| > 1
    ensures Arrives(ms, ns, a, cal) && VoteOutcome(ns, weights, a, cal) == Outcome([x], false)
  {
    hide ClassWeight, Total, Signature, Heaviest, Class, VoteOutcome, IsOrder;
    ns := WithFirst(ms, x);
    var sig := Signature(x, cal);
    var order := SomeOrder(ns, cal);
    TopsTransfers(ms, ns, weights, cal, x, order);
    OrderMoved(ns, cal, order, sig);
    a := Last(order, sig);
    ElectedLast(ns, weights, cal, order, sig);
    PermutesFacts(ms, ns);
    VoteIs(ns, weights, a, cal);
    FirstInClass(ns, cal);
  }

  lemma TopsTransfers(
      ms: seq<Match>, ns: seq<Match>, weights: map<Text, real>, cal: Calendar, x: Match, order: seq<Text>)
    requires Arrives(ms, ns, order, cal) && x in ms && Tops(ms, weights, cal, x)
    ensures Signature(x, cal) in order && Majority(ns, weights, cal, Signature(x, cal))
    ensures forall u <- order ::
              ClassWeight(ns, weights, cal, u) <= ClassWeight(ns, weights, cal, Signature(x, cal))
  {
    hide ClassWeight, Total, Signature;
    PermutesFacts(ms, ns);
    assert SignatureKey(cal)(x) == Signature(x, cal);
    forall sig ensures ClassWeight(ms, weights, cal, sig) == ClassWeight(ns, weights, cal, sig)
                    && Total(ms, weights) == Total(ns, weights) {
      WeightsPermute(ms, ns, weights, cal, sig);
    }
    forall u | u in order
      ensures ClassWeight(ns, weights, cal, u) <= ClassWeight(ns, weights, cal, Signature(x, cal)) {
      var z :| z in ns && SignatureKey(cal)(z) == u;
      assert Signature(z, cal) == u;
    }
  }

  ghost predicate Differ(
      ns: seq<Match>, a: seq<Text>, ks: seq<Match>, b: seq<Text>, weights: map<Text, real>, cal: Calendar) {
    !Same(false, VoteOutcome(ns, weights, a, cal), VoteOutcome(ks, weights, b, cal))
  }

  lemma DifferentAnswers(x: Match, y: Match)
    requires PredOf(x) != PredOf(y)
    ensures !Same(false, Outcome([x], false), Outcome([y], false))
  {
    assert Bags.Map(PredOf, [x]) == [PredOf(x)] && Bags.Map(PredOf, [y]) == [PredOf(y)];
    assert multiset([PredOf(x)])[PredOf(x)] == 1 && multiset([PredOf(y)])[PredOf(x)] == 0;
  }

  /** A weighted vote, with any weights, depends on the order of the matches and of its signature map if and only if two
      matches with different predicates both lie in a heaviest class that has a majority. */
  lemma VoteDependsOnOrders(ms: seq<Match>, weights: map<Text, real>, cal: Calendar)
    ensures Undecided(ms, weights, cal)
       <==> exists ns, a, ks, b ::
              Arrives(ms, ns, a, cal) && Arrives(ms, ks, b, cal) && Differ(ns, a, ks, b, weights, cal)
  {
    hide Tops, Arrives, VoteOutcome, Same;
    if Undecided(ms, weights, cal) {
      var x, y :| Rivals(ms, weights, cal, x, y);
      TwoElements(ms, x, y);
      var ns, a := MakeAnswer(ms, weights, cal, x);
      var ks, b := MakeAnswer(ms, weights, cal, y);
      DifferentAnswers(x, y);
      assert Differ(ns, a, ks, b, weights, cal);
    } else {
      forall ns, a, ks, b | Arrives(ms, ns, a, cal) && Arrives(ms, ks, b, cal)
        ensures !Differ(ns, a, ks, b, weights, cal)
      {
        VoteSame(ms, ns, ks, weights, a, b, cal);
      }
    }
  }

  lemma TwoElements(ms: seq<Match>, x: Match, y: Match)
    requires x in ms && y in ms && x != y
    ensures |ms| > 1
  {
  }

  /** Two matches of one class with a majority that have different predicates. */
  ghost predicate Mixed(ms: seq<Match>, weights: map<Text, real>, cal: Calendar) {
    exists x, y :: InOneClass(ms, weights, cal, x, y)
  }

  ghost predicate InOneClass(ms: seq<Match>, weights: map<Text, real>, cal: Calendar, x: Match, y: Match) {
    && x in ms && y in ms && PredOf(x) != PredOf(y)
    && Signature(x, cal) == Signature(y, cal) && Majority(ms, weights, cal, Signature(x, cal))
  }

  lemma MajorityTops(ms: seq<Match>, weights: map<Text, real>, cal: Calendar, x: Match)
    requires NonNegative(weights) && Majority(ms, weights, cal, Signature(x, cal))
    ensures Tops(ms, weights, cal, x)
  {
    hide Signature, ClassWeight, Total, NonNegative;
    forall z | z in ms
      ensures ClassWeight(ms, weights, cal, Signature(z, cal)) <= ClassWeight(ms, weights, cal, Signature(x, cal)) {
      if Signature(z, cal) != Signature(x, cal) {
        TwoClasses(ms, weights, cal, Signature(x, cal), Signature(z, cal));
        TotalNonNegative(ms, weights, cal, Signature(z, cal));
      }
    }
  }

  lemma {:induction false} TotalNonNegative(ms: seq<Match>, weights: map<Text, real>, cal: Calendar, sig: Text)
    requires NonNegative(weights)
    ensures 0.0 <= ClassWeight(ms, weights, cal, sig) <= Total(ms, weights)
  {
    hide Signature;
    if ms != [] {
      TotalNonNegative(ms[1..], weights, cal, sig);
    }
  }

  /** Without negative weights that is so exactly when the class with the majority holds two different predicates. */
  lemma NonNegativeUndecided(ms: seq<Match>, weights: map<Text, real>, cal: Calendar)
    requires NonNegative(weights)
    ensures Undecided(ms, weights, cal) <==> Mixed(ms, weights, cal)
  {
    hide Majority, NonNegative, Signature;
    if x, y :| Rivals(ms, weights, cal, x, y) {
      OneMajority(ms, weights, cal, Signature(x, cal), Signature(y, cal));
      assert InOneClass(ms, weights, cal, x, y);
    }
    if x, y :| InOneClass(ms, weights, cal, x, y) {
      MajorityTops(ms, weights, cal, x);
      MajorityTops(ms, weights, cal, y);
      assert Rivals(ms, weights, cal, x, y);
    }
  }

  /** Predicates that their signatures tell apart, and no negative weights: the vote never depends on an order. */
  lemma DistinguishedDecided(ms: seq<Match>, weights: map<Text, real>, cal: Calendar)
    requires NonNegative(weights) && Distinguishes(ms, cal)
    ensures !Undecided(ms, weights, cal)
  {
    hide Majority, NonNegative, Signature;
    NonNegativeUndecided(ms, weights, cal);
    hide Undecided;
  }

  /** Default weights, the query `(f ?x)` and two stored facts: one holds a compound whose head is resolved, the other
      the name it prints as. Both match, the vote counts them as one fact, and answers whichever arrives first. */
  lemma ResolvedHeadVoteGuesses(a: Match, b: Match, n: U32, cal: Calendar)
    requires PredOf(a) == Predicate(Name("f"), [Compound(Predicate(Id(n), [], []))], [])
    requires PredOf(b) == Predicate(Name("f"), [Compound(Predicate(Name(HeadText(Id(n))), [], []))], [])
    ensures PredOf(a) != PredOf(b) && Signature(a, cal) == Signature(b, cal)
    ensures Matching.MatchPattern(Predicate(Name("f"), [Var("x")], []), PredOf(a)).Some?
    ensures Matching.MatchPattern(Predicate(Name("f"), [Var("x")], []), PredOf(b)).Some?
    ensures VoteOutcome([a, b], map[], [Signature(a, cal)], cal) == Outcome([a], false)
    ensures VoteOutcome([b, a], map[], [Signature(a, cal)], cal) == Outcome([b], false)
    ensures Mixed([a, b], map[], cal)
  {
    SameSignature(a, b, n, cal);
    OneVariable(PredOf(a));
    OneVariable(PredOf(b));
    hide Signature;
    AllOneClass(a, b, cal);
    AllOneClass(b, a, cal);
    hide VoteOutcome, Majority;
    assert InOneClass([a, b], map[], cal, a, b);
  }

  lemma SameSignature(a: Match, b: Match, n: U32, cal: Calendar)
    requires PredOf(a) == Predicate(Name("f"), [Compound(Predicate(Id(n), [], []))], [])
    requires PredOf(b) == Predicate(Name("f"), [Compound(Predicate(Name(HeadText(Id(n))), [], []))], [])
    ensures Signature(a, cal) == Signature(b, cal) && PredOf(a) != PredOf(b)
  {
    var p, q := Predicate(Id(n), [], []), Predicate(Name(HeadText(Id(n))), [], []);
    assert PredicateText(p, cal) == PredicateText(q, cal);
    assert TermText(Compound(p), cal) == TermText(Compound(q), cal);
    assert PredOf(a).args[1..] == [] && PredOf(b).args[1..] == [];
    assert PredOf(a).args[0] == Compound(p) && PredOf(b).args[0] == Compound(q);
    hide PredicateText, TermText;
    ArgsTextOne(Compound(p), cal);
    ArgsTextOne(Compound(q), cal);
    FormText(PredOf(a), cal);
    FormText(PredOf(b), cal);
  }

  lemma ArgsTextOne(t: Term, cal: Calendar)
    ensures ArgsText([t], cal) == " " + TermText(t, cal) + ArgsText([], cal)
  {
    hide TermText;
    assert [t][1..] == [];
  }

  lemma FormText(p: Predicate, cal: Calendar)
    ensures PredicateText(p, cal) == "(" + HeadText(p.head) + ArgsText(p.args, cal) + NamedText(p.named, cal) + ")"
  {
    hide ArgsText, NamedText, HeadText;
  }

  lemma OneVariable(p: Predicate)
    requires p.head == Name("f") && |p.args| == 1
    ensures Matching.MatchPattern(Predicate(Name("f"), [Var("x")], []), p).Some?
  {
    var s: Matching.Subst := map["x" := p.args[0]];
    assert Matching.Inst(Predicate(Name("f"), [Var("x")], []), p, s);
    Matching.PatternComplete(Predicate(Name("f"), [Var("x")], []), p, s);
  }

  lemma AllOneClass(a: Match, b: Match, cal: Calendar)
    requires Signature(a, cal) == Signature(b, cal)
    ensures VoteOutcome([a, b], map[], [Signature(a, cal)], cal) == Outcome([a], false)
    ensures Majority([a, b], map[], cal, Signature(a, cal))
  {
    hide Signature;
    WeightsCons(a, [b], map[], cal, Signature(a, cal));
    WeightsCons(b, [], map[], cal, Signature(a, cal));
    assert [a] + [b] == [a, b] && [b] + [] == [b];
    FirstInClass([a, b], cal);
    hide Class, ClassWeight, Total;
  }
}
