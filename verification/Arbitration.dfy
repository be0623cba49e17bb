/** Conflict arbitration (`factum-rt/src/arbitration.rs`). The orders in which hash maps yield their keys are
    parameters: the theorems hold for all of them. Weights and authorities are reals. */
module Arbitration {
  import opened Types
  import opened Serialize
  import opened Query
  import Bags

  datatype Policy =
    | LatestWins
    | HighestAuthority
    | Unanimous
    | WeightedVote(weights: map<Text, real>)
    | Custom

  /** Results and whether something was refused or tied. */
  datatype Outcome = Outcome(results: seq<Match>, ambiguous: bool)

  function Auth(m: Match): real {
    m.node.authority.Value()
  }

  function PredOf(m: Match): Predicate {
    m.node.pred
  }

  /** `predicate_signature`. */
  function Signature(m: Match, cal: Calendar): Text {
    PredicateText(m.node.pred, cal)
  }

  /** `validity_recency_cmp`: negative, zero or positive. */
  function RecencyCmp(a: Validity, b: Validity): int {
    match (a, b)
    case (Forever, Forever) => 0
    case (Forever, Window(_, _)) => -1
    case (Window(_, _), Forever) => 1
    case (Window(x, _), Window(y, _)) => if x < y then -1 else if x == y then 0 else 1
  }

  /** The order of `max_by` under `LatestWins`: authority, then recency. */
  function LatestCmp(a: Match, b: Match): int {
    if Auth(a) < Auth(b) then -1
    else if Auth(a) > Auth(b) then 1
    else RecencyCmp(a.node.validity, b.node.validity)
  }

  predicate Near(x: real, y: real) {
    -0.001 < x - y < 0.001
  }

  /** `max_by`: the last of the greatest. */
  function Latest(ms: seq<Match>): Match
    requires ms != []
  {
    var last := ms[|ms| - 1];
    if |ms| == 1 then last
    else if LatestCmp(Latest(ms[..|ms| - 1]), last) > 0 then Latest(ms[..|ms| - 1]) else last
  }

  predicate Ties(m: Match, w: Match) {
    Near(Auth(m), Auth(w)) && RecencyCmp(m.node.validity, w.node.validity) == 0
  }

  function Tied(ms: seq<Match>, w: Match): seq<Match> {
    Bags.Filter((m: Match) => Ties(m, w), ms)
  }

  /** `fold(0.0, max)`. */
  function MaxAuth(ms: seq<Match>): real {
    if ms == [] then 0.0
    else
      var rest := MaxAuth(ms[..|ms| - 1]);
      if Auth(ms[|ms| - 1]) > rest then Auth(ms[|ms| - 1]) else rest
  }

  function Nearest(ms: seq<Match>, max: real): seq<Match> {
    Bags.Filter((m: Match) => Near(Auth(m), max), ms)
  }

  function LatestOutcome(ms: seq<Match>): Outcome {
    if |ms| <= 1 then Outcome(ms, false)
    else Outcome([Latest(ms)], |Tied(ms, Latest(ms))| > 1)
  }

  /** The program indexes the first winner; `WinnersExist` says when there is one. */
  function AuthorityOutcome(ms: seq<Match>): Outcome {
    if |ms| <= 1 then Outcome(ms, false)
    else
      var winners := Nearest(ms, MaxAuth(ms));
      Outcome(if winners == [] then [] else [winners[0]], |winners| != 1)
  }

  function UnanimousOutcome(ms: seq<Match>): Outcome {
    if |ms| <= 1 then Outcome(ms, false)
    else if forall m <- ms :: PredOf(m) == PredOf(ms[0]) then Outcome([ms[0]], false)
    else Outcome([], true)
  }

  // ----- weighted vote -----

  /** `principal_str`. */
  function Principal(p: Provenance): Text {
    match p
    case Asserted(principal) => principal
    case Extracted(_, _, model, _) => model
    case Verbatim(_, _) => "document"
    case Summary(_, _) => "document"
    case Derived(_, _) => "derived"
  }

  const DEFAULT_WEIGHT: real := 0.5

  function Weight(m: Match, weights: map<Text, real>): real {
    var principal := Principal(m.node.provenance);
    if principal in weights then weights[principal] else DEFAULT_WEIGHT
  }

  function Total(ms: seq<Match>, weights: map<Text, real>): real {
    if ms == [] then 0.0 else Weight(ms[0], weights) + Total(ms[1..], weights)
  }

  /** The total weight of the matches with a signature. */
  function ClassWeight(ms: seq<Match>, weights: map<Text, real>, cal: Calendar, sig: Text): real {
    if ms == [] then 0.0
    else
      (if Signature(ms[0], cal) == sig then Weight(ms[0], weights) else 0.0) + ClassWeight(ms[1..], weights, cal, sig)
  }

  function Class(ms: seq<Match>, cal: Calendar, sig: Text): seq<Match> {
    Bags.Filter((m: Match) => Signature(m, cal) == sig, ms)
  }

  /** `max_by` over the signature map in its order: the last of the heaviest. */
  function Heaviest(order: seq<Text>, ms: seq<Match>, weights: map<Text, real>, cal: Calendar): (sig: Text)
    requires order != []
    ensures sig in order
  {
    var last := order[|order| - 1];
    if |order| == 1 then last
    else
      var best := Heaviest(order[..|order| - 1], ms, weights, cal);
      if ClassWeight(ms, weights, cal, best) > ClassWeight(ms, weights, cal, last) then best else last
  }

  predicate Majority(ms: seq<Match>, weights: map<Text, real>, cal: Calendar, sig: Text) {
    ClassWeight(ms, weights, cal, sig) > Total(ms, weights) * 0.5
  }

  function VoteOutcome(ms: seq<Match>, weights: map<Text, real>, order: seq<Text>, cal: Calendar): Outcome {
    if |ms| <= 1 then Outcome(ms, false)
    else if order == [] then Outcome([], true)
    else
      var best := Heaviest(order, ms, weights, cal);
      if Majority(ms, weights, cal, best) && Class(ms, cal, best) != [] then Outcome([Class(ms, cal, best)[0]], false)
      else Outcome([], true)
  }

  // ----- groups -----

  /** The outcomes of several groups, in order. */
  function Collect(f: Text -> Outcome, order: seq<Text>): Outcome {
    if order == [] then Outcome([], false)
    else
      Join(f(order[0]), Collect(f, order[1..]))
  }

  /** Groups by a key, in the order of arrival. */
  function Group(ms: seq<Match>, key: Match -> Text, k: Text): seq<Match> {
    Bags.Filter((m: Match) => key(m) == k, ms)
  }

  function SignatureKey(cal: Calendar): Match -> Text {
    (m: Match) => Signature(m, cal)
  }

  /** One predicate class under the policies that let its members compete. */
  function ContestOutcome(policy: Policy, ms: seq<Match>): Outcome {
    if policy.HighestAuthority? then AuthorityOutcome(ms) else LatestOutcome(ms)
  }

  function Contests(policy: Policy, ms: seq<Match>, cal: Calendar): Text -> Outcome {
    (sig: Text) => ContestOutcome(policy, Group(ms, SignatureKey(cal), sig))
  }

  /** One group; `order` is the order of its signatures in the hash map. */
  function GroupOutcome(policy: Policy, ms: seq<Match>, order: seq<Text>, cal: Calendar): Outcome {
    if |ms| <= 1 then Outcome(ms, false)
    else
      match policy
      case LatestWins => Collect(Contests(policy, ms, cal), order)
      case HighestAuthority => Collect(Contests(policy, ms, cal), order)
      case Unanimous => UnanimousOutcome(ms)
      case WeightedVote(weights) => VoteOutcome(ms, weights, order, cal)
      case Custom => Outcome([], true)
  }

  type Orders = map<Text, seq<Text>>

  function OrderOf(orders: Orders, k: Text): seq<Text> {
    if k in orders then orders[k] else []
  }

  function Groups(policy: Policy, ms: seq<Match>, key: Match -> Text, orders: Orders, cal: Calendar): Text -> Outcome {
    (k: Text) => GroupOutcome(policy, Group(ms, key, k), OrderOf(orders, k), cal)
  }

  /** `arbitrate`. With a query pattern all matches have one and the same key; without one the key is made of the
      bindings. */
  function Arbitrate(
      policy: Policy, ms: seq<Match>, key: Match -> Text, order: seq<Text>, orders: Orders,
      cal: Calendar): Outcome {
    Collect(Groups(policy, ms, key, orders, cal), order)
  }

  /** An order in which a hash map may yield the keys of these matches. */
  ghost predicate IsOrder(ms: seq<Match>, key: Match -> Text, order: seq<Text>) {
    Bags.Distinct(order) && forall k :: k in order <==> exists m :: m in ms && key(m) == k
  }

  ghost predicate AreOrders(ms: seq<Match>, key: Match -> Text, order: seq<Text>, orders: Orders, cal: Calendar) {
    IsOrder(ms, key, order) && forall k <- order :: IsOrder(Group(ms, key, k), SignatureKey(cal), OrderOf(orders, k))
  }

  lemma GroupFacts(ms: seq<Match>, key: Match -> Text, k: Text)
    ensures forall m :: m in Group(ms, key, k) <==> m in ms && key(m) == k
  {
    Bags.FilterIn((m: Match) => key(m) == k, ms);
  }

  lemma ClassFacts(ms: seq<Match>, cal: Calendar, sig: Text)
    ensures forall m :: m in Class(ms, cal, sig) <==> m in ms && Signature(m, cal) == sig
  {
    Bags.FilterIn((m: Match) => Signature(m, cal) == sig, ms);
    hide Signature;
  }

  lemma DistinctSnoc(order: seq<Text>, k: Text)
    requires Bags.Distinct(order) && k !in order
    ensures Bags.Distinct(order + [k]) && forall x :: x in order + [k] <==> x in order || x == k
  {
  }

  /** There is an order for every list of matches. */
  lemma SomeOrder(ms: seq<Match>, cal: Calendar) returns (order: seq<Text>)
    ensures IsOrder(ms, SignatureKey(cal), order)
  {
    hide SignatureKey, Bags.Distinct;
    order := Enumerate(set m | m in ms :: SignatureKey(cal)(m));
  }

  lemma {:induction false} Enumerate(keys: set<Text>) returns (order: seq<Text>)
    ensures Bags.Distinct(order) && forall k :: k in order <==> k in keys
  {
    order := [];
    if keys != {} {
      var k :| k in keys;
      order := Enumerate(keys - {k});
      DistinctSnoc(order, k);
      order := order + [k];
    }
  }

  // ----- sameness of outcomes -----

  /** Both refuse, or both answer the same predicates equally often; `nodes` asks for the same nodes as well. */
  ghost predicate Same(nodes: bool, a: Outcome, b: Outcome) {
    && a.ambiguous == b.ambiguous
    && (!a.ambiguous ==>
          && Bags.Permutes(Bags.Map(PredOf, a.results), Bags.Map(PredOf, b.results))
          && (nodes ==> Bags.Permutes(a.results, b.results)))
  }

  lemma SameResults(nodes: bool, a: Outcome, b: Outcome)
    requires a.ambiguous == b.ambiguous && (!a.ambiguous ==> Bags.Permutes(a.results, b.results))
    ensures Same(nodes, a, b)
  {
    hide Bags.Map;
    if !a.ambiguous {
      Bags.MapPermutes(PredOf, a.results, b.results);
    }
  }

  lemma SameOne(nodes: bool, m: Match, n: Match)
    requires PredOf(m) == PredOf(n) && (nodes ==> m == n)
    ensures Same(nodes, Outcome([m], false), Outcome([n], false))
  {
    assert Bags.Map(PredOf, [m]) == [PredOf(m)];
    assert Bags.Map(PredOf, [n]) == [PredOf(n)];
  }

  lemma SameTransitive(nodes: bool, a: Outcome, b: Outcome, c: Outcome)
    requires Same(nodes, a, b) && Same(nodes, b, c)
    ensures Same(nodes, a, c)
  {
    hide Bags.Map;
  }

  function Join(a: Outcome, b: Outcome): Outcome {
    Outcome(a.results + b.results, a.ambiguous || b.ambiguous)
  }

  lemma {:induction false} MapConcat(a: seq<Match>, b: seq<Match>)
    ensures Bags.Map(PredOf, a + b) == Bags.Map(PredOf, a) + Bags.Map(PredOf, b)
  {
    hide Bags.Map;
    var whole, parts := Bags.Map(PredOf, a + b), Bags.Map(PredOf, a) + Bags.Map(PredOf, b);
    forall i | 0 <= i < |whole| ensures whole[i] == parts[i] {
      assert (a + b)[i] == if i < |a| then a[i] else b[i - |a|];
    }
  }

  lemma SameJoin(nodes: bool, a: Outcome, b: Outcome, c: Outcome, d: Outcome)
    requires Same(nodes, a, b) && Same(nodes, c, d)
    ensures Same(nodes, Join(a, c), Join(b, d))
  {
    hide Bags.Map;
    MapConcat(a.results, c.results);
    MapConcat(b.results, d.results);
  }

  lemma CollectCons(f: Text -> Outcome, order: seq<Text>)
    requires order != []
    ensures Collect(f, order) == Join(f(order[0]), Collect(f, order[1..]))
  {
  }

  lemma {:induction false} CollectPointwise(nodes: bool, f: Text -> Outcome, g: Text -> Outcome, order: seq<Text>)
    requires forall k <- order :: Same(nodes, f(k), g(k))
    ensures Same(nodes, Collect(f, order), Collect(g, order))
  {
    hide Same, Join;
    if order == [] {
      SameResults(nodes, Collect(f, order), Collect(g, order));
    } else {
      CollectPointwise(nodes, f, g, order[1..]);
      CollectCons(f, order);
      CollectCons(g, order);
      SameJoin(nodes, f(order[0]), g(order[0]), Collect(f, order[1..]), Collect(g, order[1..]));
    }
  }

  lemma {:induction false} CollectWithout(f: Text -> Outcome, order: seq<Text>, i: nat)
    requires i < |order|
    ensures multiset(Collect(f, order).results)
         == multiset(f(order[i]).results) + multiset(Collect(f, Bags.Without(order, i)).results)
    ensures Collect(f, order).ambiguous == (f(order[i]).ambiguous || Collect(f, Bags.Without(order, i)).ambiguous)
  {
    hide Collect;
    CollectCons(f, order);
    if i == 0 {
      assert Bags.Without(order, i) == order[1..];
    } else {
      CollectWithout(f, order[1..], i - 1);
      WithoutTail(order, i);
      CollectCons(f, Bags.Without(order, i));
    }
  }

  lemma WithoutTail(order: seq<Text>, i: nat)
    requires 0 < i < |order|
    ensures Bags.Without(order, i) != [] && Bags.Without(order, i)[0] == order[0]
    ensures Bags.Without(order, i)[1..] == Bags.Without(order[1..], i - 1)
  {
  }

  lemma {:induction false} CollectPermutes(f: Text -> Outcome, a: seq<Text>, b: seq<Text>)
    requires Bags.Permutes(a, b)
    ensures Bags.Permutes(Collect(f, a).results, Collect(f, b).results)
    ensures Collect(f, a).ambiguous == Collect(f, b).ambiguous
  {
    hide Collect;
    if a == [] {
      assert |b| == |multiset(b)|;
    } else {
      var i := Bags.TakeOut(a, b);
      CollectPermutes(f, a[1..], Bags.Without(b, i));
      CollectCons(f, a);
      CollectWithout(f, b, i);
    }
  }

  /** Two orders of the same keys, and outcomes that agree key by key. */
  lemma CollectSame(nodes: bool, f: Text -> Outcome, g: Text -> Outcome, a: seq<Text>, b: seq<Text>)
    requires Bags.Permutes(a, b) && forall k <- a :: Same(nodes, f(k), g(k))
    ensures Same(nodes, Collect(f, a), Collect(g, b))
  {
    hide Same, Collect;
    CollectPointwise(nodes, f, g, a);
    CollectPermutes(g, a, b);
    SameResults(nodes, Collect(g, a), Collect(g, b));
    SameTransitive(nodes, Collect(f, a), Collect(g, a), Collect(g, b));
  }

  lemma OrdersPermute(ms: seq<Match>, ns: seq<Match>, key: Match -> Text, a: seq<Text>, b: seq<Text>)
    requires Bags.Permutes(ms, ns) && IsOrder(ms, key, a) && IsOrder(ns, key, b)
    ensures Bags.Permutes(a, b)
  {
    assert forall m :: m in ms <==> m in multiset(ms);
    assert forall m :: m in ns <==> m in multiset(ns);
    forall k ensures multiset(a)[k] == multiset(b)[k] {
      Bags.DistinctCounts(a, k);
      Bags.DistinctCounts(b, k);
    }
  }

  // ----- LatestWins -----

  lemma {:induction false} LatestIsMax(ms: seq<Match>)
    requires ms != []
    ensures Latest(ms) in ms && forall m <- ms :: LatestCmp(Latest(ms), m) >= 0
  {
    hide LatestCmp;
    var last := ms[|ms| - 1];
    CmpSelf(last);
    if |ms| > 1 {
      var rest := ms[..|ms| - 1];
      LatestIsMax(rest);
      assert ms == rest + [last];
      forall m | m in ms ensures LatestCmp(Latest(ms), m) >= 0 {
        CmpChain(last, Latest(rest), m);
      }
    }
  }

  lemma CmpSelf(m: Match)
    ensures LatestCmp(m, m) == 0
  {
    hide Auth;
  }

  lemma CmpChain(a: Match, b: Match, c: Match)
    ensures LatestCmp(b, a) <= 0 && LatestCmp(b, c) >= 0 ==> LatestCmp(a, c) >= 0
  {
    hide Auth;
  }

  lemma CmpBoth(a: Match, b: Match)
    requires LatestCmp(a, b) >= 0 && LatestCmp(b, a) >= 0
    ensures Auth(a) == Auth(b) && RecencyCmp(a.node.validity, b.node.validity) == 0
  {
    hide Auth;
  }

  lemma TiesAlike(m: Match, a: Match, b: Match)
    requires Auth(a) == Auth(b) && RecencyCmp(a.node.validity, b.node.validity) == 0
    ensures Ties(m, a) == Ties(m, b)
  {
    hide Auth;
  }

  lemma TwoInOne(s: seq<Match>, a: Match, b: Match)
    requires a in s && b in s && |s| <= 1
    ensures a == b
  {
  }

  lemma PermutesFacts(a: seq<Match>, b: seq<Match>)
    requires Bags.Permutes(a, b)
    ensures |a| == |b| && forall m :: m in a <==> m in b
  {
    assert |a| == |multiset(a)| && |b| == |multiset(b)|;
    assert forall m :: m in a <==> m in multiset(a);
    assert forall m :: m in b <==> m in multiset(b);
  }

  lemma OneIsSame(a: seq<Match>, b: seq<Match>)
    requires Bags.Permutes(a, b) && |a| == 1
    ensures a == b
  {
    PermutesFacts(a, b);
    assert a[0] in a && b[0] in b;
  }

  lemma LatestSame(ms: seq<Match>, ns: seq<Match>)
    requires Bags.Permutes(ms, ns)
    ensures Same(true, LatestOutcome(ms), LatestOutcome(ns))
  {
    hide Same, Auth, LatestCmp, RecencyCmp, Ties, Latest;
    PermutesFacts(ms, ns);
    if |ms| <= 1 {
      SameResults(true, LatestOutcome(ms), LatestOutcome(ns));
    } else {
      var a, b := Latest(ms), Latest(ns);
      LatestIsMax(ms);
      LatestIsMax(ns);
      CmpBoth(a, b);
      TiedPermutes(ms, ns, a, b);
      TiedHas(ms, a);
      TiedHasOther(ms, a, b);
      PermutesFacts(Tied(ms, a), Tied(ns, b));
      if |Tied(ms, a)| <= 1 {
        TwoInOne(Tied(ms, a), a, b);
      }
      hide Tied;
      SameResults(true, LatestOutcome(ms), LatestOutcome(ns));
    }
  }

  lemma TiedHas(ms: seq<Match>, a: Match)
    requires a in ms
    ensures a in Tied(ms, a)
  {
    TiedHasOther(ms, a, a);
  }

  lemma TiedHasOther(ms: seq<Match>, a: Match, b: Match)
    requires b in ms && (a == b || (Auth(a) == Auth(b) && RecencyCmp(a.node.validity, b.node.validity) == 0))
    ensures b in Tied(ms, a)
  {
    Bags.FilterIn((m: Match) => Ties(m, a), ms);
    hide Auth;
  }

  lemma TiedPermutes(ms: seq<Match>, ns: seq<Match>, a: Match, b: Match)
    requires Bags.Permutes(ms, ns) && Auth(a) == Auth(b) && RecencyCmp(a.node.validity, b.node.validity) == 0
    ensures Bags.Permutes(Tied(ms, a), Tied(ns, b))
  {
    hide Auth, RecencyCmp, Ties;
    Bags.FilterPermutes((m: Match) => Ties(m, a), ms, ns);
    forall m ensures multiset(Tied(ns, a))[m] == multiset(Tied(ns, b))[m] {
      TiesAlike(m, a, b);
      Bags.FilterCount((m: Match) => Ties(m, a), ns, m);
      Bags.FilterCount((m: Match) => Ties(m, b), ns, m);
    }
  }

  // ----- HighestAuthority -----

  lemma {:induction false} MaxAuthIs(ms: seq<Match>)
    ensures MaxAuth(ms) >= 0.0 && (forall m <- ms :: Auth(m) <= MaxAuth(ms))
    ensures MaxAuth(ms) == 0.0 || exists m :: m in ms && Auth(m) == MaxAuth(ms)
  {
    hide Auth;
    if ms != [] {
      var rest, last := ms[..|ms| - 1], ms[|ms| - 1];
      MaxAuthIs(rest);
      assert ms == rest + [last];
      assert last in ms;
    }
  }

  lemma MaxAuthSame(ms: seq<Match>, ns: seq<Match>)
    requires forall m :: m in ms <==> m in ns
    ensures MaxAuth(ms) == MaxAuth(ns)
  {
    hide Auth, MaxAuth;
    MaxAuthIs(ms);
    MaxAuthIs(ns);
  }

  /** A class of several matches has a winner exactly when some authority is not 0.001 or more below zero. */
  lemma WinnersExist(ms: seq<Match>)
    ensures Nearest(ms, MaxAuth(ms)) != [] <==> exists m :: m in ms && Auth(m) > -0.001
  {
    hide Auth, MaxAuth;
    MaxAuthIs(ms);
    var winners := Nearest(ms, MaxAuth(ms));
    Bags.FilterIn((m: Match) => Near(Auth(m), MaxAuth(ms)), ms);
    if winners != [] {
      assert winners[0] in winners;
    }
    if m :| m in ms && Auth(m) > -0.001 {
      if MaxAuth(ms) == 0.0 {
        assert m in winners;
      } else {
        var best :| best in ms && Auth(best) == MaxAuth(ms);
        assert best in winners;
      }
    }
  }

  lemma AuthoritySame(ms: seq<Match>, ns: seq<Match>)
    requires Bags.Permutes(ms, ns)
    ensures Same(true, AuthorityOutcome(ms), AuthorityOutcome(ns))
  {
    hide Same, Auth, MaxAuth, Near;
    PermutesFacts(ms, ns);
    if |ms| <= 1 {
      SameResults(true, AuthorityOutcome(ms), AuthorityOutcome(ns));
    } else {
      MaxAuthSame(ms, ns);
      var max := MaxAuth(ms);
      Bags.FilterPermutes((m: Match) => Near(Auth(m), max), ms, ns);
      PermutesFacts(Nearest(ms, max), Nearest(ns, max));
      if |Nearest(ms, max)| == 1 {
        OneIsSame(Nearest(ms, max), Nearest(ns, max));
      }
      hide Nearest;
      SameResults(true, AuthorityOutcome(ms), AuthorityOutcome(ns));
    }
  }

  // ----- Unanimous -----

  lemma UnanimousSame(ms: seq<Match>, ns: seq<Match>)
    requires Bags.Permutes(ms, ns)
    ensures Same(false, UnanimousOutcome(ms), UnanimousOutcome(ns))
  {
    hide Same;
    PermutesFacts(ms, ns);
    if |ms| <= 1 {
      SameResults(false, UnanimousOutcome(ms), UnanimousOutcome(ns));
    } else {
      assert ms[0] in ms && ns[0] in ns;
      if forall m <- ms :: PredOf(m) == PredOf(ms[0]) {
        SameOne(false, ms[0], ns[0]);
      } else {
        SameResults(false, UnanimousOutcome(ms), UnanimousOutcome(ns));
      }
    }
  }
}
