/** Which matches the conflict policies answer, in terms of authorities, validity and weights alone. */
module Winners {
  import opened Types
  import opened Serialize
  import opened Query
  import opened Arbitration
  import opened Voting
  import opened Duplicates
  import opened Refusal
  import Bags

  // ----- LatestWins -----

  /** `m` starts later than `w`: anything with a start is more recent than what holds forever. */
  ghost predicate Later(m: Node, w: Node) {
    m.validity.Window? && (w.validity.Forever? || m.validity.from > w.validity.from)
  }

  ghost predicate SameStart(m: Node, w: Node) {
    if w.validity.Forever? then m.validity.Forever? else m.validity.Window? && m.validity.from == w.validity.from
  }

  /** Nothing has a higher authority than `w`, and nothing of its authority starts later. */
  ghost predicate Leads(w: Node, m: Node) {
    || m.authority.Value() < w.authority.Value()
    || (m.authority.Value() == w.authority.Value() && !Later(m, w))
  }

  /** Within 0.001 of its authority, with the same start. */
  ghost predicate Level(m: Node, w: Node) {
    -0.001 < m.authority.Value() - w.authority.Value() < 0.001 && SameStart(m, w)
  }

  lemma CmpLeads(w: Match, m: Match)
    ensures LatestCmp(w, m) >= 0 <==> Leads(w.node, m.node)
    ensures Ties(m, w) <==> Level(m.node, w.node)
  {
    hide Score.Value;
  }

  /** A class under `LatestWins` is answered by the match of highest authority and, among those, the most recent. It is
      refused as well if and only if another listing has an authority within 0.001 of that and the same start. */
  lemma LatestAnswersBest(ms: seq<Match>)
    requires ms != []
    ensures |LatestOutcome(ms).results| == 1 && LatestOutcome(ms).results[0] in ms
    ensures forall m <- ms :: Leads(LatestOutcome(ms).results[0].node, m.node)
    ensures LatestOutcome(ms).ambiguous
       <==> exists i, j ::
              && 0 <= i < j < |ms| && Level(ms[i].node, LatestOutcome(ms).results[0].node)
              && Level(ms[j].node, LatestOutcome(ms).results[0].node)
  {
    hide Latest, LatestCmp, Ties, Level, Leads, LatestOutcome;
    var w := Latest(ms);
    LatestIsMax(ms);
    LatestAnswers(ms);
    forall m | m in ms ensures Leads(w.node, m.node) {
      CmpLeads(w, m);
    }
    LatestRefusesIff(ms);
    forall m ensures Ties(m, w) <==> Level(m.node, w.node) {
      CmpLeads(w, m);
    }
    TiesSelf(w);
    TwoPlaces(ms, w);
  }

  /** Of several best the one listed last is answered. */
  lemma {:induction false} LatestAnswersLast(ms: seq<Match>) returns (i: nat)
    requires ms != []
    ensures i < |ms| && LatestOutcome(ms).results == [ms[i]]
    ensures forall j :: i < j < |ms| ==> !Leads(ms[j].node, ms[i].node)
  {
    LatestAnswers(ms);
    hide LatestCmp, Leads, LatestOutcome;
    i := |ms| - 1;
    if |ms| > 1 {
      var rest, last := ms[..|ms| - 1], ms[|ms| - 1];
      i := LatestAnswersLast(rest);
      LatestAnswers(rest);
      CmpLeads(last, rest[i]);
      CmpOpposite(Latest(rest), last);
      assert forall j :: 0 <= j < |rest| ==> rest[j] == ms[j];
      if LatestCmp(Latest(rest), last) <= 0 {
        i := |ms| - 1;
      }
    }
  }

  lemma CmpOpposite(a: Match, b: Match)
    ensures LatestCmp(a, b) > 0 <==> LatestCmp(b, a) < 0
  {
    hide Score.Value;
  }

  /** A tie with `w` at two places: `w` twice, or another match. */
  lemma TwoPlaces(ms: seq<Match>, w: Match)
    requires w in ms && Ties(w, w)
    ensures (multiset(ms)[w] >= 2 || exists x :: x in ms && x != w && Ties(x, w))
       <==> exists i, j :: 0 <= i < j < |ms| && Ties(ms[i], w) && Ties(ms[j], w)
  {
    hide Ties;
    var k :| 0 <= k < |ms| && ms[k] == w;
    var rest := Bags.Without(ms, k);
    Bags.WithoutBag(ms, k);
    if multiset(ms)[w] >= 2 {
      assert w in multiset(rest);
      var l :| 0 <= l < |rest| && rest[l] == w;
      Bags.WithoutAt(ms, k, l);
      assert ms[if l < k then l else l + 1] == w;
    }
    if x :| x in ms && x != w && Ties(x, w) {
      var l :| 0 <= l < |ms| && ms[l] == x;
      assert Ties(ms[l], w) && Ties(ms[k], w) && l != k;
    }
    if i, j :| 0 <= i < j < |ms| && Ties(ms[i], w) && Ties(ms[j], w) {
      if ms[i] == w && ms[j] == w {
        TwiceCounted(ms, i, j);
      } else {
        assert ms[i] in ms && ms[j] in ms;
      }
    }
  }

  lemma TwiceCounted(ms: seq<Match>, i: nat, j: nat)
    requires i < j < |ms| && ms[i] == ms[j]
    ensures multiset(ms)[ms[i]] >= 2
  {
    Bags.WithoutBag(ms, i);
    Bags.WithoutAt(ms, i, j - 1);
    Bags.WithoutLength(ms, i);
    assert Bags.Without(ms, i)[j - 1] in multiset(Bags.Without(ms, i));
  }

  // ----- HighestAuthority -----

  /** The highest authority, or zero if none is above it. */
  ghost predicate IsTop(ms: seq<Match>, top: real) {
    && top >= 0.0 && (forall m <- ms :: m.node.authority.Value() <= top)
    && (top == 0.0 || exists m :: m in ms && m.node.authority.Value() == top)
  }

  predicate AtTop(m: Match, top: real) {
    m.node.authority.Value() > top - 0.001
  }

  /** A class of several under `HighestAuthority`: the first within 0.001 of the highest authority is answered, and
      refused as well unless it is the only one. */
  lemma AuthorityAnswersTop(ms: seq<Match>, top: real)
    requires |ms| > 1 && IsTop(ms, top)
    ensures AuthorityOutcome(ms).results
         == if Bags.Filter((m: Match) => AtTop(m, top), ms) == [] then []
            else [Bags.Filter((m: Match) => AtTop(m, top), ms)[0]]
    ensures AuthorityOutcome(ms).ambiguous <==> |Bags.Filter((m: Match) => AtTop(m, top), ms)| != 1
  {
    hide Score.Value, MaxAuth;
    MaxAuthIs(ms);
    assert MaxAuth(ms) == top;
    FilterSame((m: Match) => Near(Auth(m), top), (m: Match) => AtTop(m, top), ms);
  }

  lemma {:induction false} FilterSame(p: Match -> bool, q: Match -> bool, ms: seq<Match>)
    requires forall m <- ms :: p(m) == q(m)
    ensures Bags.Filter(p, ms) == Bags.Filter(q, ms)
  {
    if ms != [] {
      assert ms == [ms[0]] + ms[1..];
      FilterSame(p, q, ms[1..]);
    }
  }

  // ----- one answer for each class -----

  /** Two matches that compete: the same key and the same canonical text. */
  predicate Rival(x: Match, m: Match, key: Match -> Text, cal: Calendar) {
    key(x) == key(m) && PredicateText(x.node.pred, cal) == PredicateText(m.node.pred, cal)
  }

  function RivalOf(m: Match, key: Match -> Text, cal: Calendar): Match -> bool {
    (x: Match) => Rival(x, m, key, cal)
  }

  lemma {:induction false} FilterNone(p: Match -> bool, ms: seq<Match>)
    requires forall m <- ms :: !p(m)
    ensures Bags.Filter(p, ms) == []
  {
    if ms != [] {
      assert ms == [ms[0]] + ms[1..];
      FilterNone(p, ms[1..]);
    }
  }

  /** Only one key contributes to what is filtered. */
  lemma {:induction false} FilterCollect(p: Match -> bool, f: Text -> Outcome, order: seq<Text>, k: Text)
    requires Bags.Distinct(order) && forall x <- order :: x != k ==> forall r <- f(x).results :: !p(r)
    ensures Bags.Filter(p, Collect(f, order).results) == if k in order then Bags.Filter(p, f(k).results) else []
  {
    if order != [] {
      var rest := order[1..];
      assert order == [order[0]] + rest;
      FilterCollect(p, f, rest, k);
      hide Collect;
      CollectCons(f, order);
      Bags.FilterConcat(p, f(order[0]).results, Collect(f, rest).results);
      if order[0] != k {
        FilterNone(p, f(order[0]).results);
      } else {
        assert k !in rest;
      }
    }
  }

  lemma ContestResultsIn(policy: Policy, ms: seq<Match>)
    requires SameNodes(policy)
    ensures forall w <- ContestOutcome(policy, ms).results :: w in ms
  {
    hide Tied, Auth, MaxAuth;
    if |ms| > 1 {
      LatestIsMax(ms);
      hide Latest;
      forall w | w in Nearest(ms, MaxAuth(ms)) ensures w in ms {
        NearestFacts(ms, MaxAuth(ms), w);
      }
      hide Nearest;
    }
  }

  lemma {:induction false} CollectResultsIn(f: Text -> Outcome, order: seq<Text>, w: Match)
    ensures w in Collect(f, order).results <==> exists k :: k in order && w in f(k).results
  {
    if order != [] {
      CollectResultsIn(f, order[1..], w);
      assert order == [order[0]] + order[1..];
    }
  }

  lemma ContestsResultsIn(policy: Policy, ms: seq<Match>, cal: Calendar, sig: Text, w: Match)
    requires SameNodes(policy) && w in Contests(policy, ms, cal)(sig).results
    ensures w in ms && SignatureKey(cal)(w) == sig
  {
    hide ContestOutcome, SignatureKey;
    var key := SignatureKey(cal);
    ContestResultsIn(policy, Group(ms, key, sig));
    GroupFacts(ms, key, sig);
  }

  lemma GroupResultsIn(policy: Policy, ms: seq<Match>, order: seq<Text>, cal: Calendar, w: Match)
    requires SameNodes(policy) && w in GroupOutcome(policy, ms, order, cal).results
    ensures w in ms
  {
    hide Contests, Collect;
    if |ms| > 1 {
      CollectResultsIn(Contests(policy, ms, cal), order, w);
      var sig :| sig in order && w in Contests(policy, ms, cal)(sig).results;
      ContestsResultsIn(policy, ms, cal, sig, w);
    }
  }

  /** In one group, the answers with the signature of `m` are those of its class. */
  lemma GroupClassResults(policy: Policy, ms: seq<Match>, order: seq<Text>, cal: Calendar, m: Match)
    requires SameNodes(policy) && IsOrder(ms, SignatureKey(cal), order) && m in ms
    ensures var key := SignatureKey(cal);
            Bags.Filter((x: Match) => key(x) == key(m), GroupOutcome(policy, ms, order, cal).results)
            == ContestOutcome(policy, Group(ms, key, key(m))).results
  {
    hide ContestOutcome, SignatureKey, Collect;
    var key := SignatureKey(cal);
    var p := (x: Match) => key(x) == key(m);
    if |ms| <= 1 {
      assert ms == [m];
      assert Bags.Filter(p, ms) == ms;
      ContestOfOne(policy, ms);
    } else {
      assert key(m) in order;
      forall x, r | x in order && x != key(m) && r in Contests(policy, ms, cal)(x).results ensures !p(r) {
        ContestsResultsIn(policy, ms, cal, x, r);
      }
      FilterCollect(p, Contests(policy, ms, cal), order, key(m));
      forall r | r in Contests(policy, ms, cal)(key(m)).results ensures p(r) {
        ContestsResultsIn(policy, ms, cal, key(m), r);
      }
      FilterAll(p, Contests(policy, ms, cal)(key(m)).results);
    }
  }

  lemma ContestOfOne(policy: Policy, ms: seq<Match>)
    requires |ms| == 1
    ensures ContestOutcome(policy, ms) == Outcome(ms, false)
  {
  }

  lemma {:induction false} FilterBoth(p: Match -> bool, q: Match -> bool, both: Match -> bool, ms: seq<Match>)
    requires forall m :: both(m) <==> p(m) && q(m)
    ensures Bags.Filter(both, ms) == Bags.Filter(q, Bags.Filter(p, ms))
  {
    if ms != [] {
      FilterBoth(p, q, both, ms[1..]);
      Bags.FilterConcat(q, if p(ms[0]) then [ms[0]] else [], Bags.Filter(p, ms[1..]));
    }
  }

  lemma RivalIs(x: Match, m: Match, key: Match -> Text, cal: Calendar)
    ensures RivalOf(m, key, cal)(x) <==> key(x) == key(m) && SignatureKey(cal)(x) == SignatureKey(cal)(m)
  {
    hide PredicateText;
  }

  /** The matches that compete with `m` are its class. */
  lemma ClassIsRivals(ms: seq<Match>, key: Match -> Text, cal: Calendar, m: Match)
    ensures ClassOf(ms, key, cal, m) == Bags.Filter(RivalOf(m, key, cal), ms)
  {
    var k := SignatureKey(cal);
    forall x ensures RivalOf(m, key, cal)(x) <==> key(x) == key(m) && k(x) == k(m) {
      RivalIs(x, m, key, cal);
    }
    hide SignatureKey, RivalOf;
    FilterBoth((x: Match) => key(x) == key(m), (x: Match) => k(x) == k(m), RivalOf(m, key, cal), ms);
  }

  /** Among the answers of an arbitration, those that compete with a match are what its class is answered with. */
  lemma ClassAnswers(
      policy: Policy, ms: seq<Match>, key: Match -> Text, order: seq<Text>, orders: Orders, cal: Calendar, m: Match)
    requires SameNodes(policy) && AreOrders(ms, key, order, orders, cal) && m in ms
    ensures Bags.Filter(RivalOf(m, key, cal), Arbitrate(policy, ms, key, order, orders, cal).results)
         == ContestOutcome(policy, Bags.Filter(RivalOf(m, key, cal), ms)).results
  {
    hide ContestOutcome, SignatureKey, Collect, GroupOutcome, RivalOf, OrderOf;
    var k, sig := key(m), SignatureKey(cal);
    var f := Groups(policy, ms, key, orders, cal);
    var p := (x: Match) => key(x) == k;
    var q := (x: Match) => sig(x) == sig(m);
    assert k in order;
    forall x ensures RivalOf(m, key, cal)(x) <==> p(x) && q(x) {
      RivalIs(x, m, key, cal);
    }
    forall x, r | x in order && r in f(x).results ensures key(r) == x {
      GroupResultsIn(policy, Group(ms, key, x), OrderOf(orders, x), cal, r);
      GroupFacts(ms, key, x);
    }
    FilterCollect(p, f, order, k);
    FilterAll(p, f(k).results);
    FilterBoth(p, q, RivalOf(m, key, cal), Arbitrate(policy, ms, key, order, orders, cal).results);
    GroupFacts(ms, key, k);
    GroupClassResults(policy, Group(ms, key, k), OrderOf(orders, k), cal, m);
    ClassIsRivals(ms, key, cal, m);
  }

  /** Nothing else is answered. */
  lemma AnswersAreMatches(
      policy: Policy, ms: seq<Match>, key: Match -> Text, order: seq<Text>, orders: Orders, cal: Calendar)
    requires SameNodes(policy) && AreOrders(ms, key, order, orders, cal)
    ensures forall w <- Arbitrate(policy, ms, key, order, orders, cal).results :: w in ms
  {
    hide Collect, GroupOutcome, OrderOf;
    var f := Groups(policy, ms, key, orders, cal);
    forall w | w in Arbitrate(policy, ms, key, order, orders, cal).results ensures w in ms {
      CollectResultsIn(f, order, w);
      var k :| k in order && w in f(k).results;
      GroupResultsIn(policy, Group(ms, key, k), OrderOf(orders, k), cal, w);
      GroupFacts(ms, key, k);
    }
  }

  /** Arbitration under `LatestWins`, for every grouping key and all orders: of the matches that compete with a match,
      itself included, exactly one is answered, a match of highest authority and, among those, a most recent one. */
  lemma LatestWinsAnswers(
      ms: seq<Match>, key: Match -> Text, order: seq<Text>, orders: Orders, cal: Calendar, m: Match)
      returns (w: Match)
    requires AreOrders(ms, key, order, orders, cal) && m in ms
    ensures Bags.Filter(RivalOf(m, key, cal), Arbitrate(LatestWins, ms, key, order, orders, cal).results) == [w]
    ensures w in ms && Rival(w, m, key, cal) && forall x <- ms :: Rival(x, m, key, cal) ==> Leads(w.node, x.node)
  {
    var rivals := Bags.Filter(RivalOf(m, key, cal), ms);
    ClassAnswers(LatestWins, ms, key, order, orders, cal, m);
    hide PredicateText, LatestOutcome, Arbitrate, AreOrders, Leads;
    Bags.FilterIn(RivalOf(m, key, cal), ms);
    assert m in rivals;
    LatestAnswersBest(rivals);
    w := LatestOutcome(rivals).results[0];
    assert LatestOutcome(rivals).results == [w];
  }

  /** Arbitration under `HighestAuthority`: a class of several is answered by its first match within 0.001 of its
      highest authority, if that is positive, or of zero. */
  lemma HighestAuthorityAnswers(
      ms: seq<Match>, key: Match -> Text, order: seq<Text>, orders: Orders, cal: Calendar, m: Match, top: real)
    requires AreOrders(ms, key, order, orders, cal) && m in ms
    requires |Bags.Filter(RivalOf(m, key, cal), ms)| > 1 && IsTop(Bags.Filter(RivalOf(m, key, cal), ms), top)
    ensures var best := Bags.Filter((x: Match) => AtTop(x, top), Bags.Filter(RivalOf(m, key, cal), ms));
            Bags.Filter(RivalOf(m, key, cal), Arbitrate(HighestAuthority, ms, key, order, orders, cal).results)
            == if best == [] then [] else [best[0]]
  {
    ClassAnswers(HighestAuthority, ms, key, order, orders, cal, m);
    hide Arbitrate, AreOrders, IsTop, AtTop, RivalOf, AuthorityOutcome;
    AuthorityAnswersTop(Bags.Filter(RivalOf(m, key, cal), ms), top);
  }

  // ----- Unanimous, Custom -----

  /** A group of several under `Unanimous`: answered by one of them if they agree on the predicate, refused
      otherwise. */
  lemma UnanimousAnswers(ms: seq<Match>)
    requires |ms| > 1
    ensures if forall i, j :: 0 <= i < j < |ms| ==> ms[i].node.pred == ms[j].node.pred
            then UnanimousOutcome(ms) == Outcome([ms[0]], false)
            else UnanimousOutcome(ms) == Outcome([], true)
  {
    if forall i, j :: 0 <= i < j < |ms| ==> ms[i].node.pred == ms[j].node.pred {
      forall m | m in ms ensures PredOf(m) == PredOf(ms[0]) {
        var j :| 0 <= j < |ms| && ms[j] == m;
        assert j > 0 ==> ms[0].node.pred == ms[j].node.pred;
      }
    } else {
      var i, j :| 0 <= i < j < |ms| && ms[i].node.pred != ms[j].node.pred;
      assert ms[i] in ms && ms[j] in ms;
    }
  }

  // ----- WeightedVote -----

  /** What a match weighs: as its principal does, or a half. Documents and derivations are principals of their own. */
  function Worth(m: Match, weights: map<Text, real>): real {
    match m.node.provenance
    case Asserted(who) => if who in weights then weights[who] else 0.5
    case Extracted(_, _, model, _) => if model in weights then weights[model] else 0.5
    case Derived(_, _) => if "derived" in weights then weights["derived"] else 0.5
    case _ => if "document" in weights then weights["document"] else 0.5
  }

  lemma WorthIs(m: Match, weights: map<Text, real>)
    ensures Weight(m, weights) == Worth(m, weights)
  {
  }

  function All(weights: map<Text, real>): Match -> real {
    (m: Match) => Worth(m, weights)
  }

  /** What counts for the predicate text of `x`. */
  function For(x: Match, weights: map<Text, real>, cal: Calendar): Match -> real {
    (m: Match) => if PredicateText(m.node.pred, cal) == PredicateText(x.node.pred, cal) then Worth(m, weights) else 0.0
  }

  lemma {:induction false} SumSame(f: Match -> real, g: Match -> real, ms: seq<Match>)
    requires forall m :: f(m) == g(m)
    ensures Sum(f, ms) == Sum(g, ms)
  {
    if ms != [] {
      SumSame(f, g, ms[1..]);
    }
  }

  lemma SumsAre(ms: seq<Match>, x: Match, weights: map<Text, real>, cal: Calendar)
    ensures Total(ms, weights) == Sum(All(weights), ms)
    ensures ClassWeight(ms, weights, cal, Signature(x, cal)) == Sum(For(x, weights, cal), ms)
  {
    hide PredicateText, Sum;
    TotalIsSum(ms, weights);
    ClassIsSum(ms, weights, cal, Signature(x, cal));
    forall m ensures WeightIn(weights)(m) == All(weights)(m) {
      WorthIs(m, weights);
    }
    forall m ensures WeightOf(weights, cal, Signature(x, cal))(m) == For(x, weights, cal)(m) {
      WorthIs(m, weights);
    }
    hide Worth, Weight;
    SumSame(WeightIn(weights), All(weights), ms);
    SumSame(WeightOf(weights, cal, Signature(x, cal)), For(x, weights, cal), ms);
  }

  /** More than half of all weight is for the predicate of `x`, and no predicate has more. */
  ghost predicate Carried(ms: seq<Match>, x: Match, weights: map<Text, real>, cal: Calendar) {
    && 2.0 * Sum(For(x, weights, cal), ms) > Sum(All(weights), ms)
    && forall z <- ms :: Sum(For(z, weights, cal), ms) <= Sum(For(x, weights, cal), ms)
  }

  lemma TopsIsCarried(ms: seq<Match>, x: Match, weights: map<Text, real>, cal: Calendar)
    ensures Tops(ms, weights, cal, x) <==> Carried(ms, x, weights, cal)
  {
    hide Sum, For, All, Signature, ClassWeight, Total;
    SumsAre(ms, x, weights, cal);
    forall z ensures ClassWeight(ms, weights, cal, Signature(z, cal)) == Sum(For(z, weights, cal), ms) {
      SumsAre(ms, z, weights, cal);
    }
  }

  /** A weighted vote among several is answered by a match whose predicate more than half of all weight is for, and
      refused if and only if there is none. */
  lemma VoteAnswersMajority(ms: seq<Match>, weights: map<Text, real>, order: seq<Text>, cal: Calendar)
      returns (o: Option<Match>)
    requires |ms| > 1 && IsOrder(ms, SignatureKey(cal), order)
    ensures VoteOutcome(ms, weights, order, cal) == if o.Some? then Outcome([o.value], false) else Outcome([], true)
    ensures o.Some? ==> o.value in ms && Carried(ms, o.value, weights, cal)
    ensures o.None? <==> forall x <- ms :: 2.0 * Sum(For(x, weights, cal), ms) <= Sum(All(weights), ms)
  {
    hide VoteOutcome, Tops, SignatureKey, Sum, For, All, IsOrder;
    PermutesSelf(ms);
    o := VoteAnswers(ms, ms, weights, order, cal);
    forall x ensures Tops(ms, weights, cal, x) <==> Carried(ms, x, weights, cal) {
      TopsIsCarried(ms, x, weights, cal);
    }
    if o.None? {
      NoMajority(ms, weights, cal);
    }
  }

  /** If some predicate has a majority, a heaviest one has. */
  lemma NoMajority(ms: seq<Match>, weights: map<Text, real>, cal: Calendar)
    requires forall x <- ms :: !Carried(ms, x, weights, cal)
    ensures forall x <- ms :: 2.0 * Sum(For(x, weights, cal), ms) <= Sum(All(weights), ms)
  {
    hide Sum, For, All;
    if ms != [] {
      var best := HeaviestFor(ms, ms, weights, cal);
    }
  }

  lemma {:induction false} HeaviestFor(some: seq<Match>, ms: seq<Match>, weights: map<Text, real>, cal: Calendar)
      returns (best: Match)
    requires some != []
    ensures best in some && forall z <- some :: Sum(For(z, weights, cal), ms) <= Sum(For(best, weights, cal), ms)
  {
    hide Sum, For;
    best := some[0];
    if |some| > 1 {
      var other := HeaviestFor(some[1..], ms, weights, cal);
      assert some == [some[0]] + some[1..];
      if Sum(For(other, weights, cal), ms) > Sum(For(best, weights, cal), ms) {
        best := other;
      }
    }
  }

  // ----- groups -----

  /** The policies that let a whole group decide: each group of several gives its own outcome, a single match is
      answered as it is, and `Custom` always refuses. */
  lemma GroupsDecide(policy: Policy, ms: seq<Match>, order: seq<Text>, cal: Calendar)
    ensures |ms| == 1 ==> GroupOutcome(policy, ms, order, cal) == Outcome(ms, false)
    ensures |ms| > 1 && policy.Unanimous? ==> GroupOutcome(policy, ms, order, cal) == UnanimousOutcome(ms)
    ensures |ms| > 1 && policy.WeightedVote? ==>
              GroupOutcome(policy, ms, order, cal) == VoteOutcome(ms, policy.weights, order, cal)
    ensures |ms| > 1 && policy.Custom? ==> GroupOutcome(policy, ms, order, cal) == Outcome([], true)
  {
    hide UnanimousOutcome, VoteOutcome, Collect, Contests;
  }

  /** Every policy answers what its groups answer and refuses if one of them does. */
  lemma ArbitrationIsItsGroups(
      policy: Policy, ms: seq<Match>, key: Match -> Text, order: seq<Text>, orders: Orders, cal: Calendar, k: Text)
    requires AreOrders(ms, key, order, orders, cal) && k in order
    ensures multiset(Arbitrate(policy, ms, key, order, orders, cal).results)
            >= multiset(
                 GroupOutcome(policy, Bags.Filter((m: Match) => key(m) == k, ms), OrderOf(orders, k), cal).results)
    ensures Arbitrate(policy, ms, key, order, orders, cal).ambiguous
       <==> exists x :: x in order
              && GroupOutcome(policy, Bags.Filter((m: Match) => key(m) == x, ms), OrderOf(orders, x), cal).ambiguous
  {
    hide GroupOutcome, OrderOf, Collect;
    CollectRefusesIff(Groups(policy, ms, key, orders, cal), order);
    var i :| 0 <= i < |order| && order[i] == k;
    CollectWithout(Groups(policy, ms, key, orders, cal), order, i);
  }
}
