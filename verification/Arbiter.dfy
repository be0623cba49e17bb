/** The loops of `factum-rt/src/arbitration.rs`, proved to compute what `Arbitration` defines. Every choice of a next
    key stands for the iteration order of a hash map; the methods return the orders they happened to take. */
module Arbiter {
  import opened Types
  import opened Serialize
  import opened Query
  import opened Arbitration
  import Bags

  lemma GroupSnoc(ms: seq<Match>, i: nat, key: Match -> Text, k: Text)
    requires i < |ms|
    ensures Group(ms[..i + 1], key, k) == Group(ms[..i], key, k) + if key(ms[i]) == k then [ms[i]] else []
  {
    var p := (m: Match) => key(m) == k;
    assert ms[..i + 1] == ms[..i] + [ms[i]];
    Bags.FilterConcat(p, ms[..i], [ms[i]]);
    assert [ms[i]][1..] == [];
    assert Bags.Filter(p, [ms[i]]) == (if p(ms[i]) then [ms[i]] else []) + Bags.Filter(p, []);
  }

  /** `groups` are the groups of the matches: keys in use, each with its matches in order of arrival. */
  ghost predicate AreGroups(ms: seq<Match>, key: Match -> Text, groups: map<Text, seq<Match>>) {
    forall k :: (k in groups <==> Group(ms, key, k) != []) && (k in groups ==> groups[k] == Group(ms, key, k))
  }

  method GroupBy(ms: seq<Match>, key: Match -> Text) returns (groups: map<Text, seq<Match>>)
    ensures AreGroups(ms, key, groups)
  {
    hide Group;
    groups := map[];
    forall k ensures Group([], key, k) == [] {
      NoGroup(key, k);
    }
    for i := 0 to |ms|
      invariant AreGroups(ms[..i], key, groups)
    {
      forall k ensures Group(ms[..i + 1], key, k) == Group(ms[..i], key, k) + if key(ms[i]) == k then [ms[i]] else [] {
        GroupSnoc(ms, i, key, k);
      }
      var k := key(ms[i]);
      groups := groups[k := (if k in groups then groups[k] else []) + [ms[i]]];
    }
    assert ms[..|ms|] == ms;
  }

  lemma NoGroup(key: Match -> Text, k: Text)
    ensures Group([], key, k) == []
  {
  }

  lemma GroupMembers(ms: seq<Match>, key: Match -> Text, k: Text)
    ensures Group(ms, key, k) != [] <==> exists m :: m in ms && key(m) == k
  {
    hide Group;
    GroupFacts(ms, key, k);
    var group := Group(ms, key, k);
    assert group != [] ==> group[0] in group;
  }

  /** An order that yields every key of the groups once is an order of the keys of the matches. */
  lemma GroupsOrder(ms: seq<Match>, key: Match -> Text, groups: map<Text, seq<Match>>, order: seq<Text>)
    requires AreGroups(ms, key, groups) && Bags.Distinct(order) && forall k :: k in order <==> k in groups
    ensures IsOrder(ms, key, order)
  {
    hide Group, Bags.Distinct;
    forall k ensures k in order <==> exists m :: m in ms && key(m) == k {
      GroupMembers(ms, key, k);
    }
  }

  lemma {:induction false} CollectSnoc(f: Text -> Outcome, order: seq<Text>, k: Text)
    ensures Collect(f, order + [k]) == Join(Collect(f, order), f(k))
  {
    if order == [] {
      CollectOne(f, k);
    } else {
      hide Collect;
      CollectSnoc(f, order[1..], k);
      assert (order + [k])[1..] == order[1..] + [k];
      CollectCons(f, order);
      CollectCons(f, order + [k]);
      JoinAssociates(f(order[0]), Collect(f, order[1..]), f(k));
    }
  }

  lemma CollectOne(f: Text -> Outcome, k: Text)
    ensures Collect(f, [] + [k]) == Join(Collect(f, []), f(k))
  {
    assert [] + [k] == [k] && [k][1..] == [];
    assert f(k).results + [] == f(k).results && [] + f(k).results == f(k).results;
  }

  lemma JoinAssociates(a: Outcome, b: Outcome, c: Outcome)
    ensures Join(a, Join(b, c)) == Join(Join(a, b), c)
  {
  }

  // ----- one class -----

  lemma LatestSnoc(ms: seq<Match>, i: nat)
    requires 0 < i < |ms|
    ensures Latest(ms[..i + 1]) == if LatestCmp(Latest(ms[..i]), ms[i]) > 0 then Latest(ms[..i]) else ms[i]
  {
    hide LatestCmp;
    assert ms[..i + 1][..i] == ms[..i];
  }

  /** `LatestWins` within a class: `max_by`, then the filter that counts ties. */
  method LatestWinner(ms: seq<Match>) returns (o: Outcome)
    ensures o == LatestOutcome(ms)
  {
    hide Latest, LatestCmp, Tied, Ties;
    if |ms| <= 1 {
      return Outcome(ms, false);
    }
    var winner := ms[0];
    LatestOne(ms);
    for i := 1 to |ms|
      invariant winner == Latest(ms[..i])
    {
      LatestSnoc(ms, i);
      winner := if LatestCmp(winner, ms[i]) > 0 then winner else ms[i];
    }
    assert ms[..|ms|] == ms;
    var tied := 0;
    NoneTied(winner);
    for i := 0 to |ms|
      invariant tied == |Tied(ms[..i], winner)|
    {
      TiedSnoc(ms, i, winner);
      if Ties(ms[i], winner) {
        tied := tied + 1;
      }
    }
    assert ms[..|ms|] == ms;
    o := Outcome([winner], tied > 1);
  }

  lemma LatestOne(ms: seq<Match>)
    requires ms != []
    ensures Latest(ms[..1]) == ms[0]
  {
  }

  lemma NoneTied(w: Match)
    ensures Tied([], w) == []
  {
  }

  lemma TiedSnoc(ms: seq<Match>, i: nat, w: Match)
    requires i < |ms|
    ensures |Tied(ms[..i + 1], w)| == |Tied(ms[..i], w)| + if Ties(ms[i], w) then 1 else 0
  {
    hide Ties;
    var p := (m: Match) => Ties(m, w);
    assert ms[..i + 1] == ms[..i] + [ms[i]];
    Bags.FilterConcat(p, ms[..i], [ms[i]]);
    assert [ms[i]][1..] == [];
    assert Bags.Filter(p, [ms[i]]) == (if p(ms[i]) then [ms[i]] else []) + Bags.Filter(p, []);
  }

  lemma MaxAuthSnoc(ms: seq<Match>, i: nat)
    requires i < |ms|
    ensures MaxAuth(ms[..i + 1]) == if Auth(ms[i]) > MaxAuth(ms[..i]) then Auth(ms[i]) else MaxAuth(ms[..i])
  {
    hide Auth;
    assert ms[..i + 1][..i] == ms[..i];
  }

  lemma NearestSnoc(ms: seq<Match>, i: nat, max: real)
    requires i < |ms|
    ensures Nearest(ms[..i + 1], max) == Nearest(ms[..i], max) + if Near(Auth(ms[i]), max) then [ms[i]] else []
  {
    hide Auth, Near;
    var p := (m: Match) => Near(Auth(m), max);
    assert ms[..i + 1] == ms[..i] + [ms[i]];
    Bags.FilterConcat(p, ms[..i], [ms[i]]);
    assert [ms[i]][1..] == [];
    assert Bags.Filter(p, [ms[i]]) == (if p(ms[i]) then [ms[i]] else []) + Bags.Filter(p, []);
  }

  lemma NothingNear(max: real)
    ensures Nearest([], max) == [] && MaxAuth([]) == 0.0
  {
  }

  /** `HighestAuthority` within a class. */
  method AuthorityWinner(ms: seq<Match>) returns (o: Outcome)
    ensures o == AuthorityOutcome(ms)
  {
    hide Auth, Near, MaxAuth, Nearest;
    if |ms| <= 1 {
      return Outcome(ms, false);
    }
    var max := 0.0;
    NothingNear(max);
    for i := 0 to |ms|
      invariant max == MaxAuth(ms[..i])
    {
      MaxAuthSnoc(ms, i);
      max := if Auth(ms[i]) > max then Auth(ms[i]) else max;
    }
    assert ms[..|ms|] == ms;
    var winners: seq<Match> := [];
    NothingNear(max);
    for i := 0 to |ms|
      invariant winners == Nearest(ms[..i], max)
    {
      NearestSnoc(ms, i, max);
      if Near(Auth(ms[i]), max) {
        winners := winners + [ms[i]];
      }
    }
    assert ms[..|ms|] == ms;
    o := Outcome(if winners == [] then [] else [winners[0]], |winners| != 1);
  }

  /** The classes of a group, in the order of the hash map. */
  method RunContests(policy: Policy, ms: seq<Match>, cal: Calendar) returns (o: Outcome, ghost order: seq<Text>)
    ensures IsOrder(ms, SignatureKey(cal), order) && o == Collect(Contests(policy, ms, cal), order)
  {
    hide Collect, Group, LatestOutcome, AuthorityOutcome, SignatureKey, Bags.Distinct, IsOrder;
    var classes := GroupBy(ms, SignatureKey(cal));
    var todo := classes.Keys;
    o := Outcome([], false);
    order := [];
    Nothing(Contests(policy, ms, cal));
    while todo != {}
      invariant todo <= classes.Keys && Bags.Distinct(order)
      invariant forall k :: k in order <==> k in classes && k !in todo
      invariant o == Collect(Contests(policy, ms, cal), order)
      decreases todo
    {
      var k :| k in todo;
      var one;
      if policy.HighestAuthority? {
        one := AuthorityWinner(classes[k]);
      } else {
        one := LatestWinner(classes[k]);
      }
      CollectSnoc(Contests(policy, ms, cal), order, k);
      o := Join(o, one);
      DistinctSnoc(order, k);
      order := order + [k];
      todo := todo - {k};
    }
    GroupsOrder(ms, SignatureKey(cal), classes, order);
  }

  lemma Nothing(f: Text -> Outcome)
    ensures Collect(f, []) == Outcome([], false) && Bags.Distinct<Text>([])
  {
  }

  // ----- the vote -----

  lemma {:induction false} WeightsSnoc(ms: seq<Match>, m: Match, weights: map<Text, real>, cal: Calendar, sig: Text)
    ensures Total(ms + [m], weights) == Total(ms, weights) + Weight(m, weights)
    ensures ClassWeight(ms + [m], weights, cal, sig)
         == ClassWeight(ms, weights, cal, sig) + if Signature(m, cal) == sig then Weight(m, weights) else 0.0
  {
    hide Weight, Signature;
    if ms == [] {
      assert [] + [m] == [m] && [m][1..] == [];
    } else {
      WeightsSnoc(ms[1..], m, weights, cal, sig);
      assert (ms + [m])[1..] == ms[1..] + [m];
    }
  }

  lemma ClassSnoc(ms: seq<Match>, m: Match, cal: Calendar, sig: Text)
    ensures Class(ms + [m], cal, sig) == Class(ms, cal, sig) + if Signature(m, cal) == sig then [m] else []
  {
    hide Signature;
    var p := (m: Match) => Signature(m, cal) == sig;
    Bags.FilterConcat(p, ms, [m]);
    assert [m][1..] == [];
    assert Bags.Filter(p, [m]) == (if p(m) then [m] else []) + Bags.Filter(p, []);
  }

  type Tally = map<Text, (real, Match)>

  /** For each signature in use its total weight and its first match. */
  ghost predicate Tallies(ms: seq<Match>, weights: map<Text, real>, cal: Calendar, tally: Tally) {
    forall sig :: (sig in tally <==> Class(ms, cal, sig) != []) && (sig in tally ==>
      tally[sig].0 == ClassWeight(ms, weights, cal, sig) && tally[sig].1 == Class(ms, cal, sig)[0])
  }

  lemma ClassEmpty(ms: seq<Match>, weights: map<Text, real>, cal: Calendar, sig: Text)
    ensures Class(ms, cal, sig) == [] ==> ClassWeight(ms, weights, cal, sig) == 0.0
  {
    hide Weight, Signature;
    if ms != [] {
      ClassEmpty(ms[1..], weights, cal, sig);
    }
  }

  function Recorded(tally: Tally, sig: Text, w: real, m: Match): Tally {
    tally[sig := if sig in tally then (tally[sig].0 + w, tally[sig].1) else (w, m)]
  }

  lemma TallySnoc(ms: seq<Match>, m: Match, weights: map<Text, real>, cal: Calendar, tally: Tally)
    requires Tallies(ms, weights, cal, tally)
    ensures Tallies(ms + [m], weights, cal, Recorded(tally, Signature(m, cal), Weight(m, weights), m))
  {
    hide Weight, Signature, Class, ClassWeight;
    var after := Recorded(tally, Signature(m, cal), Weight(m, weights), m);
    forall sig ensures (sig in after <==> Class(ms + [m], cal, sig) != []) && (sig in after ==>
      after[sig].0 == ClassWeight(ms + [m], weights, cal, sig) && after[sig].1 == Class(ms + [m], cal, sig)[0])
    {
      WeightsSnoc(ms, m, weights, cal, sig);
      ClassSnoc(ms, m, cal, sig);
      ClassEmpty(ms, weights, cal, sig);
    }
  }

  lemma NoTally(weights: map<Text, real>, cal: Calendar)
    ensures Tallies([], weights, cal, map[]) && Total([], weights) == 0.0
  {
  }

  method Count(ms: seq<Match>, weights: map<Text, real>, cal: Calendar) returns (tally: Tally, total: real)
    ensures Tallies(ms, weights, cal, tally) && total == Total(ms, weights)
  {
    hide Tallies, Total, Signature, Weight, ClassWeight;
    tally, total := map[], 0.0;
    NoTally(weights, cal);
    for i := 0 to |ms|
      invariant Tallies(ms[..i], weights, cal, tally) && total == Total(ms[..i], weights)
    {
      assert ms[..i + 1] == ms[..i] + [ms[i]];
      TallySnoc(ms[..i], ms[i], weights, cal, tally);
      WeightsSnoc(ms[..i], ms[i], weights, cal, []);
      var w := Weight(ms[i], weights);
      total := total + w;
      tally := Recorded(tally, Signature(ms[i], cal), w, ms[i]);
    }
    assert ms[..|ms|] == ms;
  }

  lemma HeaviestSnoc(order: seq<Text>, k: Text, ms: seq<Match>, weights: map<Text, real>, cal: Calendar)
    ensures Heaviest(order + [k], ms, weights, cal)
         == if && order != []
               && ClassWeight(ms, weights, cal, Heaviest(order, ms, weights, cal)) > ClassWeight(ms, weights, cal, k)
            then Heaviest(order, ms, weights, cal) else k
  {
    hide ClassWeight;
    assert (order + [k])[..|order|] == order;
  }

  lemma TallyOrder(ms: seq<Match>, weights: map<Text, real>, cal: Calendar, tally: Tally, order: seq<Text>)
    requires Tallies(ms, weights, cal, tally) && Bags.Distinct(order) && forall k :: k in order <==> k in tally
    ensures IsOrder(ms, SignatureKey(cal), order)
  {
    hide Class, ClassWeight, Signature, Bags.Distinct;
    forall k ensures k in order <==> exists m :: m in ms && SignatureKey(cal)(m) == k {
      ClassMembers(ms, cal, k);
    }
  }

  lemma ClassMembers(ms: seq<Match>, cal: Calendar, k: Text)
    ensures Class(ms, cal, k) != [] <==> exists m :: m in ms && SignatureKey(cal)(m) == k
  {
    hide Signature, Class;
    ClassFacts(ms, cal, k);
    var members := Class(ms, cal, k);
    assert members != [] ==> members[0] in members;
    assert forall m :: SignatureKey(cal)(m) == Signature(m, cal);
  }

  /** The heaviest class, in the order of the hash map. */
  method Elect(ghost ms: seq<Match>, ghost weights: map<Text, real>, ghost cal: Calendar, tally: Tally)
      returns (best: Text, ghost order: seq<Text>)
    requires Tallies(ms, weights, cal, tally) && tally != map[]
    ensures IsOrder(ms, SignatureKey(cal), order) && order != [] && best in tally
    ensures best == Heaviest(order, ms, weights, cal)
  {
    hide Heaviest, ClassWeight, Class, Bags.Distinct, IsOrder;
    var todo := tally.Keys;
    order := [];
    best := [];
    Nothing((_) => Outcome([], false));
    while todo != {}
      invariant todo <= tally.Keys && Bags.Distinct(order)
      invariant forall k :: k in order <==> k in tally && k !in todo
      invariant order != [] ==> best in tally && best == Heaviest(order, ms, weights, cal)
      invariant order == [] ==> todo == tally.Keys
      decreases todo
    {
      var k :| k in todo;
      HeaviestSnoc(order, k, ms, weights, cal);
      if todo == tally.Keys || !(tally[best].0 > tally[k].0) {
        best := k;
      }
      DistinctSnoc(order, k);
      order := order + [k];
      todo := todo - {k};
    }
    TallyOrder(ms, weights, cal, tally, order);
  }

  /** One group under one policy. */
  method Decide(policy: Policy, ms: seq<Match>, cal: Calendar) returns (o: Outcome, ghost order: seq<Text>)
    requires ms != []
    ensures IsOrder(ms, SignatureKey(cal), order) && o == GroupOutcome(policy, ms, order, cal)
  {
    hide Signature, LatestOutcome, AuthorityOutcome, Collect, Contests, IsOrder, Tallies, Heaviest, Class,
      ClassWeight, Total,
         SignatureKey;
    if |ms| == 1 {
      order := SomeOrder(ms, cal);
      return Outcome(ms, false), order;
    }
    match policy {
      case WeightedVote(weights) =>
        var tally, total := Count(ms, weights, cal);
        TallyNotEmpty(ms, weights, cal, tally);
        var best;
        best, order := Elect(ms, weights, cal, tally);
        TallyAt(ms, weights, cal, tally, best);
        o := if tally[best].0 > total * 0.5 then Outcome([tally[best].1], false) else Outcome([], true);
      case Unanimous =>
        order := SomeOrder(ms, cal);
        o := CheckUnanimous(ms);
      case Custom =>
        order := SomeOrder(ms, cal);
        o := Outcome([], true);
      case _ => o, order := RunContests(policy, ms, cal);
    }
  }

  lemma TallyNotEmpty(ms: seq<Match>, weights: map<Text, real>, cal: Calendar, tally: Tally)
    requires Tallies(ms, weights, cal, tally) && ms != []
    ensures tally != map[]
  {
    hide Signature, Class, ClassWeight;
    ClassFacts(ms, cal, Signature(ms[0], cal));
    assert ms[0] in Class(ms, cal, Signature(ms[0], cal));
    assert Signature(ms[0], cal) in tally;
  }

  lemma TallyAt(ms: seq<Match>, weights: map<Text, real>, cal: Calendar, tally: Tally, sig: Text)
    requires Tallies(ms, weights, cal, tally) && sig in tally
    ensures Class(ms, cal, sig) != [] && tally[sig] == (ClassWeight(ms, weights, cal, sig), Class(ms, cal, sig)[0])
  {
  }

  method CheckUnanimous(ms: seq<Match>) returns (o: Outcome)
    requires |ms| > 1
    ensures o == UnanimousOutcome(ms)
  {
    for i := 0 to |ms|
      invariant forall j :: 0 <= j < i ==> PredOf(ms[j]) == PredOf(ms[0])
    {
      if PredOf(ms[i]) != PredOf(ms[0]) {
        assert ms[i] in ms;
        return Outcome([], true);
      }
    }
    o := Outcome([ms[0]], false);
  }

  /** `arbitrate`: groups, then decides each group in the order of the hash map. */
  method ArbitrateMatches(policy: Policy, ms: seq<Match>, key: Match -> Text, cal: Calendar)
      returns (o: Outcome, ghost order: seq<Text>, ghost orders: Orders)
    ensures AreOrders(ms, key, order, orders, cal) && o == Arbitrate(policy, ms, key, order, orders, cal)
  {
    hide Collect, Group, GroupOutcome, SignatureKey, Bags.Distinct, IsOrder;
    var groups := GroupBy(ms, key);
    var todo := groups.Keys;
    o := Outcome([], false);
    order, orders := [], map[];
    Nothing(Groups(policy, ms, key, orders, cal));
    while todo != {}
      invariant todo <= groups.Keys && Bags.Distinct(order)
      invariant forall k :: k in order <==> k in groups && k !in todo
      invariant forall k <- order :: k in orders && IsOrder(Group(ms, key, k), SignatureKey(cal), orders[k])
      invariant o == Arbitrate(policy, ms, key, order, orders, cal)
      decreases todo
    {
      var k :| k in todo;
      var one;
      ghost var sub;
      one, sub := Decide(policy, groups[k], cal);
      ArbitrateSnoc(policy, ms, key, order, orders, cal, k, sub);
      o := Join(o, one);
      DistinctSnoc(order, k);
      order := order + [k];
      orders := orders[k := sub];
      todo := todo - {k};
    }
    GroupsOrder(ms, key, groups, order);
  }

  lemma {:induction false} CollectAgree(f: Text -> Outcome, g: Text -> Outcome, order: seq<Text>)
    requires forall k <- order :: f(k) == g(k)
    ensures Collect(f, order) == Collect(g, order)
  {
    if order != [] {
      CollectAgree(f, g, order[1..]);
    }
  }

  lemma ArbitrateSnoc(
      policy: Policy, ms: seq<Match>, key: Match -> Text, order: seq<Text>, orders: Orders, cal: Calendar, k: Text,
      sub: seq<Text>)
    requires k !in order
    ensures Arbitrate(policy, ms, key, order + [k], orders[k := sub], cal)
         == Join(Arbitrate(policy, ms, key, order, orders, cal), GroupOutcome(policy, Group(ms, key, k), sub, cal))
  {
    hide Collect, Group, GroupOutcome, Join;
    var f, g := Groups(policy, ms, key, orders, cal), Groups(policy, ms, key, orders[k := sub], cal);
    CollectAgree(f, g, order);
    CollectSnoc(g, order, k);
  }
}
