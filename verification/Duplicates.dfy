/** Matches that a query lists more than once. The entity index lists a node as often as it names the entity, and
    arbitration takes each listing for a match of its own: when exactly that makes it refuse. */
module Duplicates {
  import opened Types
  import opened Serialize
  import opened Query
  import opened Store
  import opened Lookup
  import opened Arbitration
  import opened Refusal
  import Bags

  /** Every match is listed once. */
  ghost predicate Single(ds: seq<Match>) {
    forall m :: multiset(ds)[m] <= 1
  }

  ghost predicate SameMembers(ms: seq<Match>, ds: seq<Match>) {
    forall m :: m in ms <==> m in ds
  }

  /** More than one element: one of them twice, or another one. */
  lemma MoreThanOne(ms: seq<Match>, w: Match)
    requires w in ms
    ensures |ms| > 1 <==> multiset(ms)[w] >= 2 || exists x :: x in ms && x != w
  {
    var i :| 0 <= i < |ms| && ms[i] == w;
    var rest := Bags.Without(ms, i);
    Bags.WithoutBag(ms, i);
    Bags.WithoutLength(ms, i);
    hide Bags.Without;
    assert multiset(ms)[w] == 1 + multiset(rest)[w];
    if rest != [] {
      assert rest[0] in multiset(rest) && rest[0] in multiset(ms) && rest[0] in ms;
    }
    if multiset(rest)[w] > 0 {
      assert w in rest;
    }
    if x :| x in ms && x != w {
      assert x in multiset(ms) && x in multiset(rest);
      assert x in rest;
    }
  }

  // ----- LatestWins -----

  lemma TiedFacts(ms: seq<Match>, w: Match, m: Match)
    ensures multiset(Tied(ms, w))[m] == if Ties(m, w) then multiset(ms)[m] else 0
    ensures m in Tied(ms, w) <==> m in ms && Ties(m, w)
  {
    Bags.FilterCount((m: Match) => Ties(m, w), ms, m);
    Bags.FilterIn((m: Match) => Ties(m, w), ms);
    hide Ties;
  }

  lemma TiesSelf(m: Match)
    ensures Ties(m, m)
  {
    hide Auth;
  }

  /** A class is refused under `LatestWins` exactly when its winner is listed twice or another match ties with it. */
  lemma LatestRefusesIff(ms: seq<Match>)
    requires ms != []
    ensures LatestOutcome(ms).ambiguous
       <==> multiset(ms)[Latest(ms)] >= 2 || exists x :: x in ms && x != Latest(ms) && Ties(x, Latest(ms))
  {
    hide Latest, LatestCmp, Ties, Tied;
    var w := Latest(ms);
    LatestIsMax(ms);
    TiesSelf(w);
    TiedFacts(ms, w, w);
    MoreThanOne(Tied(ms, w), w);
    MoreThanOne(ms, w);
    forall x ensures x in Tied(ms, w) <==> x in ms && Ties(x, w) {
      TiedFacts(ms, w, x);
    }
  }

  // ----- HighestAuthority -----

  lemma NearestFacts(ms: seq<Match>, max: real, m: Match)
    ensures multiset(Nearest(ms, max))[m] == if Near(Auth(m), max) then multiset(ms)[m] else 0
    ensures m in Nearest(ms, max) <==> m in ms && Near(Auth(m), max)
  {
    Bags.FilterCount((m: Match) => Near(Auth(m), max), ms, m);
    Bags.FilterIn((m: Match) => Near(Auth(m), max), ms);
    hide Near, Auth;
  }

  /** The one match near the highest authority, listed once. */
  ghost predicate StandsAlone(ms: seq<Match>, w: Match) {
    && Near(Auth(w), MaxAuth(ms)) && multiset(ms)[w] == 1
    && forall x <- ms :: Near(Auth(x), MaxAuth(ms)) ==> x == w
  }

  /** A class of several matches is answered under `HighestAuthority` exactly when one match, listed once, stands alone
      near the highest authority. */
  lemma AuthorityAnswersIff(ms: seq<Match>)
    requires |ms| > 1
    ensures !AuthorityOutcome(ms).ambiguous <==> exists w :: StandsAlone(ms, w)
    ensures forall w :: StandsAlone(ms, w) ==> AuthorityOutcome(ms).results == [w]
  {
    hide Near, Auth, MaxAuth, Nearest;
    var winners := Nearest(ms, MaxAuth(ms));
    forall w | StandsAlone(ms, w) ensures winners == [w] {
      NearestFacts(ms, MaxAuth(ms), w);
      MoreThanOne(winners, w);
      forall x ensures x in winners <==> x in ms && Near(Auth(x), MaxAuth(ms)) {
        NearestFacts(ms, MaxAuth(ms), x);
      }
    }
    if |winners| == 1 {
      var w := winners[0];
      forall x ensures x in winners <==> x in ms && Near(Auth(x), MaxAuth(ms)) {
        NearestFacts(ms, MaxAuth(ms), x);
      }
      NearestFacts(ms, MaxAuth(ms), w);
      MoreThanOne(winners, w);
      assert StandsAlone(ms, w);
    }
  }

  // ----- what listing a match again does -----

  lemma Members(ms: seq<Match>, m: Match)
    ensures m in ms <==> multiset(ms)[m] > 0
  {
  }

  /** Listing matches again makes `LatestWins` refuse a class it would answer exactly when its winner is among them. */
  lemma LatestDuplicates(ms: seq<Match>, ds: seq<Match>)
    requires ms != [] && ds != [] && Single(ds) && SameMembers(ms, ds)
    ensures LatestOutcome(ds).results == [Latest(ds)]
    ensures LatestOutcome(ms).ambiguous <==> LatestOutcome(ds).ambiguous || multiset(ms)[Latest(ds)] >= 2
  {
    hide Latest, LatestCmp, Ties, LatestOutcome, RecencyCmp;
    var v, w := Latest(ms), Latest(ds);
    LatestIsMax(ms);
    LatestIsMax(ds);
    CmpBoth(v, w);
    LatestRefusesIff(ms);
    LatestRefusesIff(ds);
    forall x ensures Ties(x, v) == Ties(x, w) {
      TiesAlike(x, v, w);
    }
    TiesSelf(v);
    TiesSelf(w);
    LatestAnswers(ds);
  }

  lemma LatestAnswers(ds: seq<Match>)
    requires ds != []
    ensures LatestOutcome(ds).results == [Latest(ds)]
  {
    hide LatestCmp, Tied;
  }

  /** The same of `HighestAuthority`. */
  lemma AuthorityDuplicates(ms: seq<Match>, ds: seq<Match>)
    requires ms != [] && ds != [] && Single(ds) && SameMembers(ms, ds)
    ensures !AuthorityOutcome(ds).ambiguous ==> |AuthorityOutcome(ds).results| == 1
    ensures AuthorityOutcome(ms).ambiguous
       <==> AuthorityOutcome(ds).ambiguous || multiset(ms)[AuthorityOutcome(ds).results[0]] >= 2
  {
    hide Near, Auth, MaxAuth, Nearest;
    MaxAuthSame(ms, ds);
    if |ds| == 1 {
      var w := ds[0];
      MoreThanOne(ms, w);
      if |ms| > 1 {
        AuthorityAnswersIff(ms);
        forall v | StandsAlone(ms, v) ensures v == w {
          Members(ms, v);
        }
      }
    } else {
      AuthorityAnswersIff(ds);
      MoreThanOne(ds, ds[0]);
      MoreThanOne(ms, ds[0]);
      AuthorityAnswersIff(ms);
      if w :| StandsAlone(ds, w) {
        Members(ms, w);
        assert StandsAlone(ms, w) <==> multiset(ms)[w] == 1;
      }
      if w :| StandsAlone(ms, w) {
        Members(ds, w);
        assert StandsAlone(ds, w);
      }
    }
  }

  // ----- whole arbitrations -----

  /** The matches that compete with `m`: those of its key and its signature. */
  function ClassOf(ms: seq<Match>, key: Match -> Text, cal: Calendar, m: Match): seq<Match> {
    Group(Group(ms, key, key(m)), SignatureKey(cal), SignatureKey(cal)(m))
  }

  lemma ClassMembers(ms: seq<Match>, key: Match -> Text, cal: Calendar, m: Match, x: Match)
    ensures multiset(ClassOf(ms, key, cal, m))[x]
         == if key(x) == key(m) && SignatureKey(cal)(x) == SignatureKey(cal)(m) then multiset(ms)[x] else 0
  {
    var k, sig := SignatureKey(cal), SignatureKey(cal)(m);
    Bags.FilterCount((x: Match) => k(x) == sig, Group(ms, key, key(m)), x);
    Bags.FilterCount((x: Match) => key(x) == key(m), ms, x);
    hide SignatureKey;
  }

  lemma {:induction false} CollectRefusesIff(f: Text -> Outcome, order: seq<Text>)
    ensures Collect(f, order).ambiguous <==> exists k :: k in order && f(k).ambiguous
  {
    if order != [] {
      CollectRefusesIff(f, order[1..]);
      assert order == [order[0]] + order[1..];
    }
  }

  lemma {:induction false} FilterShorter(p: Match -> bool, ms: seq<Match>)
    ensures |Bags.Filter(p, ms)| <= |ms|
  {
    if ms != [] {
      FilterShorter(p, ms[1..]);
    }
  }

  lemma ContestRefuses(policy: Policy, ms: seq<Match>)
    ensures ContestOutcome(policy, ms).ambiguous ==> |ms| > 1
  {
    hide Latest, Tied, Nearest, MaxAuth;
  }

  /** One group is refused exactly when a class in it is. */
  lemma GroupRefusesIff(policy: Policy, ms: seq<Match>, order: seq<Text>, cal: Calendar)
    requires SameNodes(policy) && IsOrder(ms, SignatureKey(cal), order)
    ensures GroupOutcome(policy, ms, order, cal).ambiguous
       <==> exists m :: m in ms && ContestOutcome(policy, Group(ms, SignatureKey(cal), SignatureKey(cal)(m))).ambiguous
  {
    hide SignatureKey, ContestOutcome, Collect;
    var key := SignatureKey(cal);
    CollectRefusesIff(Contests(policy, ms, cal), order);
    forall m | m in ms ensures ContestOutcome(policy, Group(ms, key, key(m))).ambiguous ==> |ms| > 1 {
      FilterShorter((x: Match) => key(x) == key(m), ms);
      ContestRefuses(policy, Group(ms, key, key(m)));
    }
    if m :| m in ms && ContestOutcome(policy, Group(ms, key, key(m))).ambiguous {
      assert key(m) in order && Contests(policy, ms, cal)(key(m)).ambiguous;
    }
  }

  /** Arbitration refuses exactly when it refuses some class. */
  lemma ArbitrationRefusesIff(
      policy: Policy, ms: seq<Match>, key: Match -> Text, order: seq<Text>, orders: Orders, cal: Calendar)
    requires SameNodes(policy) && AreOrders(ms, key, order, orders, cal)
    ensures Arbitrate(policy, ms, key, order, orders, cal).ambiguous
       <==> exists m :: m in ms && ContestOutcome(policy, ClassOf(ms, key, cal, m)).ambiguous
  {
    hide SignatureKey, ContestOutcome, Collect, GroupOutcome, OrderOf;
    CollectRefusesIff(Groups(policy, ms, key, orders, cal), order);
    forall k | k in order
      ensures Groups(policy, ms, key, orders, cal)(k).ambiguous
         <==> exists m :: m in ms && key(m) == k && ContestOutcome(policy, ClassOf(ms, key, cal, m)).ambiguous
    {
      GroupRefusesIff(policy, Group(ms, key, k), OrderOf(orders, k), cal);
      GroupFacts(ms, key, k);
    }
    if m :| m in ms && ContestOutcome(policy, ClassOf(ms, key, cal, m)).ambiguous {
      assert key(m) in order && Groups(policy, ms, key, orders, cal)(key(m)).ambiguous;
    }
  }

  // ----- whole queries -----

  /** One class: its winner among the matches listed once, and how often that is listed. */
  lemma ContestDuplicates(policy: Policy, ms: seq<Match>, ds: seq<Match>)
    requires SameNodes(policy) && ms != [] && ds != [] && Single(ds) && SameMembers(ms, ds)
    ensures !ContestOutcome(policy, ds).ambiguous ==> |ContestOutcome(policy, ds).results| == 1
    ensures ContestOutcome(policy, ms).ambiguous
       <==> ContestOutcome(policy, ds).ambiguous || multiset(ms)[ContestOutcome(policy, ds).results[0]] >= 2
  {
    hide LatestOutcome, AuthorityOutcome, Single, SameMembers;
    LatestDuplicates(ms, ds);
    AuthorityDuplicates(ms, ds);
  }

  lemma ContestAnswersMember(policy: Policy, ds: seq<Match>)
    requires SameNodes(policy) && !ContestOutcome(policy, ds).ambiguous && |ContestOutcome(policy, ds).results| == 1
    ensures ContestOutcome(policy, ds).results[0] in ds
  {
    hide Latest, Tied, Nearest, MaxAuth;
    if |ds| > 1 {
      if policy.LatestWins? {
        LatestIsMax(ds);
      } else {
        var w := ContestOutcome(policy, ds).results[0];
        assert w in Nearest(ds, MaxAuth(ds));
        NearestFacts(ds, MaxAuth(ds), w);
      }
    }
  }

  /** The match answers for its class. */
  ghost predicate Wins(policy: Policy, ds: seq<Match>, key: Match -> Text, cal: Calendar, w: Match) {
    w in ds && ContestOutcome(policy, ClassOf(ds, key, cal, w)) == Outcome([w], false)
  }

  lemma ClassesAlike(ms: seq<Match>, ds: seq<Match>, key: Match -> Text, cal: Calendar, m: Match)
    requires Single(ds) && SameMembers(ms, ds) && m in ds
    ensures var c, d := ClassOf(ms, key, cal, m), ClassOf(ds, key, cal, m);
            c != [] && d != [] && Single(d) && SameMembers(c, d)
    ensures forall w :: w in ClassOf(ds, key, cal, m) ==>
              && w in ds && ClassOf(ds, key, cal, w) == ClassOf(ds, key, cal, m)
              && multiset(ClassOf(ms, key, cal, m))[w] == multiset(ms)[w]
  {
    hide SignatureKey, Group;
    var c, d := ClassOf(ms, key, cal, m), ClassOf(ds, key, cal, m);
    forall x ensures (x in c <==> x in d) && multiset(d)[x] <= 1
      ensures x in d ==> x in ds && ClassOf(ds, key, cal, x) == d && multiset(c)[x] == multiset(ms)[x]
    {
      ClassMembers(ms, key, cal, m, x);
      ClassMembers(ds, key, cal, m, x);
      Members(c, x);
      Members(d, x);
      Members(ms, x);
      Members(ds, x);
    }
    ClassMembers(ds, key, cal, m, m);
    Members(ds, m);
    Members(d, m);
  }

  lemma ClassDuplicates(policy: Policy, ms: seq<Match>, ds: seq<Match>, key: Match -> Text, cal: Calendar, m: Match)
    requires SameNodes(policy) && Single(ds) && SameMembers(ms, ds) && m in ds
    ensures ContestOutcome(policy, ClassOf(ms, key, cal, m)).ambiguous
        ==> ContestOutcome(policy, ClassOf(ds, key, cal, m)).ambiguous
            || exists w :: Wins(policy, ds, key, cal, w) && multiset(ms)[w] >= 2
    ensures || ContestOutcome(policy, ClassOf(ds, key, cal, m)).ambiguous
            || (Wins(policy, ds, key, cal, m) && multiset(ms)[m] >= 2)
        ==> ContestOutcome(policy, ClassOf(ms, key, cal, m)).ambiguous
  {
    hide ClassOf, ContestOutcome, Single, SameMembers;
    ClassesAlike(ms, ds, key, cal, m);
    var c, d := ClassOf(ms, key, cal, m), ClassOf(ds, key, cal, m);
    ContestDuplicates(policy, c, d);
    if !ContestOutcome(policy, d).ambiguous {
      ContestAnswersMember(policy, d);
      var w := ContestOutcome(policy, d).results[0];
      assert Wins(policy, ds, key, cal, w);
    }
  }

  /** Listing matches again makes arbitration refuse what it would answer exactly when the winner of some class is among
      them: for every key and all orders of all hash maps. */
  lemma DuplicatesRefuse(
      policy: Policy, ms: seq<Match>, ds: seq<Match>, key: Match -> Text, cal: Calendar,
      a: seq<Text>, b: seq<Text>, subs: Orders, others: Orders)
    requires SameNodes(policy) && Single(ds) && SameMembers(ms, ds)
    requires AreOrders(ms, key, a, subs, cal) && AreOrders(ds, key, b, others, cal)
    ensures Arbitrate(policy, ms, key, a, subs, cal).ambiguous
       <==> || Arbitrate(policy, ds, key, b, others, cal).ambiguous
            || exists w :: Wins(policy, ds, key, cal, w) && multiset(ms)[w] >= 2
  {
    hide ClassOf, ContestOutcome, AreOrders, Single, Arbitrate;
    ArbitrationRefusesIff(policy, ms, key, a, subs, cal);
    ArbitrationRefusesIff(policy, ds, key, b, others, cal);
    forall m | m in ds ensures m in ms {
    }
    if m :| m in ms && ContestOutcome(policy, ClassOf(ms, key, cal, m)).ambiguous {
      ClassDuplicates(policy, ms, ds, key, cal, m);
    }
    if m :| m in ds && ContestOutcome(policy, ClassOf(ds, key, cal, m)).ambiguous {
      ClassDuplicates(policy, ms, ds, key, cal, m);
      assert m in ms;
    }
    if w :| Wins(policy, ds, key, cal, w) && multiset(ms)[w] >= 2 {
      ClassDuplicates(policy, ms, ds, key, cal, w);
      assert w in ms;
    }
  }

  /** A query, with or without an entity filter, refuses because of the index exactly when the winner of some class
      names, outside compounds' named arguments, the entity more than once, or anything else the index scan meets;
      otherwise it refuses exactly what arbitration of the same matches, once each, refuses. */
  lemma QueryRefusesIff(
      s: State, pattern: Predicate, entity: Option<Text>, o: Options, registry: Registry, ns: seq<Node>, ds: seq<Match>,
      policy: Policy, key: Match -> Text, cal: Calendar, a: seq<Text>, b: seq<Text>, subs: Orders, others: Orders)
    requires Indexed(s) && Candidates(s, pattern, entity, registry, ns)
    requires SameNodes(policy) && Single(ds) && SameMembers(MatchesOf(pattern, o, ns), ds)
    requires AreOrders(MatchesOf(pattern, o, ns), key, a, subs, cal) && AreOrders(ds, key, b, others, cal)
    ensures Arbitrate(policy, MatchesOf(pattern, o, ns), key, a, subs, cal).ambiguous
       <==> || Arbitrate(policy, ds, key, b, others, cal).ambiguous
            || exists w :: Wins(policy, ds, key, cal, w) && Listed(w.node, entity) >= 2
  {
    hide *;
    var ms := MatchesOf(pattern, o, ns);
    DuplicatesRefuse(policy, ms, ds, key, cal, a, b, subs, others);
    forall w | Wins(policy, ds, key, cal, w) ensures multiset(ms)[w] == Listed(w.node, entity) {
      WinnerIn(policy, ms, ds, key, cal, w);
      Members(ms, w);
      MatchListed(s, pattern, entity, o, registry, ns, w);
    }
  }

  lemma WinnerIn(policy: Policy, ms: seq<Match>, ds: seq<Match>, key: Match -> Text, cal: Calendar, w: Match)
    requires Wins(policy, ds, key, cal, w) && SameMembers(ms, ds)
    ensures w in ms
  {
  }

  /** A stored winner that names the entity twice makes the query refuse. */
  lemma NamedTwiceRefuses(
      s: State, pattern: Predicate, entity: Text, o: Options, registry: Registry, ns: seq<Node>, ds: seq<Match>,
      policy: Policy, key: Match -> Text, cal: Calendar, a: seq<Text>, b: seq<Text>, subs: Orders, others: Orders,
      w: Match)
    requires Indexed(s) && Candidates(s, pattern, Some(entity), registry, ns)
    requires SameNodes(policy) && Single(ds) && SameMembers(MatchesOf(pattern, o, ns), ds)
    requires AreOrders(MatchesOf(pattern, o, ns), key, a, subs, cal) && AreOrders(ds, key, b, others, cal)
    requires Wins(policy, ds, key, cal, w) && multiset(Entities(w.node.pred))[entity] >= 2
    ensures Arbitrate(policy, MatchesOf(pattern, o, ns), key, a, subs, cal).ambiguous
  {
    hide *;
    QueryRefusesIff(s, pattern, Some(entity), o, registry, ns, ds, policy, key, cal, a, b, subs, others);
    MeetingAtLeast(Entities(w.node.pred), w.node.id, entity);
    ListedIs(w.node, entity);
  }

  lemma ListedIs(n: Node, entity: Text)
    ensures Listed(n, Some(entity)) == Meeting(Entities(n.pred), n.id, entity) && Listed(n, None) == 1
  {
  }
}
