/** Refuse rather than guess: an answer of `arbitrate` that is not marked ambiguous does not depend on the order of
    the matches or of any hash map. */
module Refusal {
  import opened Types
  import opened Serialize
  import opened Query
  import opened Store
  import opened Arbitration
  import opened Voting
  import Bags

  // ----- groups -----

  predicate SameNodes(policy: Policy) {
    policy.LatestWins? || policy.HighestAuthority?
  }

  /** Under a weighted vote no group is undecided. */
  ghost predicate Decided(policy: Policy, ms: seq<Match>, key: Match -> Text, cal: Calendar) {
    policy.WeightedVote? ==> forall k :: !Undecided(Group(ms, key, k), policy.weights, cal)
  }

  lemma ContestsSame(policy: Policy, ms: seq<Match>, ns: seq<Match>, cal: Calendar, sig: Text)
    requires Bags.Permutes(ms, ns)
    ensures Same(true, Contests(policy, ms, cal)(sig), Contests(policy, ns, cal)(sig))
  {
    hide Same, LatestOutcome, AuthorityOutcome, SignatureKey;
    var key := SignatureKey(cal);
    Bags.FilterPermutes((m: Match) => key(m) == sig, ms, ns);
    LatestSame(Group(ms, key, sig), Group(ns, key, sig));
    AuthoritySame(Group(ms, key, sig), Group(ns, key, sig));
  }

  lemma GroupSame(policy: Policy, ms: seq<Match>, ns: seq<Match>, a: seq<Text>, b: seq<Text>, cal: Calendar)
    requires Bags.Permutes(ms, ns) && IsOrder(ms, SignatureKey(cal), a) && IsOrder(ns, SignatureKey(cal), b)
    requires policy.WeightedVote? ==> !Undecided(ms, policy.weights, cal)
    ensures Same(SameNodes(policy), GroupOutcome(policy, ms, a, cal), GroupOutcome(policy, ns, b, cal))
  {
    hide Same, IsOrder, SignatureKey, VoteOutcome, UnanimousOutcome, Collect, Contests, Undecided;
    PermutesFacts(ms, ns);
    if |ms| <= 1 {
      SameResults(SameNodes(policy), GroupOutcome(policy, ms, a, cal), GroupOutcome(policy, ns, b, cal));
    } else if SameNodes(policy) {
      OrdersPermute(ms, ns, SignatureKey(cal), a, b);
      forall sig ensures Same(true, Contests(policy, ms, cal)(sig), Contests(policy, ns, cal)(sig)) {
        ContestsSame(policy, ms, ns, cal, sig);
      }
      CollectSame(true, Contests(policy, ms, cal), Contests(policy, ns, cal), a, b);
    } else if policy.Unanimous? {
      UnanimousSame(ms, ns);
    } else if policy.WeightedVote? {
      PermutesSelf(ms);
      VoteSame(ms, ms, ns, policy.weights, a, b, cal);
    } else {
      SameResults(false, GroupOutcome(policy, ms, a, cal), GroupOutcome(policy, ns, b, cal));
    }
  }

  /** For every policy, every key that groups the matches, every permutation of the matches and all orders of all
      hash maps involved: both runs refuse, or neither does and they answer the same predicates equally often, under
      `LatestWins` and `HighestAuthority` with the same nodes. For a weighted vote this holds of groups that are not
      undecided; `VoteDependsOnOrders` says that for the others it fails. */
  lemma RefusesRatherThanGuesses(
      policy: Policy, ms: seq<Match>, ns: seq<Match>, key: Match -> Text, cal: Calendar,
      a: seq<Text>, b: seq<Text>, subs: Orders, others: Orders)
    requires Bags.Permutes(ms, ns) && AreOrders(ms, key, a, subs, cal) && AreOrders(ns, key, b, others, cal)
    requires Decided(policy, ms, key, cal)
    ensures Same(
              SameNodes(policy), Arbitrate(policy, ms, key, a, subs, cal), Arbitrate(policy, ns, key, b, others, cal))
  {
    hide Same, Collect, GroupOutcome, Undecided, IsOrder, SameNodes, OrderOf;
    OrdersPermute(ms, ns, key, a, b);
    var f, g := Groups(policy, ms, key, subs, cal), Groups(policy, ns, key, others, cal);
    SameKeys(a, b);
    forall k | k in a ensures Same(SameNodes(policy), f(k), g(k)) {
      Bags.FilterPermutes((m: Match) => key(m) == k, ms, ns);
      GroupSame(policy, Group(ms, key, k), Group(ns, key, k), OrderOf(subs, k), OrderOf(others, k), cal);
    }
    CollectSame(SameNodes(policy), f, g, a, b);
  }

  // ----- the one group of a query pattern -----

  lemma {:induction false} FilterAll(p: Match -> bool, ms: seq<Match>)
    requires forall m <- ms :: p(m)
    ensures Bags.Filter(p, ms) == ms
  {
    if ms != [] {
      FilterAll(p, ms[1..]);
    }
  }

  lemma OneKey(order: seq<Text>, k: Text)
    requires Bags.Distinct(order) && forall x :: x in order <==> x == k
    ensures order == [k]
  {
    forall x ensures multiset(order)[x] == multiset([k])[x] {
      Bags.DistinctCounts(order, x);
    }
    assert multiset(order) == multiset([k]);
    assert |order| == |multiset(order)|;
    assert k in order;
  }

  /** With one key for all matches, as a query pattern gives, arbitration is the decision of one group. */
  lemma OneGroup(policy: Policy, ms: seq<Match>, key: Match -> Text, k: Text, a: seq<Text>, subs: Orders, cal: Calendar)
    requires AreOrders(ms, key, a, subs, cal) && forall m :: key(m) == k
    ensures ms == [] ==> Arbitrate(policy, ms, key, a, subs, cal) == Outcome([], false)
    ensures ms != [] ==>
              && Arbitrate(policy, ms, key, a, subs, cal) == GroupOutcome(policy, ms, OrderOf(subs, k), cal)
              && IsOrder(ms, SignatureKey(cal), OrderOf(subs, k))
  {
    hide GroupOutcome, SignatureKey;
    if ms == [] {
      NoKeys(a);
    } else {
      assert ms[0] in ms && key(ms[0]) == k;
      OneKey(a, k);
      FilterAll((m: Match) => key(m) == k, ms);
      assert a == [k] && a[1..] == [];
      CollectCons(Groups(policy, ms, key, subs, cal), a);
      EmptyJoin(GroupOutcome(policy, ms, OrderOf(subs, k), cal));
    }
  }

  lemma NoKeys(a: seq<Text>)
    ensures (forall k :: k !in a) ==> a == []
  {
    if a != [] {
      assert a[0] in a;
    }
  }

  lemma EmptyJoin(o: Outcome)
    ensures Join(o, Outcome([], false)) == o
  {
  }

  /** A run of arbitration on some permutation of the matches. */
  ghost predicate Runs(
      ms: seq<Match>, ns: seq<Match>, key: Match -> Text, a: seq<Text>, subs: Orders, weights: map<Text, real>,
      cal: Calendar,
      o: Outcome)
  {
    && Bags.Permutes(ms, ns) && AreOrders(ns, key, a, subs, cal)
    && o == Arbitrate(WeightedVote(weights), ns, key, a, subs, cal)
  }

  /** The outcome is one that arbitration of these matches can have. */
  ghost predicate Possible(ms: seq<Match>, key: Match -> Text, weights: map<Text, real>, cal: Calendar, o: Outcome) {
    exists ns, a, subs :: Runs(ms, ns, key, a, subs, weights, cal, o)
  }

  lemma PossibleVote(
      ms: seq<Match>, ns: seq<Match>, key: Match -> Text, k: Text, a: seq<Text>, weights: map<Text, real>,
      cal: Calendar)
    requires Arrives(ms, ns, a, cal) && |ms| > 1 && forall m :: key(m) == k
    ensures Possible(ms, key, weights, cal, VoteOutcome(ns, weights, a, cal))
  {
    hide VoteOutcome, SignatureKey;
    PermutesFacts(ms, ns);
    FilterAll((m: Match) => key(m) == k, ns);
    var subs: Orders := map[k := a];
    assert ns[0] in ns && key(ns[0]) == k;
    hide IsOrder;
    KeyOrder(ns, key, k);
    assert AreOrders(ns, key, [k], subs, cal);
    OneGroup(WeightedVote(weights), ns, key, k, [k], subs, cal);
    hide Arbitrate;
    assert Runs(ms, ns, key, [k], subs, weights, cal, VoteOutcome(ns, weights, a, cal));
  }

  lemma KeyOrder(ns: seq<Match>, key: Match -> Text, k: Text)
    requires ns != [] && forall m :: key(m) == k
    ensures IsOrder(ns, key, [k])
  {
    assert ns[0] in ns && key(ns[0]) == k;
  }

  lemma RunIsVote(
      ms: seq<Match>, ns: seq<Match>, key: Match -> Text, k: Text, a: seq<Text>, subs: Orders, weights: map<Text, real>,
      cal: Calendar, o: Outcome)
    requires Runs(ms, ns, key, a, subs, weights, cal, o) && |ms| > 1 && forall m :: key(m) == k
    ensures Arrives(ms, ns, OrderOf(subs, k), cal) && o == VoteOutcome(ns, weights, OrderOf(subs, k), cal)
  {
    hide VoteOutcome, SignatureKey, IsOrder, OrderOf;
    PermutesFacts(ms, ns);
    OneGroup(WeightedVote(weights), ns, key, k, a, subs, cal);
  }

  /** The weighted vote of a query pattern has two outcomes that answer differently, depending on the order in which
      matches arrive and hash maps are iterated, if and only if it is undecided. */
  lemma QueryVoteGuessesIff(ms: seq<Match>, key: Match -> Text, k: Text, weights: map<Text, real>, cal: Calendar)
    requires |ms| > 1 && forall m :: key(m) == k
    ensures Undecided(ms, weights, cal)
       <==> exists o, q ::
              Possible(ms, key, weights, cal, o) && Possible(ms, key, weights, cal, q) && !Same(false, o, q)
  {
    hide Same, VoteOutcome, Undecided, Arrives, Runs;
    VoteDependsOnOrders(ms, weights, cal);
    if ns, a, ks, b :| Arrives(ms, ns, a, cal) && Arrives(ms, ks, b, cal) && Differ(ns, a, ks, b, weights, cal) {
      PossibleVote(ms, ns, key, k, a, weights, cal);
      PossibleVote(ms, ks, key, k, b, weights, cal);
    }
    if o, q :| Possible(ms, key, weights, cal, o) && Possible(ms, key, weights, cal, q) && !Same(false, o, q) {
      var ns, a, subs :| Runs(ms, ns, key, a, subs, weights, cal, o);
      var ks, b, others :| Runs(ms, ks, key, b, others, weights, cal, q);
      RunIsVote(ms, ns, key, k, a, subs, weights, cal, o);
      RunIsVote(ms, ks, key, k, b, others, weights, cal, q);
      assert Differ(ns, OrderOf(subs, k), ks, OrderOf(others, k), weights, cal);
    }
  }

  // ----- whole queries -----

  /** A whole query, with or without an entity filter, reveals nothing of nodes its context may not see: two stores that
      differ only in such nodes, with any histories and any iteration orders of their indices and of arbitration's maps,
      refuse alike or answer the same predicates equally often. */
  lemma QueryHidesInvisibleNodes(
      s: State, t: State, pattern: Predicate, entity: Option<Text>, o: Options, registry: Registry,
      ns: seq<Node>, ms: seq<Node>,
      policy: Policy, key: Match -> Text, cal: Calendar, a: seq<Text>, b: seq<Text>, subs: Orders, others: Orders)
    requires Indexed(s) && Candidates(s, pattern, entity, registry, ns)
    requires Indexed(t) && Candidates(t, pattern, entity, registry, ms)
    requires LookAlike(s, t, o.roleMask)
    requires AreOrders(MatchesOf(pattern, o, ns), key, a, subs, cal)
    requires AreOrders(MatchesOf(pattern, o, ms), key, b, others, cal)
    requires Decided(policy, MatchesOf(pattern, o, ns), key, cal)
    ensures Same(SameNodes(policy), Arbitrate(policy, MatchesOf(pattern, o, ns), key, a, subs, cal),
                 Arbitrate(policy, MatchesOf(pattern, o, ms), key, b, others, cal))
  {
    hide *;
    InvisibleNodesLeaveNoTrace(s, t, pattern, entity, o, registry, ns, ms);
    RefusesRatherThanGuesses(policy, MatchesOf(pattern, o, ns), MatchesOf(pattern, o, ms), key, cal, a, b, subs,
                             others);
  }
}
