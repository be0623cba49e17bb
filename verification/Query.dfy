/** The query pipeline of `factum-rt/src/query.rs` up to arbitration: candidates from an index, filters, matching. */
module Query {
  import opened Types
  import opened Serialize
  import opened Storage
  import opened Store
  import opened Lookup
  import opened Matching
  import Bags

  datatype Options = Options(now: Instant, minConfidence: real, roleMask: bv32)

  /** A `QueryResult`. */
  datatype Match = Match(node: Node, bindings: Bindings)

  predicate IsActive(n: Node) {
    n.status == Active
  }

  /** Permission, validity and confidence filters. */
  predicate Passes(n: Node, o: Options) {
    Grants(n.permissions, o.roleMask) && Holds(n, o.now) && !(n.confidence.Value() < o.minConfidence)
  }

  predicate Answers(pattern: Predicate, o: Options, n: Node) {
    Passes(n, o) && MatchPattern(pattern, n.pred).Some?
  }

  /** The matches among candidate nodes, in their order. */
  function MatchesOf(pattern: Predicate, o: Options, ns: seq<Node>): seq<Match> {
    if ns == [] then []
    else MatchOf(pattern, o, ns[0]) + MatchesOf(pattern, o, ns[1..])
  }

  function MatchOf(pattern: Predicate, o: Options, n: Node): seq<Match> {
    if Answers(pattern, o, n) then [Match(n, MatchPattern(pattern, n.pred).value)] else []
  }

  /** The match a node gives, if it gives one. */
  ghost predicate IsMatch(pattern: Predicate, o: Options, m: Match) {
    Answers(pattern, o, m.node) && MatchPattern(pattern, m.node.pred).value == m.bindings
  }

  lemma {:induction false} MatchCount(pattern: Predicate, o: Options, ns: seq<Node>, m: Match)
    ensures multiset(MatchesOf(pattern, o, ns))[m] == if IsMatch(pattern, o, m) then multiset(ns)[m.node] else 0
  {
    hide Answers, MatchPattern;
    if ns != [] {
      MatchCount(pattern, o, ns[1..], m);
      Bags.HeadTail(ns);
    }
  }

  // ----- candidates -----

  /** The ids an index scan may return for a query, up to order. */
  function CandidateIds(s: State, pattern: Predicate, entity: Option<Text>, registry: Registry): seq<Text> {
    if entity.Some? then Scan(s.log, ByEntity, entity.value) else Scan(s.log, ByPred, HeadKey(registry, pattern.head))
  }

  /** `get_candidates`, in whatever order the index yields them. */
  ghost predicate Candidates(s: State, pattern: Predicate, entity: Option<Text>, registry: Registry, ns: seq<Node>) {
    Bags.Permutes(ns, Fetch(s.nodes, CandidateIds(s, pattern, entity, registry), IsActive))
  }

  /** Every stored node once. */
  ghost predicate ListsAll(ns: seq<Node>, s: State) {
    forall n :: multiset(ns)[n] == if n.id in s.nodes && s.nodes[n.id] == n then 1 else 0
  }

  lemma CandidateCount(s: State, pattern: Predicate, entity: Option<Text>, registry: Registry, ns: seq<Node>, n: Node)
    requires Indexed(s) && Candidates(s, pattern, entity, registry, ns)
    ensures multiset(ns)[n]
         == if n.id in s.nodes && s.nodes[n.id] == n && IsActive(n)
            then multiset(CandidateIds(s, pattern, entity, registry))[n.id] else 0
  {
    hide Indexed, Fetch, CandidateIds;
    OwnIds(s);
    FetchCount(s.nodes, CandidateIds(s, pattern, entity, registry), IsActive, n);
  }

  lemma MatchHeads(pattern: Predicate, n: Node)
    requires MatchPattern(pattern, n.pred).Some?
    ensures pattern.head.Name? && n.pred.head == pattern.head
  {
    hide MatchArgs, MatchNamed;
  }

  lemma AnswerFacts(pattern: Predicate, o: Options, n: Node)
    requires Answers(pattern, o, n)
    ensures IsActive(n) && MatchPattern(pattern, n.pred).Some? && Grants(n.permissions, o.roleMask)
  {
    hide MatchPattern;
  }

  /** Every matching stored node is listed exactly once under the pattern's head. */
  lemma IndexedOnce(s: State, pattern: Predicate, registry: Registry, n: Node)
    requires Indexed(s) && n.id in s.nodes && s.nodes[n.id] == n && MatchPattern(pattern, n.pred).Some?
    ensures multiset(CandidateIds(s, pattern, None, registry))[n.id] == 1
  {
    hide Indexed, Scan, MatchPattern;
    MatchHeads(pattern, n);
    HeadScan(s, n.id);
  }

  /** Without an entity filter the index path gives the same matches, equally often, as filtering and matching all
      stored nodes. */
  lemma IndexPathIsFullScan(s: State, pattern: Predicate, o: Options, registry: Registry, ns: seq<Node>, all: seq<Node>)
    requires Indexed(s) && Candidates(s, pattern, None, registry, ns) && ListsAll(all, s)
    ensures Bags.Permutes(MatchesOf(pattern, o, ns), MatchesOf(pattern, o, all))
  {
    hide Indexed, Candidates, MatchesOf, Answers, IsActive, MatchPattern, CandidateIds;
    forall m ensures multiset(MatchesOf(pattern, o, ns))[m] == multiset(MatchesOf(pattern, o, all))[m] {
      MatchCount(pattern, o, ns, m);
      MatchCount(pattern, o, all, m);
      CandidateCount(s, pattern, None, registry, ns, m.node);
      if IsMatch(pattern, o, m) && m.node.id in s.nodes && s.nodes[m.node.id] == m.node {
        AnswerFacts(pattern, o, m.node);
        IndexedOnce(s, pattern, registry, m.node);
      }
    }
  }

  /** With an entity filter a match of the full scan is listed as often as its node names, outside compounds' named
      arguments, something the scan for the entity meets, and nothing else is listed: as a set the matches are those
      of the nodes that name it, but a node that names it twice is there twice. The count depends on the node alone. */
  lemma EntityPathIsFilteredScan(
      s: State, pattern: Predicate, entity: Text, o: Options, registry: Registry, ns: seq<Node>, all: seq<Node>,
      m: Match)
    requires Indexed(s) && Candidates(s, pattern, Some(entity), registry, ns) && ListsAll(all, s)
    ensures multiset(MatchesOf(pattern, o, ns))[m]
         == if m in MatchesOf(pattern, o, all) then Meeting(Entities(m.node.pred), m.node.id, entity) else 0
  {
    hide *;
    MatchCount(pattern, o, ns, m);
    MatchCount(pattern, o, all, m);
    ListedOnce(all, s, m.node);
    CandidateCount(s, pattern, Some(entity), registry, ns, m.node);
    EntityIds(s, pattern, entity, registry);
    EntityLookup(s, entity, m.node.id);
    MatchIsActive(pattern, o, m);
    InCounts(MatchesOf(pattern, o, all), m);
  }

  /** For zero-free names that is as often as the node names the entity. */
  lemma ZeroFreeEntityPath(
      s: State, pattern: Predicate, entity: Text, o: Options, registry: Registry, ns: seq<Node>, all: seq<Node>,
      m: Match)
    requires Indexed(s) && Candidates(s, pattern, Some(entity), registry, ns) && ListsAll(all, s)
    requires ZeroFree(entity) && forall name <- Entities(m.node.pred) :: ZeroFree(name)
    ensures multiset(MatchesOf(pattern, o, ns))[m]
         == if m in MatchesOf(pattern, o, all) then multiset(Entities(m.node.pred))[entity] else 0
  {
    hide *;
    EntityPathIsFilteredScan(s, pattern, entity, o, registry, ns, all, m);
    ZeroFreeMeeting(Entities(m.node.pred), m.node.id, entity);
  }

  lemma InCounts(ms: seq<Match>, m: Match)
    ensures m in ms <==> multiset(ms)[m] > 0
  {
  }

  lemma ListedOnce(all: seq<Node>, s: State, n: Node)
    requires ListsAll(all, s)
    ensures multiset(all)[n] == if n.id in s.nodes && s.nodes[n.id] == n then 1 else 0
  {
  }

  lemma EntityIds(s: State, pattern: Predicate, entity: Text, registry: Registry)
    ensures CandidateIds(s, pattern, Some(entity), registry) == Scan(s.log, ByEntity, entity)
  {
  }

  lemma MatchIsActive(pattern: Predicate, o: Options, m: Match)
    ensures IsMatch(pattern, o, m) ==> IsActive(m.node)
  {
    hide MatchPattern, Grants;
  }

  // ----- which nodes a query keeps -----

  /** In force at the instant: forever, or from a start up to an end, if there is one. */
  ghost predicate InForce(v: Validity, now: Instant) {
    v.Window? ==> v.from <= now && (v.until.Some? ==> now < v.until.value)
  }

  /** The bindings are distinct, name the variables outside compounds, and say of them what every substitution that
      makes the pattern the concrete predicate says. */
  ghost predicate AreBindings(pattern: Predicate, conc: Predicate, bs: Bindings) {
    && Proper(bs) && Names(bs) == Vars(pattern)
    && forall sub: Subst :: Inst(pattern, conc, sub) ==> Agrees(bs, sub)
  }

  /** The pattern becomes the concrete predicate under some substitution. */
  ghost predicate Instance(pattern: Predicate, conc: Predicate) {
    exists sub: Subst :: Inst(pattern, conc, sub)
  }

  ghost predicate Found(ms: seq<Match>, n: Node) {
    exists bs :: Match(n, bs) in ms
  }

  lemma FoundOne(ms: seq<Match>, m: Match)
    requires m in ms
    ensures Found(ms, m.node)
  {
    assert m == Match(m.node, m.bindings);
  }

  lemma FoundSome(ms: seq<Match>, n: Node) returns (bs: Bindings)
    requires Found(ms, n)
    ensures Match(n, bs) in ms
  {
    bs :| Match(n, bs) in ms;
  }

  lemma GrantsIs(tag: bv32, roleMask: bv32)
    ensures Grants(tag, roleMask) <==> tag & roleMask != 0
  {
  }

  lemma PassesIs(n: Node, o: Options)
    ensures Passes(n, o)
       <==> && n.status == Active
            && n.permissions & o.roleMask != 0
            && InForce(n.validity, o.now)
            && n.confidence.Value() >= o.minConfidence
  {
    GrantsIs(n.permissions, o.roleMask);
    HoldsIs(n, o.now);
    hide Score.Value, Grants, Holds;
  }

  lemma MatchIs(pattern: Predicate, o: Options, m: Match)
    requires IsMatch(pattern, o, m)
    ensures Passes(m.node, o) && Instance(pattern, m.node.pred)
    ensures AreBindings(pattern, m.node.pred, m.bindings)
  {
    hide Inst, Proper, Names, Vars, Agrees, MatchPattern, Passes;
    MatchingExact(pattern, m.node.pred);
  }

  lemma SomeMatch(pattern: Predicate, o: Options, n: Node) returns (m: Match)
    requires Passes(n, o) && Instance(pattern, n.pred)
    ensures m.node == n && IsMatch(pattern, o, m)
  {
    hide Inst, Proper, Names, Vars, Agrees, MatchPattern, Passes;
    var sub: Subst :| Inst(pattern, n.pred, sub);
    PatternComplete(pattern, n.pred, sub);
    m := Match(n, MatchPattern(pattern, n.pred).value);
  }

  /** What a query keeps, with or without an entity filter: a node is among its matches if and only if it is stored,
      active, carries a permission of the mask, is in force now, is confident enough, names something the scan for the
      entity meets, and is what the pattern becomes under some substitution; every match of it carries its bindings. */
  lemma QueryKeeps(
      s: State, pattern: Predicate, entity: Option<Text>, o: Options, registry: Registry, ns: seq<Node>, n: Node)
    requires Indexed(s) && Candidates(s, pattern, entity, registry, ns)
    ensures Found(MatchesOf(pattern, o, ns), n)
       <==> && n.id in s.nodes && s.nodes[n.id] == n
            && n.status == Active
            && n.permissions & o.roleMask != 0
            && InForce(n.validity, o.now)
            && n.confidence.Value() >= o.minConfidence
            && (entity.Some? ==> exists name :: Mentioned(name, n.pred) && Meets(name, n.id, entity.value))
            && Instance(pattern, n.pred)
    ensures forall bs :: Match(n, bs) in MatchesOf(pattern, o, ns) ==> AreBindings(pattern, n.pred, bs)
  {
    hide *;
    PassesIs(n, o);
    StoredIs(s, n);
    ListedAtAll(n, entity);
    forall bs
      ensures Match(n, bs) in MatchesOf(pattern, o, ns)
         <==> IsMatch(pattern, o, Match(n, bs)) && Stored(s, n) && Listed(n, entity) > 0
    {
      MatchListed(s, pattern, entity, o, registry, ns, Match(n, bs));
      InCounts(MatchesOf(pattern, o, ns), Match(n, bs));
    }
    forall bs | IsMatch(pattern, o, Match(n, bs))
      ensures Passes(n, o) && Instance(pattern, n.pred) && AreBindings(pattern, n.pred, bs)
    {
      MatchIs(pattern, o, Match(n, bs));
    }
    if Found(MatchesOf(pattern, o, ns), n) {
      var bs := FoundSome(MatchesOf(pattern, o, ns), n);
    }
    if Passes(n, o) && Instance(pattern, n.pred) && Stored(s, n) && Listed(n, entity) > 0 {
      var m := SomeMatch(pattern, o, n);
      assert m == Match(n, m.bindings);
      FoundOne(MatchesOf(pattern, o, ns), m);
    }
  }

  lemma ListedAtAll(n: Node, entity: Option<Text>)
    ensures Listed(n, entity) > 0
       <==> (entity.Some? ==> exists name :: Mentioned(name, n.pred) && Meets(name, n.id, entity.value))
  {
    hide Meeting, Entities, Mentioned, Meets;
    if entity.Some? {
      MeetingAny(Entities(n.pred), n.id, entity.value);
      forall name ensures name in Entities(n.pred) <==> Mentioned(name, n.pred) {
        EntitiesAre(n.pred, name);
      }
    }
  }

  // ----- what a query may reveal -----

  /** The two stores hold the same nodes as far as the context may see. */
  ghost predicate LookAlike(s: State, t: State, roleMask: bv32) {
    forall n: Node :: n.permissions & roleMask != 0 ==>
      (n.id in s.nodes && s.nodes[n.id] == n <==> n.id in t.nodes && t.nodes[n.id] == n)
  }

  /** How often the index lists a matching node: a matter of the node and the query alone. */
  function Listed(n: Node, entity: Option<Text>): nat {
    if entity.Some? then Meeting(Entities(n.pred), n.id, entity.value) else 1
  }

  predicate Stored(s: State, n: Node) {
    n.id in s.nodes && s.nodes[n.id] == n
  }

  lemma MatchListed(
      s: State, pattern: Predicate, entity: Option<Text>, o: Options, registry: Registry, ns: seq<Node>, m: Match)
    requires Indexed(s) && Candidates(s, pattern, entity, registry, ns)
    ensures multiset(MatchesOf(pattern, o, ns))[m]
         == if IsMatch(pattern, o, m) && Stored(s, m.node) then Listed(m.node, entity) else 0
  {
    hide *;
    MatchCount(pattern, o, ns, m);
    CandidateCount(s, pattern, entity, registry, ns, m.node);
    MatchIsActive(pattern, o, m);
    StoredIs(s, m.node);
    if IsMatch(pattern, o, m) && Stored(s, m.node) {
      CandidateListed(s, pattern, entity, o, registry, m);
    }
  }

  lemma StoredIs(s: State, n: Node)
    ensures Stored(s, n) <==> n.id in s.nodes && s.nodes[n.id] == n
  {
  }

  lemma CandidateListed(s: State, pattern: Predicate, entity: Option<Text>, o: Options, registry: Registry, m: Match)
    requires Indexed(s) && IsMatch(pattern, o, m) && Stored(s, m.node)
    ensures multiset(CandidateIds(s, pattern, entity, registry))[m.node.id] == Listed(m.node, entity)
  {
    hide Indexed, CandidateIds, Meeting, Entities, MatchPattern, IsActive;
    AnswerFacts(pattern, o, m.node);
    if entity.Some? {
      EntityIds(s, pattern, entity.value, registry);
      EntityLookup(s, entity.value, m.node.id);
    } else {
      IndexedOnce(s, pattern, registry, m.node);
    }
  }

  /** Nodes the context may not see leave no trace in its matches, with or without an entity filter: two stores that
      differ only in such nodes, however they came about, give the same matches. */
  lemma InvisibleNodesLeaveNoTrace(
      s: State, t: State, pattern: Predicate, entity: Option<Text>, o: Options, registry: Registry,
      ns: seq<Node>, ms: seq<Node>)
    requires Indexed(s) && Candidates(s, pattern, entity, registry, ns)
    requires Indexed(t) && Candidates(t, pattern, entity, registry, ms)
    requires LookAlike(s, t, o.roleMask)
    ensures Bags.Permutes(MatchesOf(pattern, o, ns), MatchesOf(pattern, o, ms))
  {
    hide *;
    var a, b := MatchesOf(pattern, o, ns), MatchesOf(pattern, o, ms);
    forall m ensures multiset(a)[m] == multiset(b)[m] {
      MatchListed(s, pattern, entity, o, registry, ns, m);
      MatchListed(t, pattern, entity, o, registry, ms, m);
      SeenAlike(s, t, pattern, o, m);
    }
    SameCountsOfMatches(a, b);
  }

  lemma SeenAlike(s: State, t: State, pattern: Predicate, o: Options, m: Match)
    requires LookAlike(s, t, o.roleMask)
    ensures IsMatch(pattern, o, m) ==> (Stored(s, m.node) <==> Stored(t, m.node))
  {
    hide MatchPattern, Grants;
    if IsMatch(pattern, o, m) {
      AnswerFacts(pattern, o, m.node);
      GrantsIs(m.node.permissions, o.roleMask);
    }
  }

  lemma SameCountsOfMatches(a: seq<Match>, b: seq<Match>)
    requires forall m :: multiset(a)[m] == multiset(b)[m]
    ensures Bags.Permutes(a, b)
  {
  }
}
