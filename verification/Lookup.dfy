/** What the store's indices answer: temporal lookup, lookups by name, and reopening a stored database. */
module Lookup {
  import opened Types
  import opened Storage
  import opened Store
  import Bags
  import Cascade

  // ----- lists of stored nodes -----

  lemma ListsLess(ns: seq<Node>, nodes: map<Text, Node>)
    requires Lists(ns, nodes) && ns != []
    ensures Lists(ns[..|ns| - 1], nodes - {ns[|ns| - 1].id})
    ensures ns[|ns| - 1].id in nodes && SameFacts(ns[|ns| - 1], nodes[ns[|ns| - 1].id])
  {
    hide SameFacts;
    var rest, last := ns[..|ns| - 1], ns[|ns| - 1];
    var less := nodes - {last.id};
    assert last in ns;
    LastOrBefore(ns);
    forall n | n in rest ensures n.id in less && SameFacts(n, less[n.id]) {
      var i :| 0 <= i < |rest| && rest[i] == n;
      assert ns[i].id != ns[|ns| - 1].id;
    }
    forall id | id in less ensures exists n :: n in rest && n.id == id {
      var n :| n in ns && n.id == id;
      assert n in rest;
    }
  }

  lemma LastOrBefore(ns: seq<Node>)
    requires ns != []
    ensures forall n <- ns :: n == ns[|ns| - 1] || n in ns[..|ns| - 1]
    ensures forall n <- ns[..|ns| - 1] :: n in ns
  {
    assert ns == ns[..|ns| - 1] + [ns[|ns| - 1]];
  }

  lemma ListsNothing(nodes: map<Text, Node>)
    requires Lists([], nodes)
    ensures nodes == map[]
  {
  }

  // ----- reverse dependencies -----

  lemma {:induction false} AddDepsCount(edges: Cascade.Edges, deps: seq<Text>, id: Text, k: Text, x: Text)
    ensures multiset(Cascade.Dependents(AddDeps(edges, deps, id), k))[x]
         == multiset(Cascade.Dependents(edges, k))[x] + if x == id then multiset(deps)[k] else 0
    decreases deps
  {
    if deps != [] {
      AddDepsCount(edges[deps[0] := Cascade.Dependents(edges, deps[0]) + [id]], deps[1..], id, k, x);
      Bags.HeadTail(deps);
    }
  }

  /** How often `deps_rev` lists `x` under `k`: as often as the stored node `x` names `k` in its deps. */
  lemma {:induction false} DependentsCount(ns: seq<Node>, nodes: map<Text, Node>, k: Text, x: Text)
    requires Lists(ns, nodes)
    ensures multiset(Cascade.Dependents(AddAllDeps(map[], ns), k))[x]
         == if x in nodes then multiset(nodes[x].deps)[k] else 0
  {
    hide AddDeps, Lists, Cascade.Dependents;
    if ns == [] {
      ListsNothing(nodes);
      NoDependents(k);
    } else {
      var last := ns[|ns| - 1];
      ListsLess(ns, nodes);
      DependentsCount(ns[..|ns| - 1], nodes - {last.id}, k, x);
      AddDepsCount(AddAllDeps(map[], ns[..|ns| - 1]), last.deps, last.id, k, x);
    }
  }

  lemma NoDependents(k: Text)
    ensures Cascade.Dependents(map[], k) == []
  {
  }

  /** In every store, `deps_rev` lists `d` under `x` exactly when the stored node `d` names `x` in its deps. */
  lemma DependentsAre(s: State, x: Text, d: Text)
    requires Indexed(s)
    ensures d in Cascade.Dependents(s.depsRev, x) <==> d in s.nodes && x in s.nodes[d].deps
  {
    hide Lists, LoggedFrom, AddAllDeps, AddAllWindows, Cascade.Dependents;
    var order :| BuiltFrom(s, order);
    DependentsCount(order, s.nodes, x, d);
    var ds := Cascade.Dependents(s.depsRev, x);
    assert d in ds <==> multiset(ds)[d] > 0;
  }

  /** A chain of active derived nodes, each naming the one before it in its deps. */
  ghost predicate Supports(nodes: map<Text, Node>, p: seq<Text>, root: Text, id: Text) {
    && p != [] && p[0] == root && p[|p| - 1] == id
    && forall i :: 0 < i < |p| ==>
      && p[i] in nodes && nodes[p[i]].status == Active && nodes[p[i]].provenance.Derived?
      && p[i - 1] in nodes[p[i]].deps
  }

  lemma LeadsIsSupports(s: State, p: seq<Text>, root: Text, id: Text)
    requires Indexed(s)
    ensures Cascade.Leads(s.nodes, s.depsRev, p, root, id) <==> Supports(s.nodes, p, root, id)
  {
    hide Indexed, Cascade.Dependents;
    forall i | 0 < i < |p|
      ensures p[i] in Cascade.Dependents(s.depsRev, p[i - 1]) <==> p[i] in s.nodes && p[i - 1] in s.nodes[p[i]].deps
    {
      DependentsAre(s, p[i - 1], p[i]);
    }
  }

  lemma ReachesIsSupported(s: State, root: Text, id: Text)
    requires Indexed(s)
    ensures Cascade.Reaches(s.nodes, s.depsRev, root, id) <==> exists p :: Supports(s.nodes, p, root, id)
  {
    hide Indexed, Supports, Cascade.Leads;
    forall p ensures Cascade.Leads(s.nodes, s.depsRev, p, root, id) <==> Supports(s.nodes, p, root, id) {
      LeadsIsSupports(s, p, root, id);
    }
  }

  lemma SupportedIsStored(nodes: map<Text, Node>, p: seq<Text>, root: Text, id: Text)
    requires root in nodes && Supports(nodes, p, root, id)
    ensures id in nodes
  {
  }

  /** Retraction in terms of the stored nodes alone, in every store: an untruncated call retracts exactly the node and
      the active derived nodes that depend on it through a chain of such nodes. */
  lemma RetractionFollowsDeps(s: State, id: Text, max: nat, x: Text)
    requires Indexed(s) && id in s.nodes && s.nodes[id].status != Retracted
    requires RetractWithLimit(s, id, max).1.Ok? && !RetractWithLimit(s, id, max).1.value.truncated
    ensures x in RetractWithLimit(s, id, max).1.value.retracted <==> exists p :: Supports(s.nodes, p, id, x)
  {
    hide Indexed, Cascade.Run, Cascade.Reaches, Supports, Retractions;
    var w := Cascade.Run(s.nodes, s.depsRev, id, max);
    Cascade.RunExact(s.nodes, s.depsRev, id, max);
    assert x in w.retracted <==> x in Cascade.Elements(w.retracted);
    ReachesIsSupported(s, id, x);
    if p :| Supports(s.nodes, p, id, x) {
      SupportedIsStored(s.nodes, p, id, x);
    }
  }

  /** Truncated or not, in every state: whatever a call retracts besides the node asked for was active and derived. */
  lemma RetractedWereDerived(s: State, id: Text, max: nat, x: Text)
    requires RetractWithLimit(s, id, max).1.Ok? && x in RetractWithLimit(s, id, max).1.value.retracted && x != id
    ensures x in s.nodes && s.nodes[x].status == Active && s.nodes[x].provenance.Derived?
  {
    hide Cascade.Run;
    Cascade.RunRetractsDerived(s.nodes, s.depsRev, id, max, x);
  }

  /** Each retracted node has a level: the node asked for 0, every other one more than a node retracted before it that
      it names in its deps. */
  ghost predicate LeveledByDeps(nodes: map<Text, Node>, retracted: seq<Text>, levels: seq<nat>) {
    |levels| == |retracted| && forall i :: 0 <= i < |levels| ==> IsLevel(nodes, retracted, levels, i)
  }

  ghost predicate IsLevel(nodes: map<Text, Node>, retracted: seq<Text>, levels: seq<nat>, i: nat)
    requires i < |levels| == |retracted|
  {
    if i == 0 then levels[i] == 0
    else exists j ::
           && 0 <= j < i && levels[i] == levels[j] + 1
           && retracted[i] in nodes && retracted[j] in nodes[retracted[i]].deps
  }

  /** The depth reported is the greatest of these levels. */
  lemma RetractionDepth(s: State, id: Text, max: nat) returns (levels: seq<nat>)
    requires Indexed(s) && id in s.nodes && s.nodes[id].status != Retracted && RetractWithLimit(s, id, max).1.Ok?
    ensures LeveledByDeps(s.nodes, RetractWithLimit(s, id, max).1.value.retracted, levels)
    ensures Cascade.Deepest(levels, RetractWithLimit(s, id, max).1.value.depthReached)
  {
    hide Indexed, Cascade.Run, Cascade.Dependents, Retractions;
    levels := [];
    if max > 0 {
      var w := Cascade.Run(s.nodes, s.depsRev, id, max);
      levels := Cascade.RunDepth(s.nodes, s.depsRev, id, max);
      forall i | 0 <= i < |levels| ensures IsLevel(s.nodes, w.retracted, levels, i) {
        assert Cascade.IsLeveled(w.retracted, s.depsRev, levels, i);
        if i > 0 {
          var j :| 0 <= j < i && levels[i] == levels[j] + 1
            && w.retracted[i] in Cascade.Dependents(s.depsRev, w.retracted[j]);
          DependentsAre(s, w.retracted[j], w.retracted[i]);
        }
      }
    }
  }

  // ----- validity windows -----

  lemma {:induction false} FiledCount(ns: seq<Node>, nodes: map<Text, Node>, w: Window, x: Text)
    requires Lists(ns, nodes)
    ensures multiset(Filed(AddAllWindows(map[], ns), w))[x]
         == if x in nodes && WindowOf(nodes[x].validity) == w then 1 else 0
  {
    hide Lists, WindowOf;
    if ns == [] {
      ListsNothing(nodes);
    } else {
      var last := ns[|ns| - 1];
      ListsLess(ns, nodes);
      FiledCount(ns[..|ns| - 1], nodes - {last.id}, w, x);
    }
  }

  /** The range bound of `lookup_valid_at`, in the order of the tree's keys. */
  predicate InRange(w: Window, t: Instant) {
    w.0 < Seconds(t) || (w.0 == Seconds(t) && w.1 <= I64_MAX)
  }

  /** Rounding down never hides a valid node from the range. */
  lemma ValidInRange(v: Validity, t: Instant)
    requires v.IsValidAt(t)
    ensures InRange(WindowOf(v), t)
  {
  }

  predicate Holds(n: Node, t: Instant) {
    n.status == Active && n.validity.IsValidAt(t)
  }

  /** The ids filed under the windows of a set, within the range. */
  ghost predicate Collects(windows: Windows, t: Instant, seen: set<Window>, ids: seq<Text>, nodes: map<Text, Node>) {
    forall x :: multiset(ids)[x]
             == if x in nodes && WindowOf(nodes[x].validity) in seen && InRange(WindowOf(nodes[x].validity), t) then 1
                else 0
  }

  ghost predicate FiledRight(windows: Windows, nodes: map<Text, Node>) {
    forall w, x :: multiset(Filed(windows, w))[x] == if x in nodes && WindowOf(nodes[x].validity) == w then 1 else 0
  }

  lemma IndexedFiles(s: State)
    requires Indexed(s)
    ensures FiledRight(s.byValidity, s.nodes)
  {
    hide Lists, LoggedFrom, AddAllDeps, AddAllWindows, Filed, WindowOf;
    var order :| BuiltFrom(s, order);
    forall w, x ensures multiset(Filed(s.byValidity, w))[x]
                     == if x in s.nodes && WindowOf(s.nodes[x].validity) == w then 1 else 0 {
      FiledCount(order, s.nodes, w, x);
    }
  }

  lemma CollectsMore(windows: Windows, t: Instant, seen: set<Window>, ids: seq<Text>, nodes: map<Text, Node>, w: Window)
    requires FiledRight(windows, nodes) && Collects(windows, t, seen, ids, nodes) && w !in seen
    ensures Collects(windows, t, seen + {w}, if InRange(w, t) then ids + Filed(windows, w) else ids, nodes)
  {
    hide WindowOf, InRange, Filed;
    var after := if InRange(w, t) then ids + Filed(windows, w) else ids;
    forall x ensures multiset(after)[x]
      == if x in nodes && WindowOf(nodes[x].validity) in seen + {w} && InRange(WindowOf(nodes[x].validity), t) then 1
         else 0
    {
      assert multiset(after)[x] == multiset(ids)[x] + if InRange(w, t) then multiset(Filed(windows, w))[x] else 0;
    }
  }

  /** Every stored node's window is a key. */
  lemma WindowsCover(windows: Windows, nodes: map<Text, Node>, x: Text)
    requires FiledRight(windows, nodes) && x in nodes
    ensures WindowOf(nodes[x].validity) in windows
  {
    hide WindowOf;
    var w := WindowOf(nodes[x].validity);
    var none: seq<Text> := [];
    assert multiset(none)[x] == 0;
    assert multiset(Filed(windows, w))[x] == 1;
  }

  lemma CollectsAll(windows: Windows, t: Instant, ids: seq<Text>, nodes: map<Text, Node>)
    requires FiledRight(windows, nodes) && Collects(windows, t, windows.Keys, ids, nodes)
    ensures forall x :: multiset(ids)[x] == if x in nodes && InRange(WindowOf(nodes[x].validity), t) then 1 else 0
  {
    hide WindowOf, InRange, Filed, FiledRight;
    forall x ensures multiset(ids)[x] == if x in nodes && InRange(WindowOf(nodes[x].validity), t) then 1 else 0 {
      if x in nodes {
        WindowsCover(windows, nodes, x);
      }
    }
  }

  /** The nodes stored for a list of ids, those of them that satisfy `p`. */
  function Fetch(nodes: map<Text, Node>, ids: seq<Text>, p: Node -> bool): seq<Node> {
    if ids == [] then []
    else FetchOne(nodes, ids[0], p) + Fetch(nodes, ids[1..], p)
  }

  lemma {:induction false} FetchCount(nodes: map<Text, Node>, ids: seq<Text>, p: Node -> bool, n: Node)
    requires forall id <- nodes :: nodes[id].id == id
    ensures multiset(Fetch(nodes, ids, p))[n]
         == if n.id in nodes && nodes[n.id] == n && p(n) then multiset(ids)[n.id] else 0
  {
    if ids != [] {
      FetchCount(nodes, ids[1..], p, n);
      Bags.HeadTail(ids);
    }
  }

  function FetchOne(nodes: map<Text, Node>, id: Text, p: Node -> bool): seq<Node> {
    if id in nodes && p(nodes[id]) then [nodes[id]] else []
  }

  lemma FetchCons(nodes: map<Text, Node>, ids: seq<Text>, p: Node -> bool)
    requires ids != []
    ensures Fetch(nodes, ids, p) == FetchOne(nodes, ids[0], p) + Fetch(nodes, ids[1..], p)
  {
  }

  lemma NodesAssociate(a: seq<Node>, b: seq<Node>, c: seq<Node>)
    ensures a + (b + c) == a + b + c
  {
  }

  lemma FetchNothing(nodes: map<Text, Node>, p: Node -> bool)
    ensures Fetch(nodes, [], p) == []
  {
  }

  lemma {:induction false} FetchConcat(nodes: map<Text, Node>, a: seq<Text>, b: seq<Text>, p: Node -> bool)
    ensures Fetch(nodes, a + b, p) == Fetch(nodes, a, p) + Fetch(nodes, b, p)
  {
    hide *;
    if a == [] {
      FetchNothing(nodes, p);
      assert a + b == b;
    } else {
      FetchConcat(nodes, a[1..], b, p);
      assert (a + b)[1..] == a[1..] + b;
      FetchCons(nodes, a, p);
      FetchCons(nodes, a + b, p);
      NodesAssociate(FetchOne(nodes, a[0], p), Fetch(nodes, a[1..], p), Fetch(nodes, b, p));
    }
  }

  /** `lookup_valid_at`: whatever order the ids come in, exactly the active nodes valid at `t`, once each, although
      the index rounds both ends of a window down to whole seconds. */
  lemma ValidAtExact(windows: Windows, nodes: map<Text, Node>, t: Instant, ids: seq<Text>, n: Node)
    requires FiledRight(windows, nodes) && forall id <- nodes :: nodes[id].id == id
    requires Collects(windows, t, windows.Keys, ids, nodes)
    ensures multiset(Fetch(nodes, ids, (m: Node) => Holds(m, t)))[n]
         == if && n.id in nodes && nodes[n.id] == n && n.status == Active
               && (n.validity.Window? ==>
                     n.validity.from <= t && (n.validity.until.Some? ==> t < n.validity.until.value)) then 1 else 0
  {
    HoldsIs(n, t);
    hide *;
    CollectsAll(windows, t, ids, nodes);
    FetchCount(nodes, ids, (m: Node) => Holds(m, t), n);
    HoldsInRange(n, t);
  }

  lemma HoldsIs(n: Node, t: Instant)
    ensures Holds(n, t)
       <==> n.status == Active
            && (n.validity.Window? ==>
                  n.validity.from <= t && (n.validity.until.Some? ==> t < n.validity.until.value))
  {
  }

  lemma HoldsInRange(n: Node, t: Instant)
    ensures Holds(n, t) ==> InRange(WindowOf(n.validity), t)
  {
    if Holds(n, t) {
      ValidInRange(n.validity, t);
    }
  }

  /** Nodes are stored under their own ids. */
  lemma OwnIds(s: State)
    requires Indexed(s)
    ensures forall id <- s.nodes :: s.nodes[id].id == id
  {
    hide AddAllDeps, AddAllWindows, LoggedFrom;
    var order :| BuiltFrom(s, order);
    forall id | id in s.nodes ensures s.nodes[id].id == id {
      var n: Node :| n in order && n.id == id;
      assert SameFacts(n, s.nodes[n.id]);
    }
  }

  // ----- the scans -----

  lemma ScanConcat(a: seq<Entry>, b: seq<Entry>, family: Family, prefix: Text)
    ensures Scan(a + b, family, prefix) == Scan(a, family, prefix) + Scan(b, family, prefix)
  {
    var p := (e: Entry) => e.family == family && StartsWith(e.key, EncodePrefix(prefix));
    Bags.FilterConcat(p, a, b);
    IdsOfConcat(Met(a, family, EncodePrefix(prefix)), Met(b, family, EncodePrefix(prefix)));
    hide StartsWith, EncodePrefix, IdsOf;
  }

  ghost predicate AllFor(es: seq<Entry>, id: Text) {
    forall e <- es :: e.id == id
  }

  lemma OpsAreForNode(n: Node, head: Text)
    ensures AllFor(IndexOps(n, head), n.id)
  {
    EntriesAreFor(Entities(n.pred), n.id);
    hide EntityEntries, Entities;
  }

  lemma {:induction false} EntriesAreFor(names: seq<Text>, id: Text)
    ensures AllFor(EntityEntries(names, id), id)
  {
    if names != [] {
      EntriesAreFor(names[1..], id);
    }
  }

  lemma {:induction false} ScanAllFor(es: seq<Entry>, id: Text, family: Family, prefix: Text, x: Text)
    requires AllFor(es, id) && x != id
    ensures multiset(Scan(es, family, prefix))[x] == 0
  {
    if es != [] {
      ScanAllFor(es[1..], id, family, prefix, x);
      assert es == [es[0]] + es[1..];
      ScanConcat([es[0]], es[1..], family, prefix);
      OneEntry(es[0], family, prefix);
      hide Scan;
    } else {
      EmptyScan(family, prefix);
    }
  }

  lemma EmptyScan(family: Family, prefix: Text)
    ensures Scan([], family, prefix) == []
  {
  }

  lemma OneEntry(e: Entry, family: Family, prefix: Text)
    ensures Scan([e], family, prefix)
         == if e.family == family && StartsWith(e.key, EncodePrefix(prefix)) then [e.id] else []
  {
    hide StartsWith, EncodePrefix;
    assert [e][1..] == [];
    IdsOfCons(e, []);
    assert [e] + [] == [e];
    var p := (e: Entry) => e.family == family && StartsWith(e.key, EncodePrefix(prefix));
    assert Bags.Filter(p, []) == [];
  }

  /** How often a scan of the whole log lists a stored node: as often as a scan of the node's own entries. */
  lemma {:induction false} ScanCount(
      ns: seq<Node>, heads: seq<Text>, nodes: map<Text, Node>, family: Family, prefix: Text,
      x: Text) returns (head: Text)
    requires Lists(ns, nodes) && HeadsFor(ns, heads)
    ensures x in nodes ==>
              && (nodes[x].pred.head.Name? ==> head == nodes[x].pred.head.name)
              && multiset(Scan(AllOps(ns, heads), family, prefix))[x]
                 == multiset(Scan(IndexOps(nodes[x], head), family, prefix))[x]
    ensures x !in nodes ==> multiset(Scan(AllOps(ns, heads), family, prefix))[x] == 0
  {
    head := [];
    hide Lists, Scan, IndexOps;
    if ns == [] {
      ListsNothing(nodes);
      EmptyScan(family, prefix);
    } else {
      var last, lastHead := ns[|ns| - 1], heads[|ns| - 1];
      ListsLess(ns, nodes);
      head := ScanCount(ns[..|ns| - 1], heads[..|ns| - 1], nodes - {last.id}, family, prefix, x);
      ScanConcat(AllOps(ns[..|ns| - 1], heads[..|ns| - 1]), IndexOps(last, lastHead), family, prefix);
      if x == last.id {
        head := lastHead;
        SameOps(last, nodes[x], lastHead);
      } else {
        OpsAreForNode(last, lastHead);
        ScanAllFor(IndexOps(last, lastHead), last.id, family, prefix, x);
      }
    }
  }

  lemma SameOps(a: Node, b: Node, head: Text)
    requires SameFacts(a, b)
    ensures IndexOps(a, head) == IndexOps(b, head) && a.pred == b.pred
  {
  }

  /** How many of the names, counted as often as they occur, a scan for the prefix meets under the id. */
  function Meeting(names: seq<Text>, id: Text, prefix: Text): nat {
    if names == [] then 0 else (if Meets(names[0], id, prefix) then 1 else 0) + Meeting(names[1..], id, prefix)
  }

  lemma ScanCons(e: Entry, es: seq<Entry>, family: Family, prefix: Text)
    ensures Scan([e] + es, family, prefix)
         == (if e.family == family && StartsWith(e.key, EncodePrefix(prefix)) then [e.id] else [])
            + Scan(es, family, prefix)
  {
    hide *;
    ScanConcat([e], es, family, prefix);
    OneEntry(e, family, prefix);
  }

  lemma {:induction false} EntityScan(names: seq<Text>, id: Text, family: Family, prefix: Text)
    ensures family != ByEntity ==> Scan(EntityEntries(names, id), family, prefix) == []
    ensures family == ByEntity ==>
              multiset(Scan(EntityEntries(names, id), family, prefix))[id] == Meeting(names, id, prefix)
  {
    hide Scan, StartsWith, EncodePrefix, EncodeKey;
    if names == [] {
      EmptyScan(family, prefix);
    } else {
      EntityScan(names[1..], id, family, prefix);
      ScanCons(EntryFor(ByEntity, names[0], id), EntityEntries(names[1..], id), family, prefix);
    }
  }

  /** What a node is filed under in the families that file it once. */
  function FiledUnder(n: Node, head: Text, family: Family): Text
    requires family != ByEntity
  {
    match family
    case ByPred => head
    case BySrc => SourceKey(n.provenance)
    case ByPerm => BigEndian(n.permissions)
  }

  lemma FixedScan(n: Node, head: Text, family: Family, prefix: Text)
    ensures family == ByEntity ==> Scan(FixedEntries(n, head), family, prefix) == []
    ensures family != ByEntity ==>
              Scan(FixedEntries(n, head), family, prefix)
              == if Meets(FiledUnder(n, head, family), n.id, prefix) then [n.id] else []
  {
    hide Scan, StartsWith, EncodePrefix, EncodeKey, SourceKey, BigEndian;
    var p, s, m := EntryFor(ByPred, head, n.id), EntryFor(BySrc, SourceKey(n.provenance), n.id),
                   EntryFor(ByPerm, BigEndian(n.permissions), n.id);
    assert FixedEntries(n, head) == [p] + [s] + [m];
    ScanConcat([p] + [s], [m], family, prefix);
    ScanConcat([p], [s], family, prefix);
    OneEntry(p, family, prefix);
    OneEntry(s, family, prefix);
    OneEntry(m, family, prefix);
  }

  /** How often a scan lists a node: it depends on the node alone, but for the name its head had in the registry. */
  function OwnCount(n: Node, head: Text, family: Family, prefix: Text): nat {
    if family == ByEntity then Meeting(Entities(n.pred), n.id, prefix)
    else if Meets(FiledUnder(n, head, family), n.id, prefix) then 1
    else 0
  }

  lemma OwnScan(n: Node, head: Text, family: Family, prefix: Text)
    ensures multiset(Scan(IndexOps(n, head), family, prefix))[n.id] == OwnCount(n, head, family, prefix)
  {
    hide Scan, Meets, Entities, EntityEntries, FixedEntries, FiledUnder, Meeting;
    ScanConcat(EntityEntries(Entities(n.pred), n.id), FixedEntries(n, head), family, prefix);
    EntityScan(Entities(n.pred), n.id, family, prefix);
    FixedScan(n, head, family, prefix);
  }

  /** The scan of a reachable store's log, node by node. */
  lemma StoreScan(s: State, family: Family, prefix: Text, x: Text) returns (head: Text)
    requires Indexed(s)
    ensures x in s.nodes ==>
              && (s.nodes[x].pred.head.Name? ==> head == s.nodes[x].pred.head.name)
              && s.nodes[x].id == x
              && multiset(Scan(s.log, family, prefix))[x]
                 == multiset(Scan(IndexOps(s.nodes[x], head), family, prefix))[x]
    ensures x !in s.nodes ==> multiset(Scan(s.log, family, prefix))[x] == 0
  {
    hide Lists, BuiltFrom, AllOps, IndexOps, Scan;
    OwnIds(s);
    var order :| LoggedFrom(s, order);
    var heads :| HeadsFor(order, heads) && s.log == AllOps(order, heads);
    head := ScanCount(order, heads, s.nodes, family, prefix, x);
  }

  /** A node with a named head is listed exactly once under its head. */
  lemma HeadScan(s: State, x: Text)
    requires Indexed(s) && x in s.nodes && s.nodes[x].pred.head.Name?
    ensures multiset(Scan(s.log, ByPred, s.nodes[x].pred.head.name))[x] == 1
  {
    hide Indexed, Scan, IndexOps, Meets;
    var head := StoreScan(s, ByPred, s.nodes[x].pred.head.name, x);
    OwnScan(s.nodes[x], head, ByPred, s.nodes[x].pred.head.name);
    MeetsItself(head, x);
  }

  lemma MeetsItself(name: Text, id: Text)
    ensures Meets(name, id, name)
  {
    assert EncodeKey(name, id)[..|name| + 1] == EncodePrefix(name);
  }

  /** A scan for an entity lists a stored node exactly as often as the node names, outside compounds' named arguments,
      something the scan meets; `MeetsExactly` says for all texts what that is. */
  lemma EntityLookup(s: State, entity: Text, x: Text)
    requires Indexed(s)
    ensures multiset(Scan(s.log, ByEntity, entity))[x]
         == if x in s.nodes then Meeting(Entities(s.nodes[x].pred), x, entity) else 0
  {
    hide Indexed, Scan, IndexOps, Entities, Meeting;
    var head := StoreScan(s, ByEntity, entity, x);
    if x in s.nodes {
      OwnScan(s.nodes[x], head, ByEntity, entity);
    }
  }

  lemma {:induction false} MeetingAtLeast(names: seq<Text>, id: Text, entity: Text)
    ensures Meeting(names, id, entity) >= multiset(names)[entity]
    ensures Meeting(names, id, entity) == multiset(names)[entity]
       <==> forall name <- names :: Meets(name, id, entity) ==> name == entity
  {
    hide Meets;
    if names != [] {
      MeetingAtLeast(names[1..], id, entity);
      MeetsItself(entity, id);
      Bags.HeadTail(names);
      assert names == [names[0]] + names[1..];
    }
  }

  lemma {:induction false} MeetingAny(names: seq<Text>, id: Text, entity: Text)
    ensures Meeting(names, id, entity) > 0 <==> exists name :: name in names && Meets(name, id, entity)
  {
    hide Meets;
    if names != [] {
      MeetingAny(names[1..], id, entity);
      assert names == [names[0]] + names[1..];
    }
  }

  // ----- which entities are indexed -----

  /** The entity stands in the term, at the end of a path through lists and the positional arguments of compounds. */
  ghost predicate StandsIn(entity: Text, t: Term, path: seq<nat>)
    decreases |path|
  {
    if path == [] then t == Ent(entity)
    else
      match t
      case Compound(p) => path[0] < |p.args| && StandsIn(entity, p.args[path[0]], path[1..])
      case List(items) => path[0] < |items| && StandsIn(entity, items[path[0]], path[1..])
      case _ => false
  }

  ghost predicate Stands(entity: Text, t: Term) {
    exists path :: StandsIn(entity, t, path)
  }

  ghost predicate StandsInSome(entity: Text, ts: seq<Term>) {
    exists i: nat, path: seq<nat> :: PlacedAt(entity, ts, i, path)
  }

  ghost predicate PlacedAt(entity: Text, ts: seq<Term>, i: nat, path: seq<nat>) {
    i < |ts| && StandsIn(entity, ts[i], path)
  }

  function Values(named: seq<NamedArg>): (ts: seq<Term>)
    ensures |ts| == |named| && forall i :: 0 <= i < |ts| ==> ts[i] == named[i].value
  {
    if named == [] then [] else [named[0].value] + Values(named[1..])
  }

  /** It stands in an argument, positional or named. */
  ghost predicate Mentioned(entity: Text, p: Predicate) {
    StandsInSome(entity, p.args) || StandsInSome(entity, Values(p.named))
  }

  /** A path into a compound or a list goes through one of its arguments or items. */
  lemma StandsInside(entity: Text, t: Term, ts: seq<Term>)
    requires (t.Compound? && ts == t.pred.args) || (t.List? && ts == t.items)
    ensures Stands(entity, t) <==> StandsInSome(entity, ts)
  {
    if path :| StandsIn(entity, t, path) {
      assert PlacedAt(entity, ts, path[0], path[1..]);
    }
    if i: nat, path: seq<nat> :| PlacedAt(entity, ts, i, path) {
      var longer: seq<nat> := [i] + path;
      assert longer[0] == i && longer[1..] == path;
      assert StandsIn(entity, t, longer);
    }
  }

  lemma StandsLeaf(entity: Text, t: Term)
    requires !t.Compound? && !t.List?
    ensures Stands(entity, t) <==> t == Ent(entity)
  {
    var none: seq<nat> := [];
    assert t == Ent(entity) ==> StandsIn(entity, t, none);
  }

  lemma StandsInCons(entity: Text, t: Term, ts: seq<Term>)
    ensures StandsInSome(entity, [t] + ts) <==> Stands(entity, t) || StandsInSome(entity, ts)
    ensures !StandsInSome(entity, [])
  {
    hide StandsIn;
    var all := [t] + ts;
    if i: nat, path: seq<nat> :| PlacedAt(entity, all, i, path) {
      if i > 0 {
        assert PlacedAt(entity, ts, i - 1, path);
      }
    }
    if Stands(entity, t) {
      var path :| StandsIn(entity, t, path);
      assert PlacedAt(entity, all, 0, path);
    }
    if i: nat, path: seq<nat> :| PlacedAt(entity, ts, i, path) {
      assert PlacedAt(entity, all, i + 1, path);
    }
  }

  lemma {:induction false} TermEntitiesAre(t: Term, entity: Text)
    ensures entity in TermEntities(t) <==> Stands(entity, t)
    decreases t
  {
    hide Stands, StandsInSome;
    match t
    case Compound(p) =>
      ArgEntitiesAre(p.args, entity);
      StandsInside(entity, t, p.args);
    case List(items) =>
      ArgEntitiesAre(items, entity);
      StandsInside(entity, t, items);
    case _ =>
      StandsLeaf(entity, t);
  }

  lemma {:induction false} ArgEntitiesAre(args: seq<Term>, entity: Text)
    ensures entity in ArgEntities(args) <==> StandsInSome(entity, args)
    decreases args
  {
    hide Stands, StandsInSome, TermEntities;
    if args == [] {
      StandsInCons(entity, Ent(entity), []);
    } else {
      TermEntitiesAre(args[0], entity);
      ArgEntitiesAre(args[1..], entity);
      StandsInCons(entity, args[0], args[1..]);
      assert args == [args[0]] + args[1..];
    }
  }

  lemma {:induction false} NamedEntitiesAre(named: seq<NamedArg>, entity: Text)
    ensures entity in NamedEntities(named) <==> StandsInSome(entity, Values(named))
  {
    hide Stands, StandsInSome, TermEntities;
    if named == [] {
      StandsInCons(entity, Ent(entity), []);
    } else {
      TermEntitiesAre(named[0].value, entity);
      NamedEntitiesAre(named[1..], entity);
      StandsInCons(entity, named[0].value, Values(named[1..]));
    }
  }

  /** The entities indexed for a predicate are those that stand in it outside compounds' named arguments. */
  lemma EntitiesAre(p: Predicate, entity: Text)
    ensures entity in Entities(p) <==> Mentioned(entity, p)
  {
    ArgEntitiesAre(p.args, entity);
    NamedEntitiesAre(p.named, entity);
    hide StandsInSome, ArgEntities, NamedEntities, Values;
  }

  /** How often an entity stands in a term. */
  ghost function Times(entity: Text, t: Term): nat
    decreases t
  {
    match t
    case Ent(e) => if e == entity then 1 else 0
    case Compound(p) => TimesIn(entity, p.args)
    case List(items) => TimesIn(entity, items)
    case _ => 0
  }

  ghost function TimesIn(entity: Text, ts: seq<Term>): nat
    decreases ts
  {
    if ts == [] then 0 else TimesIn(entity, ts[..|ts| - 1]) + Times(entity, ts[|ts| - 1])
  }

  ghost function TimesNamed(entity: Text, named: seq<NamedArg>): nat {
    if named == [] then 0 else Times(entity, named[0].value) + TimesNamed(entity, named[1..])
  }

  lemma {:induction false} TimesConcat(entity: Text, t: Term, ts: seq<Term>)
    ensures TimesIn(entity, [t] + ts) == Times(entity, t) + TimesIn(entity, ts)
    decreases ts
  {
    hide Times;
    if ts == [] {
      assert [t] + ts == [t] && [t][..0] == [];
    } else {
      TimesConcat(entity, t, ts[..|ts| - 1]);
      assert ([t] + ts)[..|ts|] == [t] + ts[..|ts| - 1];
    }
  }

  lemma {:induction false} TermEntitiesCount(t: Term, entity: Text)
    ensures multiset(TermEntities(t))[entity] == Times(entity, t)
    decreases t
  {
    match t
    case Compound(p) => ArgEntitiesCount(p.args, entity);
    case List(items) => ArgEntitiesCount(items, entity);
    case _ =>
  }

  lemma {:induction false} ArgEntitiesCount(args: seq<Term>, entity: Text)
    ensures multiset(ArgEntities(args))[entity] == TimesIn(entity, args)
    decreases args
  {
    if args != [] {
      TermEntitiesCount(args[0], entity);
      ArgEntitiesCount(args[1..], entity);
      TimesConcat(entity, args[0], args[1..]);
      assert args == [args[0]] + args[1..];
    }
  }

  lemma {:induction false} NamedEntitiesCount(named: seq<NamedArg>, entity: Text)
    ensures multiset(NamedEntities(named))[entity] == TimesNamed(entity, named)
  {
    if named != [] {
      TermEntitiesCount(named[0].value, entity);
      NamedEntitiesCount(named[1..], entity);
    }
  }

  lemma EntitiesCount(p: Predicate, entity: Text)
    ensures multiset(Entities(p))[entity] == TimesIn(entity, p.args) + TimesNamed(entity, p.named)
  {
    ArgEntitiesCount(p.args, entity);
    NamedEntitiesCount(p.named, entity);
    hide ArgEntities, NamedEntities, TimesIn, TimesNamed;
  }

  /** Among zero-free names, `lookup_by_entity`'s scan lists a stored node as often as the entity stands in its
      predicate, in lists and in compounds' positional arguments too. */
  lemma EntityLookupTimes(s: State, entity: Text, x: Text)
    requires Indexed(s) && x in s.nodes
    requires ZeroFree(entity) && forall name <- Entities(s.nodes[x].pred) :: ZeroFree(name)
    ensures multiset(Scan(s.log, ByEntity, entity))[x]
         == TimesIn(entity, s.nodes[x].pred.args) + TimesNamed(entity, s.nodes[x].pred.named)
  {
    hide *;
    EntityLookup(s, entity, x);
    ZeroFreeMeeting(Entities(s.nodes[x].pred), x, entity);
    EntitiesCount(s.nodes[x].pred, entity);
  }

  /** The scan is exact for a node, listing it as often as it names the entity, exactly when the node names nothing else
      the scan meets. */
  lemma EntityLookupExact(s: State, entity: Text, x: Text)
    requires Indexed(s) && x in s.nodes
    ensures multiset(Scan(s.log, ByEntity, entity))[x] == multiset(Entities(s.nodes[x].pred))[entity]
       <==> forall name <- Entities(s.nodes[x].pred) :: Meets(name, x, entity) ==> name == entity
  {
    hide Indexed, Scan, Entities, Meets, Meeting;
    EntityLookup(s, entity, x);
    MeetingAtLeast(Entities(s.nodes[x].pred), x, entity);
  }

  /** Among zero-free names nothing else is met. */
  lemma ZeroFreeMeets(name: Text, id: Text, prefix: Text)
    requires ZeroFree(prefix) && ZeroFree(name)
    ensures Meets(name, id, prefix) <==> name == prefix
  {
    MeetsExactly(name, id, prefix);
    ZeroInside(prefix, name);
    ZeroInside(name, prefix);
    hide StartsWith, EncodeKey, EncodePrefix, Meets;
  }

  lemma ZeroFreeMeeting(names: seq<Text>, id: Text, entity: Text)
    requires ZeroFree(entity) && forall name <- names :: ZeroFree(name)
    ensures Meeting(names, id, entity) == multiset(names)[entity]
  {
    hide Meets, ZeroFree, Meeting;
    MeetingAtLeast(names, id, entity);
    forall name | name in names ensures Meets(name, id, entity) ==> name == entity {
      ZeroFreeMeets(name, id, entity);
    }
  }

  /** `lookup_by_doc`: the scan lists a node once if it meets the node's source and never otherwise. */
  lemma SourceLookup(s: State, doc: Text, x: Text)
    requires Indexed(s)
    ensures multiset(Scan(s.log, BySrc, doc))[x]
         == if x in s.nodes && Meets(SourceKey(s.nodes[x].provenance), x, doc) then 1 else 0
  {
    hide Indexed, Scan, IndexOps, Meets, SourceKey;
    var head := StoreScan(s, BySrc, doc, x);
    if x in s.nodes {
      OwnScan(s.nodes[x], head, BySrc, doc);
    }
  }

  /** `lookup_by_doc` for zero-free names: the document of a citation, the node something was derived from, or the
      principal who asserted it. */
  lemma SourceLookupExact(s: State, doc: Text, x: Text)
    requires Indexed(s) && x in s.nodes && ZeroFree(doc) && ZeroFree(SourceKey(s.nodes[x].provenance))
    ensures multiset(Scan(s.log, BySrc, doc))[x]
         == match s.nodes[x].provenance
            case Verbatim(d, _) => if d == doc then 1 else 0
            case Summary(d, _) => if d == doc then 1 else 0
            case Extracted(d, _, _, _) => if d == doc then 1 else 0
            case Derived(from, _) => if from == doc then 1 else 0
            case Asserted(who) => if who == doc then 1 else 0
  {
    SourceLookup(s, doc, x);
    ZeroFreeMeets(SourceKey(s.nodes[x].provenance), x, doc);
    hide Indexed, Scan, Meets, ZeroFree;
  }

  lemma Bytes(n: int)
    requires 0 <= n
    ensures n == 0x1000000 * (n / 0x1000000) + 0x10000 * (n / 0x10000 % 256) + 0x100 * (n / 0x100 % 256) + n % 256
  {
    Quotient(n / 0x10000, 0x100, n);
    Quotient(n / 0x100, 0x100, n);
    assert n / 0x10000 / 256 == n / 0x1000000;
    assert n / 0x100 / 256 == n / 0x10000;
  }

  lemma Quotient(q: int, d: int, n: int)
    requires d > 0
    ensures q == d * (q / d) + q % d
  {
  }

  lemma BigEndianInjective(a: bv32, b: bv32)
    requires BigEndian(a) == BigEndian(b)
    ensures a == b
  {
    SameBytes(a as int, b as int, BigEndian(a), BigEndian(b));
    assert (a as int) as bv32 == (b as int) as bv32;
  }

  lemma SameBytes(m: int, n: int, s: Text, t: Text)
    requires 0 <= m < 0x1_0000_0000 && 0 <= n < 0x1_0000_0000 && s == t
    requires s == [(m / 0x1000000) as char, (m / 0x10000 % 256) as char, (m / 0x100 % 256) as char, (m % 256) as char]
    requires t == [(n / 0x1000000) as char, (n / 0x10000 % 256) as char, (n / 0x100 % 256) as char, (n % 256) as char]
    ensures m == n
  {
    Bytes(m);
    Bytes(n);
    assert s[0] == t[0] && s[1] == t[1] && s[2] == t[2] && s[3] == t[3];
  }

  /** A scan of the permission index returns exactly the nodes that carry the tag, whatever bytes it has. */
  lemma PermissionLookup(s: State, tag: bv32, x: Text)
    requires Indexed(s)
    ensures multiset(Scan(s.log, ByPerm, BigEndian(tag)))[x]
         == if x in s.nodes && s.nodes[x].permissions == tag then 1 else 0
  {
    hide Indexed, Scan, IndexOps, Meets, BigEndian;
    var head := StoreScan(s, ByPerm, BigEndian(tag), x);
    if x in s.nodes {
      OwnScan(s.nodes[x], head, ByPerm, BigEndian(tag));
      MeetsTag(s.nodes[x].permissions, x, tag);
    }
  }

  lemma MeetsTag(stored: bv32, id: Text, tag: bv32)
    ensures Meets(BigEndian(stored), id, BigEndian(tag)) <==> stored == tag
  {
    hide BigEndian;
    ScanSeparates(BigEndian(tag), BigEndian(stored), id);
    if BigEndian(stored) == BigEndian(tag) {
      BigEndianInjective(stored, tag);
    }
  }

  // ----- every run -----

  /** What the indices answer after every run from an empty store, by the stored nodes alone: which nodes depend on `k`,
      which are filed under each window, and how often a scan for `k` lists `x`. */
  lemma EveryRunAnswers(ops: seq<Op>, k: Text, x: Text)
    ensures Indexed(RunOps(EMPTY, ops)) && FiledRight(RunOps(EMPTY, ops).byValidity, RunOps(EMPTY, ops).nodes)
    ensures x in Cascade.Dependents(RunOps(EMPTY, ops).depsRev, k)
       <==> x in RunOps(EMPTY, ops).nodes && k in RunOps(EMPTY, ops).nodes[x].deps
    ensures multiset(Scan(RunOps(EMPTY, ops).log, ByEntity, k))[x]
         == if x in RunOps(EMPTY, ops).nodes then Meeting(Entities(RunOps(EMPTY, ops).nodes[x].pred), x, k) else 0
    ensures multiset(Scan(RunOps(EMPTY, ops).log, BySrc, k))[x]
         == if x in RunOps(EMPTY, ops).nodes && Meets(SourceKey(RunOps(EMPTY, ops).nodes[x].provenance), x, k) then 1
            else 0
  {
    hide *;
    var s := RunOps(EMPTY, ops);
    EveryRunConsistent(ops);
    ConsistentIndexed(s);
    IndexedFiles(s);
    DependentsAre(s, k, x);
    EntityLookup(s, k, x);
    SourceLookup(s, k, x);
  }

  // ----- reopening -----

  /** `with_backend` on a stored database: nodes and index entries are what was stored, `rebuild_indices` goes over
      the nodes in whatever order the backend lists them, and the write-ahead log starts empty. */
  function Reopen(s: State, order: seq<Node>): State {
    State(s.nodes, s.log, AddAllDeps(map[], order), AddAllWindows(map[], order), [])
  }

  /** Rebuilt and incrementally kept indices list the same ids equally often under every key. */
  lemma RestartSameIndices(s: State, order: seq<Node>, k: Text, w: Window)
    requires Indexed(s) && Lists(order, s.nodes)
    ensures Bags.Permutes(Cascade.Dependents(Reopen(s, order).depsRev, k), Cascade.Dependents(s.depsRev, k))
    ensures Bags.Permutes(Filed(Reopen(s, order).byValidity, w), Filed(s.byValidity, w))
  {
    hide Lists, LoggedFrom, AddAllDeps, AddAllWindows, Cascade.Dependents, Filed, WindowOf;
    var before :| BuiltFrom(s, before);
    forall x
      ensures multiset(Cascade.Dependents(Reopen(s, order).depsRev, k))[x]
           == multiset(Cascade.Dependents(s.depsRev, k))[x]
    {
      DependentsCount(before, s.nodes, k, x);
      DependentsCount(order, s.nodes, k, x);
    }
    forall x ensures multiset(Filed(Reopen(s, order).byValidity, w))[x] == multiset(Filed(s.byValidity, w))[x] {
      FiledCount(before, s.nodes, w, x);
      FiledCount(order, s.nodes, w, x);
    }
  }

  /** A reopened store is as well indexed as the one that was closed. */
  lemma ReopenKeeps(s: State, order: seq<Node>)
    requires Lists(order, s.nodes) && exists put :: LoggedFrom(s, put)
    ensures Indexed(Reopen(s, order))
  {
    hide Lists, Logged, AddAllDeps, AddAllWindows;
    var t := Reopen(s, order);
    assert BuiltFrom(t, order);
    var put :| LoggedFrom(s, put);
    assert LoggedFrom(t, put);
  }

  lemma ReopenedFiles(s: State, order: seq<Node>)
    requires Lists(order, s.nodes)
    ensures FiledRight(Reopen(s, order).byValidity, s.nodes)
  {
    hide Lists, AddAllDeps, AddAllWindows, Filed, WindowOf;
    forall w, x ensures multiset(Filed(Reopen(s, order).byValidity, w))[x]
                     == if x in s.nodes && WindowOf(s.nodes[x].validity) == w then 1 else 0 {
      FiledCount(order, s.nodes, w, x);
    }
  }

  /** A cascade on the reopened store truncates alike and, untruncated, retracts the same set of nodes. */
  lemma RestartSameCascade(s: State, order: seq<Node>, root: Text, max: nat)
    requires Indexed(s) && Lists(order, s.nodes)
    requires root in s.nodes && max >= 1 && s.nodes[root].status != Retracted
    ensures var r, again := Cascade.Run(s.nodes, s.depsRev, root, max),
                            Cascade.Run(s.nodes, Reopen(s, order).depsRev, root, max);
            && r.truncated == again.truncated
            && (!r.truncated ==>
                  Cascade.Elements(r.retracted) == Cascade.Elements(again.retracted) && r.nodes == again.nodes)
  {
    hide *;
    forall k, d
      ensures d in Cascade.Dependents(s.depsRev, k) <==> d in Cascade.Dependents(Reopen(s, order).depsRev, k)
    {
      RestartSameIndices(s, order, k, (0, 0));
      SameMembers(Cascade.Dependents(s.depsRev, k), Cascade.Dependents(Reopen(s, order).depsRev, k), d);
    }
    Cascade.RunOrderIndependent(s.nodes, s.depsRev, Reopen(s, order).depsRev, root, max);
  }

  lemma SameMembers(a: seq<Text>, b: seq<Text>, d: Text)
    requires Bags.Permutes(b, a)
    ensures d in a <==> d in b
  {
    assert d in a <==> d in multiset(a);
    assert d in b <==> d in multiset(b);
  }

  /** `lookup_valid_at` answers alike on both sides of a restart. */
  lemma RestartSameValidAt(s: State, order: seq<Node>, t: Instant, ids: seq<Text>, again: seq<Text>)
    requires Indexed(s) && Lists(order, s.nodes)
    requires Collects(s.byValidity, t, s.byValidity.Keys, ids, s.nodes)
    requires Collects(Reopen(s, order).byValidity, t, Reopen(s, order).byValidity.Keys, again, s.nodes)
    ensures Bags.Permutes(
              Fetch(s.nodes, ids, (m: Node) => Holds(m, t)), Fetch(s.nodes, again, (m: Node) => Holds(m, t)))
  {
    hide *;
    OwnIds(s);
    IndexedFiles(s);
    ReopenedFiles(s, order);
    var a, b := Fetch(s.nodes, ids, (m: Node) => Holds(m, t)), Fetch(s.nodes, again, (m: Node) => Holds(m, t));
    forall n ensures multiset(a)[n] == multiset(b)[n] {
      ValidAtExact(s.byValidity, s.nodes, t, ids, n);
      ValidAtExact(Reopen(s, order).byValidity, s.nodes, t, again, n);
    }
    SameCounts(a, b);
  }

  lemma SameCounts(a: seq<Node>, b: seq<Node>)
    requires forall n :: multiset(a)[n] == multiset(b)[n]
    ensures Bags.Permutes(a, b)
  {
  }
}
