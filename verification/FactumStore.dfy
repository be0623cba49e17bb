/** The store object of `factum-rt/src/store.rs`. Its fields are the program's; `State` gives their abstract value
    and every method is proved to do to it what `Store` says. */
module FactumStore {
  import opened Types
  import opened Serialize
  import opened Storage
  import opened Store
  import opened Lookup
  import Bags
  import Cascade

  predicate IsActive(n: Node) {
    n.status == Status.Active
  }

  lemma AddDepsStep(edges: Cascade.Edges, deps: seq<Text>, id: Text, i: nat)
    requires i < |deps|
    ensures AddDeps(edges, deps[i..], id)
         == AddDeps(edges[deps[i] := Cascade.Dependents(edges, deps[i]) + [id]], deps[i + 1..], id)
  {
    assert deps[i..][0] == deps[i] && deps[i..][1..] == deps[i + 1..];
  }

  lemma NoDepsLeft(edges: Cascade.Edges, deps: seq<Text>, id: Text)
    ensures AddDeps(edges, deps[|deps|..], id) == edges && deps[0..] == deps
  {
  }

  lemma FailureStep(verifier: Option<Verifier>, ns: seq<Node>, i: nat)
    requires i < |ns|
    ensures FirstFailure(verifier, ns[i..])
         == if Verdict(verifier, ns[i]).Some? then Verdict(verifier, ns[i]) else FirstFailure(verifier, ns[i + 1..])
  {
    assert ns[i..][0] == ns[i] && ns[i..][1..] == ns[i + 1..];
  }

  lemma DuplicateStep(taken: set<Text>, ns: seq<Node>, i: nat)
    requires i < |ns|
    ensures FirstDuplicate(taken, ns[i..])
         == if ns[i].id in taken then Some(ns[i].id) else FirstDuplicate(taken + {ns[i].id}, ns[i + 1..])
  {
    assert ns[i..][0] == ns[i] && ns[i..][1..] == ns[i + 1..];
  }

  lemma NothingLeft(verifier: Option<Verifier>, taken: set<Text>, ns: seq<Node>)
    ensures FirstFailure(verifier, ns[|ns|..]).None? && FirstDuplicate(taken, ns[|ns|..]).None? && ns[0..] == ns
  {
  }

  lemma BatchStep(ns: seq<Node>, i: nat, nodes: map<Text, Node>, registry: Registry)
    requires i < |ns|
    ensures PutAll(nodes, ns[..i + 1]) == PutAll(nodes, ns[..i])[ns[i].id := ns[i]]
    ensures BatchOps(ns[..i + 1], registry)
         == BatchOps(ns[..i], registry) + IndexOps(ns[i], HeadKey(registry, ns[i].pred.head))
  {
    hide IndexOps, HeadKey;
    assert ns[..i + 1][..i] == ns[..i];
  }

  lemma IndexStep(ns: seq<Node>, i: nat, edges: Cascade.Edges, windows: Windows)
    requires i < |ns|
    ensures AddAllDeps(edges, ns[..i + 1]) == AddDeps(AddAllDeps(edges, ns[..i]), ns[i].deps, ns[i].id)
    ensures AddAllWindows(windows, ns[..i + 1]) == AddWindow(AddAllWindows(windows, ns[..i]), ns[i])
    ensures Inserts(ns[..i + 1]) == Inserts(ns[..i]) + [Insert(ns[i])]
  {
    hide AddDeps, AddWindow;
    assert ns[..i + 1][..i] == ns[..i];
  }

  /** The ids retracted beyond the first `n`, as log entries. */
  lemma RetractionsConcat(a: seq<Text>, b: seq<Text>)
    ensures Retractions(a + b) == Retractions(a) + Retractions(b)
  {
    if b == [] {
      assert a + b == a;
    } else {
      RetractionsConcat(a, b[..|b| - 1]);
      assert (a + b)[..|a + b| - 1] == a + b[..|b| - 1];
    }
  }

  lemma NothingAdded(retracted: seq<Text>, wal: seq<WalEntry>)
    ensures retracted == retracted + [] && wal == wal + Retractions([])
  {
  }

  lemma AddedMore(retracted: seq<Text>, wal: seq<WalEntry>, a: seq<Text>, b: seq<Text>)
    ensures retracted + a + b == retracted + (a + b)
    ensures wal + Retractions(a) + Retractions(b) == wal + Retractions(a + b)
  {
    RetractionsConcat(a, b);
    hide Retractions;
    WalAssociates(wal, Retractions(a), Retractions(b));
  }

  lemma AddedAfter(retracted: seq<Text>, wal: seq<WalEntry>, id: Text, more: seq<Text>)
    ensures retracted + [id] + more == retracted + ([id] + more)
    ensures wal + [Retract(id)] + Retractions(more) == wal + Retractions([id] + more)
  {
    AddedMore(retracted, wal, [id], more);
    assert [id][..0] == [];
    assert Retractions([id]) == [] + [Retract(id)];
  }

  lemma OwnId(backend: InMemoryBackend, id: Text)
    requires backend.Valid() && id in backend.nodes
    ensures backend.nodes[id].id == id
  {
  }

  lemma RetractUnfolds(w: Cascade.Walk, edges: Cascade.Edges, id: Text, max: nat, depth: nat)
    requires id in w.nodes
    ensures Cascade.Retract(w, edges, id, max, depth)
         == if |w.retracted| >= max then w.(truncated := true)
            else if w.nodes[id].status == Retracted then w.(depthReached := Cascade.Max(w.depthReached, depth))
            else
              Cascade.Visit(Cascade.Walk(Cascade.Mark(w.nodes, id), w.retracted + [id],
                                         Cascade.Max(w.depthReached, depth), w.truncated),
                            edges, Cascade.Dependents(edges, id), max, depth + 1)
  {
  }

  lemma VisitUnfolds(w: Cascade.Walk, edges: Cascade.Edges, ds: seq<Text>, i: nat, max: nat, depth: nat)
    requires i < |ds|
    ensures Cascade.Visit(w, edges, ds[i..], max, depth)
         == if !Cascade.Cascades(w.nodes, ds[i]) then Cascade.Visit(w, edges, ds[i + 1..], max, depth)
            else if |w.retracted| >= max then w.(truncated := true)
            else Cascade.Visit(Cascade.Retract(w, edges, ds[i], max, depth), edges, ds[i + 1..], max, depth)
  {
    hide Cascade.Retract;
    assert ds[i..][0] == ds[i] && ds[i..][1..] == ds[i + 1..];
  }

  lemma VisitEnds(w: Cascade.Walk, edges: Cascade.Edges, ds: seq<Text>, max: nat, depth: nat)
    ensures Cascade.Visit(w, edges, ds[|ds|..], max, depth) == w
  {
  }

  lemma FetchPermutes(nodes: map<Text, Node>, a: seq<Text>, b: seq<Text>, p: Node -> bool)
    requires forall id <- nodes :: nodes[id].id == id
    requires Bags.Permutes(a, b)
    ensures Bags.Permutes(Fetch(nodes, a, p), Fetch(nodes, b, p))
  {
    hide Fetch;
    var s, t := Fetch(nodes, a, p), Fetch(nodes, b, p);
    forall n ensures multiset(s)[n] == multiset(t)[n] {
      FetchCount(nodes, a, p, n);
      FetchCount(nodes, b, p, n);
    }
    SameCounts(s, t);
  }

  /** `t` is what reopening the stored part of `s` gives, for some order of its nodes. */
  ghost predicate Reopens(s: State, order: seq<Node>, t: State) {
    Lists(order, s.nodes) && t == Reopen(s, order)
  }

  class FactumStore {
    const backend: InMemoryBackend
    var depsRev: Cascade.Edges
    var byValidity: Windows
    var wal: seq<WalEntry>
    var registry: Registry
    var verifier: Option<Verifier>

    /** Every index is the one of the stored nodes. */
    ghost predicate Valid()
      reads this, backend
    {
      backend.Valid() && Indexed(Value())
    }

    ghost function Value(): State
      reads this, backend
    {
      State(backend.nodes, backend.log, depsRev, byValidity, wal)
    }

    /** `with_backend`: reopens what the backend holds. */
    constructor (backend: InMemoryBackend, registry: Registry)
      requires backend.Valid() && exists put :: LoggedFrom(State(backend.nodes, backend.log, map[], map[], []), put)
      ensures Valid() && this.backend == backend && this.registry == registry && verifier == None
      ensures exists order :: Reopens(State(backend.nodes, backend.log, map[], map[], []), order, Value())
    {
      hide Lists, LoggedFrom, Indexed, Logged, InMemoryBackend.Valid, AddAllDeps, AddAllWindows;
      this.backend := backend;
      this.registry := registry;
      depsRev := map[];
      byValidity := map[];
      wal := [];
      verifier := None;
      new;
      ghost var order := RebuildIndices();
      ReopenKeeps(State(backend.nodes, backend.log, map[], map[], []), order);
      assert Reopens(State(backend.nodes, backend.log, map[], map[], []), order, Value());
    }

    /** `rebuild_indices`. */
    method RebuildIndices() returns (ghost order: seq<Node>)
      requires backend.Valid()
      modifies this`depsRev, this`byValidity
      ensures Lists(order, backend.nodes)
      ensures depsRev == AddAllDeps(map[], order) && byValidity == AddAllWindows(map[], order)
    {
      var ns := backend.IterNodes();
      depsRev := map[];
      byValidity := map[];
      for i := 0 to |ns|
        invariant depsRev == AddAllDeps(map[], ns[..i]) && byValidity == AddAllWindows(map[], ns[..i])
      {
        IndexStep(ns, i, map[], map[]);
        UpdateDepsRev(ns[i]);
        UpdateByValidity(ns[i]);
      }
      assert ns[..|ns|] == ns;
      order := ns;
      ListsAll(ns, backend.nodes);
    }

    method UpdateDepsRev(n: Node)
      modifies this`depsRev
      ensures depsRev == AddDeps(old(depsRev), n.deps, n.id)
    {
      NoDepsLeft(depsRev, n.deps, n.id);
      for i := 0 to |n.deps|
        invariant AddDeps(depsRev, n.deps[i..], n.id) == AddDeps(old(depsRev), n.deps, n.id)
      {
        AddDepsStep(depsRev, n.deps, n.id, i);
        depsRev := depsRev[n.deps[i] := (if n.deps[i] in depsRev then depsRev[n.deps[i]] else []) + [n.id]];
      }
      NoDepsLeft(depsRev, n.deps, n.id);
    }

    method UpdateByValidity(n: Node)
      modifies this`byValidity
      ensures byValidity == AddWindow(old(byValidity), n)
    {
      var w := WindowOf(n.validity);
      byValidity := byValidity[w := (if w in byValidity then byValidity[w] else []) + [n.id]];
    }

    method PutWithIndices(n: Node)
      requires backend.Valid()
      modifies backend
      ensures backend.Valid() && backend.nodes == old(backend.nodes)[n.id := n]
      ensures backend.log == old(backend.log) + IndexOps(n, HeadKey(registry, n.pred.head))
    {
      backend.PutNode(n);
      backend.PutIndexes(IndexOps(n, HeadKey(registry, n.pred.head)));
    }

    /** `insert`. */
    method Insert(n: Node) returns (r: Result<(), StoreError>)
      requires Valid()
      modifies this`depsRev, this`byValidity, this`wal, backend
      ensures Valid() && (Value(), r) == InsertOne(old(Value()), n, verifier, registry)
    {
      hide IndexOps, AddDeps, AddWindow, HeadKey, Indexed, InMemoryBackend.Valid;
      ghost var before := Value();
      var verdict := Verdict(verifier, n);
      if verdict.Some? {
        return Err(InvalidNode(verdict.value));
      }
      var stored := backend.GetNode(n.id);
      if stored.Some? {
        return Err(AlreadyExists(n.id));
      }
      wal := wal + [WalEntry.Insert(n)];
      PutWithIndices(n);
      UpdateDepsRev(n);
      UpdateByValidity(n);
      InsertIndexed(before, n, registry);
      r := Ok(());
    }

    /** The checks of `insert_batch`, over the whole batch before anything is written. */
    method CheckBatch(ns: seq<Node>) returns (r: Result<(), StoreError>)
      requires backend.Valid()
      ensures r == if FirstFailure(verifier, ns).Some? then Err(InvalidNode(FirstFailure(verifier, ns).value))
                   else if FirstDuplicate(backend.nodes.Keys, ns).Some? then
                     Err(AlreadyExists(FirstDuplicate(backend.nodes.Keys, ns).value))
                   else Ok(())
    {
      hide FirstFailure, FirstDuplicate;
      NothingLeft(verifier, {}, ns);
      for i := 0 to |ns|
        invariant FirstFailure(verifier, ns[i..]) == FirstFailure(verifier, ns)
      {
        FailureStep(verifier, ns, i);
        var verdict := Verdict(verifier, ns[i]);
        if verdict.Some? {
          return Err(InvalidNode(verdict.value));
        }
      }
      var seen: set<Text> := {};
      assert backend.nodes.Keys + seen == backend.nodes.Keys;
      for i := 0 to |ns|
        invariant FirstDuplicate(backend.nodes.Keys + seen, ns[i..]) == FirstDuplicate(backend.nodes.Keys, ns)
      {
        DuplicateStep(backend.nodes.Keys + seen, ns, i);
        var stored := backend.GetNode(ns[i].id);
        if stored.Some? || ns[i].id in seen {
          return Err(AlreadyExists(ns[i].id));
        }
        assert backend.nodes.Keys + (seen + {ns[i].id}) == backend.nodes.Keys + seen + {ns[i].id};
        seen := seen + {ns[i].id};
      }
      NothingLeft(verifier, backend.nodes.Keys + seen, ns);
      r := Ok(());
    }

    /** `insert_batch`. */
    method InsertBatch(ns: seq<Node>) returns (r: Result<(), StoreError>)
      requires Valid()
      modifies this`depsRev, this`byValidity, this`wal, backend
      ensures Valid() && (Value(), r) == Store.InsertBatch(old(Value()), ns, verifier, registry)
    {
      hide FirstFailure, FirstDuplicate, Indexed, InMemoryBackend.Valid;
      BatchKeeps(Value(), ns, verifier, registry);
      r := CheckBatch(ns);
      if r.Err? {
        return;
      }
      PutBatch(ns);
      IndexBatch(ns);
      wal := wal + [Checkpoint];
    }

    method PutBatch(ns: seq<Node>)
      requires backend.Valid()
      modifies backend
      ensures backend.Valid() && backend.nodes == PutAll(old(backend.nodes), ns)
      ensures backend.log == old(backend.log) + BatchOps(ns, registry)
    {
      hide IndexOps, HeadKey;
      for i := 0 to |ns|
        invariant backend.Valid() && backend.nodes == PutAll(old(backend.nodes), ns[..i])
        invariant backend.log == old(backend.log) + BatchOps(ns[..i], registry)
      {
        BatchStep(ns, i, old(backend.nodes), registry);
        PutWithIndices(ns[i]);
      }
      assert ns[..|ns|] == ns;
    }

    method IndexBatch(ns: seq<Node>)
      modifies this`depsRev, this`byValidity, this`wal
      ensures depsRev == AddAllDeps(old(depsRev), ns) && byValidity == AddAllWindows(old(byValidity), ns)
      ensures wal == old(wal) + Inserts(ns)
    {
      hide AddDeps, AddWindow;
      for i := 0 to |ns|
        invariant depsRev == AddAllDeps(old(depsRev), ns[..i]) && byValidity == AddAllWindows(old(byValidity), ns[..i])
        invariant wal == old(wal) + Inserts(ns[..i])
      {
        IndexStep(ns, i, old(depsRev), old(byValidity));
        UpdateDepsRev(ns[i]);
        UpdateByValidity(ns[i]);
        wal := wal + [WalEntry.Insert(ns[i])];
      }
      assert ns[..|ns|] == ns;
    }

    /** `retract_with_limit`. */
    method RetractWithLimit(id: Text, max: nat) returns (r: Result<RetractResult, StoreError>)
      requires Valid()
      modifies this`wal, backend
      ensures Valid() && (Value(), r) == Store.RetractWithLimit(old(Value()), id, max)
    {
      hide Indexed, InMemoryBackend.Valid;
      RetractKeeps(Value(), id, max);
      if max > 0 {
        var stored := backend.GetNode(id);
        if stored.None? {
          return Err(NotFound(id));
        }
        var retracted, reached, truncated, added := RetractRecursive(id, max, 0, [], 0, false);
        assert retracted == added;
        r := Ok(RetractResult(retracted, truncated, reached));
      } else {
        r := Ok(RetractResult([], true, 0));
      }
    }

    ghost function Walked(retracted: seq<Text>, reached: nat, truncated: bool): Cascade.Walk
      reads backend
    {
      Cascade.Walk(backend.nodes, retracted, reached, truncated)
    }

    /** `retract_recursive`; the three values it updates through references are passed in and returned. */
    method RetractRecursive(id: Text, max: nat, depth: nat, retracted0: seq<Text>, reached0: nat, truncated0: bool)
        returns (retracted: seq<Text>, reached: nat, truncated: bool, ghost added: seq<Text>)
      requires backend.Valid() && id in backend.nodes
      modifies this`wal, backend
      ensures backend.Valid() && backend.log == old(backend.log)
      ensures Walked(retracted, reached, truncated)
           == Cascade.Retract(old(Walked(retracted0, reached0, truncated0)), depsRev, id, max, depth)
      ensures retracted == retracted0 + added && wal == old(wal) + Retractions(added)
      decreases |Cascade.Live(backend.nodes)|, 0
    {
      hide Cascade.Retract, Cascade.Visit, Cascade.Live, InMemoryBackend.Valid, Retractions;
      RetractUnfolds(Walked(retracted0, reached0, truncated0), depsRev, id, max, depth);
      retracted, reached, truncated, added := retracted0, reached0, truncated0, [];
      NothingAdded(retracted, wal);
      if |retracted| >= max {
        truncated := true;
        return;
      }
      if depth > reached {
        reached := depth;
      }
      var node := backend.GetNode(id);
      if node.value.status == Retracted {
        return;
      }
      Cascade.MarkShrinks(backend.nodes, id);
      OwnId(backend, id);
      backend.PutNode(node.value.(status := Retracted));
      wal := wal + [Retract(id)];
      retracted := retracted + [id];
      var dependents := if id in depsRev then depsRev[id] else [];
      retracted, reached, truncated, added :=
        VisitDependents(dependents, max, depth + 1, retracted, reached, truncated);
      AddedAfter(retracted0, old(wal), id, added);
      added := [id] + added;
    }

    /** The loop of `retract_recursive` over the dependents. */
    method VisitDependents(ds: seq<Text>, max: nat, depth: nat, retracted0: seq<Text>, reached0: nat, truncated0: bool)
        returns (retracted: seq<Text>, reached: nat, truncated: bool, ghost added: seq<Text>)
      requires backend.Valid()
      modifies this`wal, backend
      ensures backend.Valid() && backend.log == old(backend.log)
      ensures Walked(retracted, reached, truncated)
           == Cascade.Visit(old(Walked(retracted0, reached0, truncated0)), depsRev, ds, max, depth)
      ensures retracted == retracted0 + added && wal == old(wal) + Retractions(added)
      decreases |Cascade.Live(backend.nodes)|, |ds| + 1
    {
      hide Cascade.Retract, Cascade.Visit, Cascade.Live, InMemoryBackend.Valid, Retractions;
      retracted, reached, truncated, added := retracted0, reached0, truncated0, [];
      NothingAdded(retracted, wal);
      ghost var all := Cascade.Visit(Walked(retracted, reached, truncated), depsRev, ds, max, depth);
      var i := 0;
      assert ds[0..] == ds;
      while i < |ds|
        invariant i <= |ds| && backend.Valid() && backend.log == old(backend.log)
        invariant Cascade.Visit(Walked(retracted, reached, truncated), depsRev, ds[i..], max, depth) == all
        invariant retracted == retracted0 + added && wal == old(wal) + Retractions(added)
        invariant |Cascade.Live(backend.nodes)| <= |Cascade.Live(old(backend.nodes))|
      {
        VisitUnfolds(Walked(retracted, reached, truncated), depsRev, ds, i, max, depth);
        var dependent := backend.GetNode(ds[i]);
        if dependent.Some? && dependent.value.provenance.Derived? && dependent.value.status == Status.Active {
          if |retracted| >= max {
            truncated := true;
            return;
          }
          ghost var more;
          retracted, reached, truncated, more := RetractRecursive(ds[i], max, depth, retracted, reached, truncated);
          AddedMore(retracted0, old(wal), added, more);
          added := added + more;
        }
        i := i + 1;
      }
      VisitEnds(Walked(retracted, reached, truncated), depsRev, ds, max, depth);
    }

    /** The loop of `resolve_nodes` and of `lookup_valid_at`. */
    method Resolve(ids: seq<Text>, p: Node -> bool) returns (ns: seq<Node>)
      ensures ns == Fetch(backend.nodes, ids, p)
    {
      ns := [];
      FetchNothing(backend.nodes, p);
      for i := 0 to |ids|
        invariant ns == Fetch(backend.nodes, ids[..i], p)
      {
        assert ids[..i + 1] == ids[..i] + [ids[i]];
        FetchConcat(backend.nodes, ids[..i], [ids[i]], p);
        FetchCons(backend.nodes, [ids[i]], p);
        FetchNothing(backend.nodes, p);
        assert [ids[i]][1..] == [];
        var stored := backend.GetNode(ids[i]);
        if stored.Some? && p(stored.value) {
          ns := ns + [stored.value];
        }
      }
      assert ids[..|ids|] == ids;
    }

    /** `lookup_by_entity`, `lookup_by_pred` and `lookup_by_doc`. */
    method LookupBy(family: Family, prefix: Text) returns (ns: seq<Node>)
      requires Valid()
      ensures Bags.Permutes(ns, Fetch(backend.nodes, Scan(backend.log, family, prefix), IsActive))
      ensures forall n ::
                multiset(ns)[n] == if n.id in backend.nodes && backend.nodes[n.id] == n && n.status == Active
                                   then multiset(Scan(backend.log, family, prefix))[n.id] else 0
    {
      hide Indexed, InMemoryBackend.Valid, Scan, Fetch;
      OwnIds(Value());
      var ids := backend.ScanIndex(family, prefix);
      ns := Resolve(ids, IsActive);
      FetchPermutes(backend.nodes, ids, Scan(backend.log, family, prefix), IsActive);
      forall n
        ensures multiset(ns)[n] == if n.id in backend.nodes && backend.nodes[n.id] == n && n.status == Active
                                   then multiset(Scan(backend.log, family, prefix))[n.id] else 0
      {
        FetchCount(backend.nodes, ids, IsActive, n);
      }
    }

    /** `lookup_valid_at`: exactly the active nodes valid at `t`, once each. */
    method LookupValidAt(t: Instant) returns (ns: seq<Node>)
      requires Valid()
      ensures forall n ::
                multiset(ns)[n] == if && n.id in backend.nodes && backend.nodes[n.id] == n && n.status == Active
                                      && (n.validity.Window? ==>
                                            && n.validity.from <= t
                                            && (n.validity.until.Some? ==> t < n.validity.until.value))
                                   then 1 else 0
    {
      hide FiledRight, Collects, InRange, Fetch, Holds, Indexed, InMemoryBackend.Valid;
      IndexedFiles(Value());
      OwnIds(Value());
      var todo := byValidity.Keys;
      var ids: seq<Text> := [];
      CollectsNothing(byValidity, t, backend.nodes);
      assert byValidity.Keys - todo == {};
      while todo != {}
        invariant todo <= byValidity.Keys
        invariant Collects(byValidity, t, byValidity.Keys - todo, ids, backend.nodes)
        decreases todo
      {
        var w :| w in todo;
        CollectsMore(byValidity, t, byValidity.Keys - todo, ids, backend.nodes, w);
        assert byValidity.Keys - todo + {w} == byValidity.Keys - (todo - {w});
        if InRange(w, t) {
          ids := ids + byValidity[w];
        }
        todo := todo - {w};
      }
      assert byValidity.Keys - {} == byValidity.Keys;
      ns := Resolve(ids, (m: Node) => Holds(m, t));
      forall n
        ensures multiset(ns)[n] == if && n.id in backend.nodes && backend.nodes[n.id] == n && n.status == Active
                                      && (n.validity.Window? ==>
                                            && n.validity.from <= t
                                            && (n.validity.until.Some? ==> t < n.validity.until.value))
                                   then 1 else 0
      {
        ValidAtExact(byValidity, backend.nodes, t, ids, n);
      }
    }
  }

  lemma CollectsNothing(windows: Windows, t: Instant, nodes: map<Text, Node>)
    ensures Collects(windows, t, {}, [], nodes)
  {
  }

  lemma ListsAll(ns: seq<Node>, nodes: map<Text, Node>)
    requires forall i, j :: 0 <= i < j < |ns| ==> ns[i].id != ns[j].id
    requires forall n :: n in ns <==> n.id in nodes && nodes[n.id] == n
    requires forall id <- nodes :: nodes[id].id == id
    ensures Lists(ns, nodes)
  {
    forall id | id in nodes ensures exists n :: n in ns && n.id == id {
      assert nodes[id] in ns;
    }
  }
}
