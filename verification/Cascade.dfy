/** Cascade retraction (`retract_recursive` in `factum-rt/src/store.rs`): a walk over the reverse dependency
    edges that retracts nodes as it goes, under a budget of nodes.

    The functions are the walk itself; the theorems say which nodes it retracts. */
module Cascade {
  import opened Types

  type Nodes = map<Text, Node>

  /** `deps_rev`: for each id the ids of the nodes that name it in their `deps`. */
  type Edges = map<Text, seq<Text>>

  function Dependents(edges: Edges, id: Text): seq<Text> {
    if id in edges then edges[id] else []
  }

  /** Only active derived nodes are cascaded to. */
  predicate Cascades(nodes: Nodes, id: Text) {
    id in nodes && nodes[id].status == Active && nodes[id].provenance.Derived?
  }

  function Mark(nodes: Nodes, id: Text): Nodes
    requires id in nodes
  {
    nodes[id := nodes[id].(status := Retracted)]
  }

  /** The nodes so far, the ids retracted so far, and what is reported about the walk. */
  datatype Walk = Walk(nodes: Nodes, retracted: seq<Text>, depthReached: nat, truncated: bool)

  function Max(a: nat, b: nat): nat {
    if a < b then b else a
  }

  // ----- termination: every visit leaves fewer nodes that are not retracted -----

  ghost function Live(nodes: Nodes): set<Text> {
    set id | id in nodes && nodes[id].status != Retracted
  }

  lemma MarkShrinks(nodes: Nodes, id: Text)
    requires id in nodes && nodes[id].status != Retracted
    ensures |Live(Mark(nodes, id))| < |Live(nodes)|
  {
    assert Live(Mark(nodes, id)) == Live(nodes) - {id};
  }

  // ----- the walk -----

  /** `retract_recursive`. */
  function Retract(w: Walk, edges: Edges, id: Text, max: nat, depth: nat): (r: Walk)
    requires id in w.nodes
    ensures r.nodes.Keys == w.nodes.Keys && |Live(r.nodes)| <= |Live(w.nodes)|
    decreases |Live(w.nodes)|, 0
  {
    if |w.retracted| >= max then w.(truncated := true)
    else
      var reached := Max(w.depthReached, depth);
      if w.nodes[id].status == Retracted then w.(depthReached := reached)
      else
        MarkShrinks(w.nodes, id);
        Visit(Walk(Mark(w.nodes, id), w.retracted + [id], reached, w.truncated),
              edges, Dependents(edges, id), max, depth + 1)
  }

  /** The loop over the dependents of a node just retracted. */
  function Visit(w: Walk, edges: Edges, ds: seq<Text>, max: nat, depth: nat): (r: Walk)
    ensures r.nodes.Keys == w.nodes.Keys && |Live(r.nodes)| <= |Live(w.nodes)|
    decreases |Live(w.nodes)|, |ds| + 1
  {
    if ds == [] then w
    else if !Cascades(w.nodes, ds[0]) then Visit(w, edges, ds[1..], max, depth)
    else if |w.retracted| >= max then w.(truncated := true)
    else Visit(Retract(w, edges, ds[0], max, depth), edges, ds[1..], max, depth)
  }

  /** `retract_with_limit` on an existing node. */
  function Run(nodes: Nodes, edges: Edges, root: Text, max: nat): Walk
    requires root in nodes
  {
    Retract(Walk(nodes, [], 0, false), edges, root, max, 0)
  }

  // ----- what every step keeps -----

  ghost predicate Distinct(ids: seq<Text>) {
    forall i, j :: 0 <= i < j < |ids| ==> ids[i] != ids[j]
  }

  /** The nodes are those at the start with exactly the listed ones retracted, and the listed ones were not
      retracted before. */
  ghost predicate Tracks(start: Nodes, w: Walk) {
    && w.nodes.Keys == start.Keys
    && Distinct(w.retracted)
    && (forall id <- w.retracted :: id in start && start[id].status != Retracted)
    && (forall id <- start :: w.nodes[id] == if id in w.retracted then start[id].(status := Retracted) else start[id])
  }

  lemma MarkTracks(start: Nodes, w: Walk, id: Text, reached: nat)
    requires Tracks(start, w) && id in w.nodes && w.nodes[id].status != Retracted
    ensures Tracks(start, Walk(Mark(w.nodes, id), w.retracted + [id], reached, w.truncated))
    ensures id !in w.retracted
  {
    var list := w.retracted + [id];
    assert id !in w.retracted;
    forall x <- list ensures x in start && start[x].status != Retracted {
      if x != id {
        assert x in w.retracted;
      }
    }
    forall x <- start
      ensures Mark(w.nodes, id)[x] == if x in list then start[x].(status := Retracted) else start[x]
    {
      assert x in list <==> x in w.retracted || x == id;
    }
  }

  lemma {:induction false} RetractTracks(start: Nodes, w: Walk, edges: Edges, id: Text, max: nat, depth: nat)
    requires Tracks(start, w) && id in w.nodes
    ensures Tracks(start, Retract(w, edges, id, max, depth))
    decreases |Live(w.nodes)|, 0
  {
    hide Tracks;
    if |w.retracted| >= max {
      TracksReport(start, w, w.depthReached, true);
    } else if w.nodes[id].status == Retracted {
      TracksReport(start, w, Max(w.depthReached, depth), w.truncated);
    } else {
      var reached := Max(w.depthReached, depth);
      MarkShrinks(w.nodes, id);
      MarkTracks(start, w, id, reached);
      VisitTracks(start, Walk(Mark(w.nodes, id), w.retracted + [id], reached, w.truncated),
                  edges, Dependents(edges, id), max, depth + 1);
    }
  }

  lemma TracksReport(start: Nodes, w: Walk, reached: nat, truncated: bool)
    requires Tracks(start, w)
    ensures Tracks(start, Walk(w.nodes, w.retracted, reached, truncated))
  {
  }

  lemma {:induction false} VisitTracks(start: Nodes, w: Walk, edges: Edges, ds: seq<Text>, max: nat, depth: nat)
    requires Tracks(start, w)
    ensures Tracks(start, Visit(w, edges, ds, max, depth))
    decreases |Live(w.nodes)|, |ds| + 1
  {
    hide Tracks;
    if ds == [] {
    } else if !Cascades(w.nodes, ds[0]) {
      VisitTracks(start, w, edges, ds[1..], max, depth);
    } else if |w.retracted| >= max {
      TracksReport(start, w, w.depthReached, true);
    } else {
      RetractTracks(start, w, edges, ds[0], max, depth);
      VisitTracks(start, Retract(w, edges, ds[0], max, depth), edges, ds[1..], max, depth);
    }
  }

  // ----- budget, depth and the order of the list -----

  /** The list only grows, by at most the budget, and the reported depth stays below its length. */
  ghost predicate Within(w: Walk, r: Walk, max: nat) {
    && w.retracted <= r.retracted
    && (|w.retracted| <= max ==> |r.retracted| <= max)
    && (w.depthReached == 0 || w.depthReached < |w.retracted| ==> r.depthReached == 0 || r.depthReached < |r.retracted|)
    && (w.truncated ==> r.truncated)
    && (r.truncated && !w.truncated ==> |r.retracted| >= max)
  }

  lemma WithinTransitive(a: Walk, b: Walk, c: Walk, max: nat)
    requires Within(a, b, max) && Within(b, c, max)
    ensures Within(a, c, max)
  {
  }

  lemma {:induction false} RetractWithin(w: Walk, edges: Edges, id: Text, max: nat, depth: nat)
    requires id in w.nodes && depth <= |w.retracted|
    requires w.nodes[id].status != Retracted || depth == 0
    ensures Within(w, Retract(w, edges, id, max, depth), max)
    decreases |Live(w.nodes)|, 0
  {
    if |w.retracted| < max && w.nodes[id].status != Retracted {
      var reached := Max(w.depthReached, depth);
      var marked := Walk(Mark(w.nodes, id), w.retracted + [id], reached, w.truncated);
      MarkShrinks(w.nodes, id);
      VisitWithin(marked, edges, Dependents(edges, id), max, depth + 1);
      assert Within(w, marked, max);
      hide Within;
      WithinTransitive(w, marked, Retract(w, edges, id, max, depth), max);
    }
  }

  lemma {:induction false} VisitWithin(w: Walk, edges: Edges, ds: seq<Text>, max: nat, depth: nat)
    requires depth <= |w.retracted|
    ensures Within(w, Visit(w, edges, ds, max, depth), max)
    decreases |Live(w.nodes)|, |ds| + 1
  {
    if ds == [] {
    } else if !Cascades(w.nodes, ds[0]) {
      VisitWithin(w, edges, ds[1..], max, depth);
    } else if |w.retracted| >= max {
    } else {
      var next := Retract(w, edges, ds[0], max, depth);
      RetractWithin(w, edges, ds[0], max, depth);
      VisitWithin(next, edges, ds[1..], max, depth);
      WithinTransitive(w, next, Visit(w, edges, ds, max, depth), max);
    }
  }

  // ----- soundness: everything retracted is reachable -----

  /** A walk along the reverse edges through active derived nodes. */
  ghost predicate Path(nodes: Nodes, edges: Edges, p: seq<Text>) {
    p != [] && forall i :: 0 < i < |p| ==>
      && p[i] in Dependents(edges, p[i - 1])
      && p[i] in nodes && nodes[p[i]].status == Active && nodes[p[i]].provenance.Derived?
  }

  ghost predicate Leads(nodes: Nodes, edges: Edges, p: seq<Text>, root: Text, id: Text) {
    Path(nodes, edges, p) && p[0] == root && p[|p| - 1] == id
  }

  /** `id` is the root or is reached from it along reverse edges through active derived nodes. */
  ghost predicate Reaches(nodes: Nodes, edges: Edges, root: Text, id: Text) {
    exists p :: Leads(nodes, edges, p, root, id)
  }

  lemma ReachesRoot(nodes: Nodes, edges: Edges, root: Text)
    ensures Reaches(nodes, edges, root, root)
  {
    assert Leads(nodes, edges, [root], root, root);
  }

  lemma ReachesNext(nodes: Nodes, edges: Edges, root: Text, x: Text, y: Text)
    requires Reaches(nodes, edges, root, x) && y in Dependents(edges, x) && Cascades(nodes, y)
    ensures Reaches(nodes, edges, root, y)
  {
    var p :| Leads(nodes, edges, p, root, x);
    assert Leads(nodes, edges, p + [y], root, y);
  }

  ghost predicate AllReached(start: Nodes, edges: Edges, root: Text, ids: seq<Text>) {
    forall id <- ids :: Reaches(start, edges, root, id)
  }

  /** A node that still cascades cascaded at the start. */
  lemma CascadesAtStart(start: Nodes, w: Walk, id: Text)
    requires Tracks(start, w) && Cascades(w.nodes, id)
    ensures Cascades(start, id) && id !in w.retracted
  {
    assert id in start;
  }

  lemma {:induction false} RetractSound(
      start: Nodes, w: Walk, edges: Edges, root: Text, id: Text, max: nat, depth: nat)
    requires Tracks(start, w) && id in w.nodes
    requires AllReached(start, edges, root, w.retracted) && Reaches(start, edges, root, id)
    ensures AllReached(start, edges, root, Retract(w, edges, id, max, depth).retracted)
    decreases |Live(w.nodes)|, 0
  {
    hide Tracks, Reaches;
    if |w.retracted| < max && w.nodes[id].status != Retracted {
      var reached := Max(w.depthReached, depth);
      MarkShrinks(w.nodes, id);
      MarkTracks(start, w, id, reached);
      VisitSound(start, Walk(Mark(w.nodes, id), w.retracted + [id], reached, w.truncated),
                 edges, root, id, Dependents(edges, id), max, depth + 1);
    }
  }

  lemma {:induction false} VisitSound(
      start: Nodes, w: Walk, edges: Edges, root: Text, parent: Text, ds: seq<Text>, max: nat, depth: nat)
    requires Tracks(start, w) && AllReached(start, edges, root, w.retracted)
    requires Reaches(start, edges, root, parent) && forall d <- ds :: d in Dependents(edges, parent)
    ensures AllReached(start, edges, root, Visit(w, edges, ds, max, depth).retracted)
    decreases |Live(w.nodes)|, |ds| + 1
  {
    hide Tracks, Reaches, AllReached;
    if ds == [] {
    } else if !Cascades(w.nodes, ds[0]) {
      VisitSound(start, w, edges, root, parent, ds[1..], max, depth);
    } else if |w.retracted| >= max {
    } else {
      CascadesAtStart(start, w, ds[0]);
      ReachesNext(start, edges, root, parent, ds[0]);
      RetractSound(start, w, edges, root, ds[0], max, depth);
      RetractTracks(start, w, edges, ds[0], max, depth);
      VisitSound(start, Retract(w, edges, ds[0], max, depth), edges, root, parent, ds[1..], max, depth);
    }
  }

  // ----- completeness: nothing reachable is left when the walk was not cut short -----

  /** No dependent of `x` is still active and derived. */
  ghost predicate Exhausted(nodes: Nodes, edges: Edges, x: Text) {
    forall d <- Dependents(edges, x) :: !(d in nodes && nodes[d].status == Active && nodes[d].provenance.Derived?)
  }

  /** Every id listed in `r` but not in `w` is exhausted. */
  ghost predicate NewExhausted(w: Walk, r: Walk, edges: Edges) {
    forall x <- r.retracted :: x in w.retracted || Exhausted(r.nodes, edges, x)
  }

  /** Statuses only move to retracted, so what does not cascade never does again. */
  ghost predicate Settles(w: Walk, r: Walk) {
    && w.nodes.Keys == r.nodes.Keys
    && w.retracted <= r.retracted
    && forall id :: Cascades(r.nodes, id) ==> Cascades(w.nodes, id)
  }

  lemma {:induction false} RetractSettles(w: Walk, edges: Edges, id: Text, max: nat, depth: nat)
    requires id in w.nodes
    ensures Settles(w, Retract(w, edges, id, max, depth))
    decreases |Live(w.nodes)|, 0
  {
    if |w.retracted| < max && w.nodes[id].status != Retracted {
      var marked := Walk(Mark(w.nodes, id), w.retracted + [id], Max(w.depthReached, depth), w.truncated);
      MarkShrinks(w.nodes, id);
      VisitSettles(marked, edges, Dependents(edges, id), max, depth + 1);
      assert Settles(w, marked);
    }
  }

  lemma {:induction false} VisitSettles(w: Walk, edges: Edges, ds: seq<Text>, max: nat, depth: nat)
    ensures Settles(w, Visit(w, edges, ds, max, depth))
    decreases |Live(w.nodes)|, |ds| + 1
  {
    if ds == [] {
    } else if !Cascades(w.nodes, ds[0]) {
      VisitSettles(w, edges, ds[1..], max, depth);
    } else if |w.retracted| >= max {
    } else {
      RetractSettles(w, edges, ds[0], max, depth);
      VisitSettles(Retract(w, edges, ds[0], max, depth), edges, ds[1..], max, depth);
    }
  }

  lemma ExhaustedStays(w: Walk, r: Walk, edges: Edges, x: Text)
    requires Settles(w, r) && Exhausted(w.nodes, edges, x)
    ensures Exhausted(r.nodes, edges, x)
  {
    forall d | d in Dependents(edges, x) && Cascades(r.nodes, d) ensures Cascades(w.nodes, d) {
    }
  }

  lemma NewExhaustedChains(a: Walk, b: Walk, c: Walk, edges: Edges)
    requires NewExhausted(a, b, edges) && NewExhausted(b, c, edges) && Settles(b, c)
    ensures NewExhausted(a, c, edges)
  {
    forall x <- c.retracted ensures x in a.retracted || Exhausted(c.nodes, edges, x) {
      if x in b.retracted && x !in a.retracted {
        ExhaustedStays(b, c, edges, x);
      }
    }
  }

  lemma {:induction false} RetractComplete(w: Walk, edges: Edges, id: Text, max: nat, depth: nat)
    requires id in w.nodes && !Retract(w, edges, id, max, depth).truncated
    ensures NewExhausted(w, Retract(w, edges, id, max, depth), edges)
    ensures !Cascades(Retract(w, edges, id, max, depth).nodes, id)
    ensures !w.truncated
    decreases |Live(w.nodes)|, 0
  {
    if |w.retracted| < max && w.nodes[id].status != Retracted {
      var marked := Walk(Mark(w.nodes, id), w.retracted + [id], Max(w.depthReached, depth), w.truncated);
      MarkShrinks(w.nodes, id);
      var r := Visit(marked, edges, Dependents(edges, id), max, depth + 1);
      VisitComplete(marked, edges, Dependents(edges, id), max, depth + 1);
      VisitSettles(marked, edges, Dependents(edges, id), max, depth + 1);
      MarkedExhausted(w, marked, r, edges, id);
    }
  }

  lemma MarkedExhausted(w: Walk, marked: Walk, r: Walk, edges: Edges, id: Text)
    requires marked.retracted == w.retracted + [id] && NewExhausted(marked, r, edges)
    requires forall d <- Dependents(edges, id) :: !Cascades(r.nodes, d)
    ensures NewExhausted(w, r, edges)
  {
    forall x <- r.retracted ensures x in w.retracted || Exhausted(r.nodes, edges, x) {
      assert x in marked.retracted <==> x in w.retracted || x == id;
    }
  }

  lemma {:induction false} VisitComplete(w: Walk, edges: Edges, ds: seq<Text>, max: nat, depth: nat)
    requires !Visit(w, edges, ds, max, depth).truncated
    ensures NewExhausted(w, Visit(w, edges, ds, max, depth), edges)
    ensures forall d <- ds :: !Cascades(Visit(w, edges, ds, max, depth).nodes, d)
    ensures !w.truncated
    decreases |Live(w.nodes)|, |ds| + 1
  {
    if ds == [] {
    } else if !Cascades(w.nodes, ds[0]) {
      VisitComplete(w, edges, ds[1..], max, depth);
      VisitSettles(w, edges, ds[1..], max, depth);
      hide NewExhausted;
      AllOf(ds);
    } else if |w.retracted| >= max {
    } else {
      var next := Retract(w, edges, ds[0], max, depth);
      VisitComplete(next, edges, ds[1..], max, depth);
      RetractComplete(w, edges, ds[0], max, depth);
      VisitSettles(next, edges, ds[1..], max, depth);
      NewExhaustedChains(w, next, Visit(next, edges, ds[1..], max, depth), edges);
      hide NewExhausted;
      AllOf(ds);
    }
  }

  lemma AllOf(ds: seq<Text>)
    requires ds != []
    ensures forall d <- ds :: d == ds[0] || d in ds[1..]
  {
    forall d <- ds ensures d == ds[0] || d in ds[1..] {
      var i :| 0 <= i < |ds| && ds[i] == d;
      if i > 0 {
        assert ds[1..][i - 1] == d;
      }
    }
  }

  // ----- truncation: exactly when something is left to do -----

  ghost predicate Pending(nodes: Nodes, edges: Edges, x: Text, d: Text) {
    d in Dependents(edges, x) && d in nodes && nodes[d].status == Active && nodes[d].provenance.Derived?
  }

  /** Some dependent of a retracted node is still active and derived. */
  ghost predicate Leftover(w: Walk, edges: Edges) {
    exists x, d :: x in w.retracted && Pending(w.nodes, edges, x, d)
  }

  /** A truncated walk has spent its budget and left something. */
  ghost predicate CutShort(w: Walk, edges: Edges, max: nat) {
    w.truncated ==> |w.retracted| >= max && Leftover(w, edges)
  }

  lemma {:induction false} RetractCut(w: Walk, edges: Edges, id: Text, max: nat, depth: nat)
    requires id in w.nodes && |w.retracted| < max && CutShort(w, edges, max)
    ensures CutShort(Retract(w, edges, id, max, depth), edges, max)
    decreases |Live(w.nodes)|, 0
  {
    if w.nodes[id].status != Retracted {
      var marked := Walk(Mark(w.nodes, id), w.retracted + [id], Max(w.depthReached, depth), w.truncated);
      MarkShrinks(w.nodes, id);
      VisitCut(marked, edges, id, Dependents(edges, id), max, depth + 1);
    }
  }

  lemma {:induction false} VisitCut(w: Walk, edges: Edges, parent: Text, ds: seq<Text>, max: nat, depth: nat)
    requires CutShort(w, edges, max)
    requires parent in w.retracted && forall d <- ds :: d in Dependents(edges, parent)
    ensures CutShort(Visit(w, edges, ds, max, depth), edges, max)
    decreases |Live(w.nodes)|, |ds| + 1
  {
    if ds == [] {
    } else if !Cascades(w.nodes, ds[0]) {
      VisitCut(w, edges, parent, ds[1..], max, depth);
    } else if |w.retracted| >= max {
      assert Pending(w.nodes, edges, parent, ds[0]);
    } else {
      var next := Retract(w, edges, ds[0], max, depth);
      RetractCut(w, edges, ds[0], max, depth);
      RetractSettles(w, edges, ds[0], max, depth);
      VisitCut(next, edges, parent, ds[1..], max, depth);
    }
  }

  // ----- the theorems -----

  /** What a cascade from `root` reaches in `nodes`. */
  ghost function Reach(nodes: Nodes, edges: Edges, root: Text): set<Text> {
    set id | id in nodes && Reaches(nodes, edges, root, id)
  }

  ghost function Elements(ids: seq<Text>): set<Text> {
    set id | id in ids
  }

  lemma {:induction false} DistinctCount(ids: seq<Text>)
    requires Distinct(ids)
    ensures |Elements(ids)| == |ids|
  {
    if ids != [] {
      var last := ids[|ids| - 1];
      DistinctCount(ids[..|ids| - 1]);
      assert Elements(ids) == Elements(ids[..|ids| - 1]) + {last};
    }
  }

  /** A set of ids that contains the root and all that its members' exhausted dependents allow contains
      everything reachable. */
  lemma {:induction false} PathStays(start: Nodes, w: Walk, edges: Edges, root: Text, p: seq<Text>, id: Text)
    requires Tracks(start, w) && root in w.retracted && Leads(start, edges, p, root, id)
    requires forall x <- w.retracted :: Exhausted(w.nodes, edges, x)
    ensures id in w.retracted
    decreases |p|
  {
    if |p| > 1 {
      var before := p[..|p| - 1];
      assert Leads(start, edges, before, root, before[|before| - 1]);
      PathStays(start, w, edges, root, before, before[|before| - 1]);
      assert id in Dependents(edges, p[|p| - 2]) && Cascades(start, id);
    }
  }

  /** The start of a run. */
  lemma StartFacts(nodes: Nodes, edges: Edges, root: Text, max: nat)
    ensures var w := Walk(nodes, [], 0, false);
            Tracks(nodes, w) && AllReached(nodes, edges, root, w.retracted) && CutShort(w, edges, max)
  {
  }

  /** For every graph, every root and every budget: the listed ids are distinct, were not
      retracted before and are reachable from the root; exactly their statuses changed; the budget is never
      exceeded and the reported depth is below the length of the list. */
  lemma RunSafe(nodes: Nodes, edges: Edges, root: Text, max: nat)
    requires root in nodes
    ensures var r := Run(nodes, edges, root, max);
            && Tracks(nodes, r)
            && Elements(r.retracted) <= Reach(nodes, edges, root)
            && |r.retracted| <= max
            && (r.retracted != [] ==> r.depthReached < |r.retracted|)
            && (r.truncated ==> |r.retracted| == max)
  {
    var w := Walk(nodes, [], 0, false);
    StartFacts(nodes, edges, root, max);
    ReachesRoot(nodes, edges, root);
    RetractTracks(nodes, w, edges, root, max, 0);
    RetractSound(nodes, w, edges, root, root, max, 0);
    if max >= 1 {
      RetractWithin(w, edges, root, max, 0);
    }
    hide Retract, Reaches;
  }

  /** Truncated or not, everything retracted besides the root was active and derived. */
  lemma RunRetractsDerived(nodes: Nodes, edges: Edges, root: Text, max: nat, x: Text)
    requires root in nodes && x in Run(nodes, edges, root, max).retracted && x != root
    ensures x in nodes && nodes[x].status == Active && nodes[x].provenance.Derived?
  {
    RunSafe(nodes, edges, root, max);
    hide Run;
    assert x in Elements(Run(nodes, edges, root, max).retracted);
    var p :| Leads(nodes, edges, p, root, x);
    assert p[|p| - 1] == x;
  }

  /** Retracting what is already retracted changes nothing, whatever was left over from an earlier call. */
  lemma RunOnRetracted(nodes: Nodes, edges: Edges, root: Text, max: nat)
    requires root in nodes && max >= 1 && nodes[root].status == Retracted
    ensures Run(nodes, edges, root, max) == Walk(nodes, [], 0, false)
  {
  }

  /** The root of a run that was not retracted is on the list, first. */
  lemma RunStartsWithRoot(nodes: Nodes, edges: Edges, root: Text, max: nat)
    requires root in nodes && max >= 1 && nodes[root].status != Retracted
    ensures [root] <= Run(nodes, edges, root, max).retracted
  {
    var marked := Walk(Mark(nodes, root), [root], 0, false);
    MarkShrinks(nodes, root);
    VisitSettles(marked, edges, Dependents(edges, root), max, 1);
    assert [] + [root] == [root];
  }

  /** Not truncated: the retracted nodes are exactly those the cascade reaches, cycles and diamonds included. */
  lemma RunExact(nodes: Nodes, edges: Edges, root: Text, max: nat)
    requires root in nodes && nodes[root].status != Retracted
    requires !Run(nodes, edges, root, max).truncated
    ensures Elements(Run(nodes, edges, root, max).retracted) == Reach(nodes, edges, root)
  {
    var r := Run(nodes, edges, root, max);
    RunSafe(nodes, edges, root, max);
    RunStartsWithRoot(nodes, edges, root, max);
    RetractComplete(Walk(nodes, [], 0, false), edges, root, max, 0);
    assert r.retracted[0] == root;
    hide Run;
    forall id | id in Reach(nodes, edges, root) ensures id in Elements(r.retracted) {
      var p :| Leads(nodes, edges, p, root, id);
      PathStays(nodes, r, edges, root, p, id);
    }
  }

  /** The flag says exactly that a dependent of a retracted node is still active and derived. */
  lemma RunTruncatedIffLeftover(nodes: Nodes, edges: Edges, root: Text, max: nat)
    requires root in nodes && max >= 1
    ensures Run(nodes, edges, root, max).truncated <==> Leftover(Run(nodes, edges, root, max), edges)
  {
    var w := Walk(nodes, [], 0, false);
    StartFacts(nodes, edges, root, max);
    RetractCut(w, edges, root, max, 0);
    if !Run(nodes, edges, root, max).truncated {
      RetractComplete(w, edges, root, max, 0);
    }
    hide Retract;
  }

  /** Truncation does not depend on the order of the dependents: the flag is set exactly when the cascade
      reaches more nodes than the budget. */
  lemma RunTruncatedIffOverBudget(nodes: Nodes, edges: Edges, root: Text, max: nat)
    requires root in nodes && nodes[root].status != Retracted
    ensures Run(nodes, edges, root, max).truncated <==> |Reach(nodes, edges, root)| > max
  {
    var r := Run(nodes, edges, root, max);
    RunSafe(nodes, edges, root, max);
    DistinctCount(r.retracted);
    if max == 0 {
      ReachesRoot(nodes, edges, root);
      assert root in Reach(nodes, edges, root);
    } else if r.truncated {
      RunTruncatedIffLeftover(nodes, edges, root, max);
      LeftoverIsReached(nodes, r, edges, root);
    } else {
      RunExact(nodes, edges, root, max);
    }
  }

  // ----- the depth reported -----

  /** Each listed id has a level: the root 0, every other one more than an id listed before it that it depends on. */
  ghost predicate Leveled(retracted: seq<Text>, edges: Edges, levels: seq<nat>) {
    |levels| == |retracted| && forall i :: 0 <= i < |levels| ==> IsLeveled(retracted, edges, levels, i)
  }

  ghost predicate IsLeveled(retracted: seq<Text>, edges: Edges, levels: seq<nat>, i: nat)
    requires i < |levels| == |retracted|
  {
    if i == 0 then levels[i] == 0
    else exists j :: 0 <= j < i && levels[i] == levels[j] + 1 && retracted[i] in Dependents(edges, retracted[j])
  }

  ghost predicate Deepest(levels: seq<nat>, depth: nat) {
    if levels == [] then depth == 0 else depth in levels && forall l <- levels :: l <= depth
  }

  ghost predicate LevelsOf(w: Walk, edges: Edges, levels: seq<nat>) {
    Leveled(w.retracted, edges, levels) && Deepest(levels, w.depthReached)
  }

  lemma LevelsMore(w: Walk, edges: Edges, levels: seq<nat>, id: Text, depth: nat, nodes: Nodes)
    requires LevelsOf(w, edges, levels)
    requires if levels == [] then depth == 0
             else exists j :: 0 <= j < |levels| && levels[j] + 1 == depth && id in Dependents(edges, w.retracted[j])
    ensures LevelsOf(
              Walk(nodes, w.retracted + [id], if w.depthReached < depth then depth else w.depthReached, w.truncated),
              edges, levels + [depth])
  {
    var more, list := levels + [depth], w.retracted + [id];
    forall i | 0 <= i < |more| ensures IsLeveled(list, edges, more, i) {
      if i < |levels| {
        assert IsLeveled(w.retracted, edges, levels, i);
        assert forall j :: 0 <= j <= i ==> more[j] == levels[j] && list[j] == w.retracted[j];
      } else if levels != [] {
        var j :| 0 <= j < |levels| && levels[j] + 1 == depth && id in Dependents(edges, w.retracted[j]);
        assert more[j] == levels[j] && list[j] == w.retracted[j];
      }
    }
  }

  lemma {:induction false} RetractLevels(
      w: Walk, edges: Edges, id: Text, max: nat, depth: nat, levels: seq<nat>) returns (more: seq<nat>)
    requires id in w.nodes && w.nodes[id].status != Retracted && LevelsOf(w, edges, levels)
    requires if levels == [] then depth == 0
             else exists j :: 0 <= j < |levels| && levels[j] + 1 == depth && id in Dependents(edges, w.retracted[j])
    ensures levels <= more && LevelsOf(Retract(w, edges, id, max, depth), edges, more)
    decreases |Live(w.nodes)|, 0
  {
    hide LevelsOf;
    more := levels;
    if |w.retracted| >= max {
      LevelsReport(w, edges, levels);
    } else {
      var reached := Max(w.depthReached, depth);
      var marked := Walk(Mark(w.nodes, id), w.retracted + [id], reached, w.truncated);
      MarkShrinks(w.nodes, id);
      LevelsLength(w, edges, levels);
      LevelsMore(w, edges, levels, id, depth, marked.nodes);
      more := VisitLevels(marked, edges, id, |w.retracted|, Dependents(edges, id), max, depth + 1, levels + [depth]);
    }
  }

  lemma LevelsReport(w: Walk, edges: Edges, levels: seq<nat>)
    requires LevelsOf(w, edges, levels)
    ensures LevelsOf(w.(truncated := true), edges, levels)
  {
  }

  lemma LevelsLength(w: Walk, edges: Edges, levels: seq<nat>)
    requires LevelsOf(w, edges, levels)
    ensures |levels| == |w.retracted|
  {
  }

  lemma {:induction false} VisitLevels(
      w: Walk, edges: Edges, parent: Text, at: nat, ds: seq<Text>, max: nat, depth: nat,
      levels: seq<nat>) returns (more: seq<nat>)
    requires LevelsOf(w, edges, levels) && at < |levels| && at < |w.retracted| && levels[at] + 1 == depth
    requires w.retracted[at] == parent && forall d <- ds :: d in Dependents(edges, parent)
    ensures levels <= more && LevelsOf(Visit(w, edges, ds, max, depth), edges, more)
    decreases |Live(w.nodes)|, |ds| + 1
  {
    hide LevelsOf, Dependents;
    more := levels;
    if ds == [] {
    } else if !Cascades(w.nodes, ds[0]) {
      more := VisitLevels(w, edges, parent, at, ds[1..], max, depth, levels);
    } else if |w.retracted| >= max {
      LevelsReport(w, edges, levels);
    } else {
      var next := Retract(w, edges, ds[0], max, depth);
      LevelsLength(w, edges, levels);
      var between := RetractLevels(w, edges, ds[0], max, depth, levels);
      LevelsLength(next, edges, between);
      RetractSettles(w, edges, ds[0], max, depth);
      more := VisitLevels(next, edges, parent, at, ds[1..], max, depth, between);
    }
  }

  /** The depth a run reports is the greatest level of the ids it lists. */
  lemma RunDepth(nodes: Nodes, edges: Edges, root: Text, max: nat) returns (levels: seq<nat>)
    requires root in nodes && nodes[root].status != Retracted
    ensures Leveled(Run(nodes, edges, root, max).retracted, edges, levels)
    ensures Deepest(levels, Run(nodes, edges, root, max).depthReached)
  {
    levels := RetractLevels(Walk(nodes, [], 0, false), edges, root, max, 0, []);
  }

  // ----- counting -----

  lemma LeftoverIsReached(start: Nodes, w: Walk, edges: Edges, root: Text)
    requires Tracks(start, w) && Leftover(w, edges)
    requires Elements(w.retracted) <= Reach(start, edges, root)
    ensures |Elements(w.retracted)| < |Reach(start, edges, root)|
  {
    var x, d :| x in w.retracted && Pending(w.nodes, edges, x, d);
    CascadesAtStart(start, w, d);
    assert x in Elements(w.retracted);
    ReachesNext(start, edges, root, x, d);
    Smaller(Elements(w.retracted), Reach(start, edges, root), d);
  }

  lemma Smaller(a: set<Text>, b: set<Text>, d: Text)
    requires a <= b && d in b && d !in a
    ensures |a| < |b|
  {
    var rest := b - {d};
    assert a <= rest;
    SubsetCount(a, rest);
  }

  lemma {:induction false} SubsetCount(a: set<Text>, b: set<Text>)
    requires a <= b
    ensures |a| <= |b|
  {
    if a != {} {
      var x :| x in a;
      SubsetCount(a - {x}, b - {x});
    }
  }

  /** Edges matter only as sets: two stores with the same nodes whose reverse edges list the same dependents,
      in any order and with any repetition, retract the same set or truncate alike. */
  lemma RunOrderIndependent(nodes: Nodes, edges: Edges, other: Edges, root: Text, max: nat)
    requires root in nodes && max >= 1 && nodes[root].status != Retracted
    requires forall x, d :: d in Dependents(edges, x) <==> d in Dependents(other, x)
    ensures var r, s := Run(nodes, edges, root, max), Run(nodes, other, root, max);
            && r.truncated == s.truncated
            && (!r.truncated ==> Elements(r.retracted) == Elements(s.retracted) && r.nodes == s.nodes)
  {
    SameReach(nodes, edges, other, root);
    RunTruncatedIffOverBudget(nodes, edges, root, max);
    RunTruncatedIffOverBudget(nodes, other, root, max);
    if !Run(nodes, edges, root, max).truncated {
      RunExact(nodes, edges, root, max);
      RunExact(nodes, other, root, max);
      RunSafe(nodes, edges, root, max);
      RunSafe(nodes, other, root, max);
      SameNodes(nodes, Run(nodes, edges, root, max), Run(nodes, other, root, max));
    }
  }

  lemma SameReach(nodes: Nodes, edges: Edges, other: Edges, root: Text)
    requires forall x, d :: d in Dependents(edges, x) <==> d in Dependents(other, x)
    ensures Reach(nodes, edges, root) == Reach(nodes, other, root)
  {
    forall p, id | Leads(nodes, edges, p, root, id) ensures Leads(nodes, other, p, root, id) {
    }
    forall p, id | Leads(nodes, other, p, root, id) ensures Leads(nodes, edges, p, root, id) {
    }
    forall id ensures Reaches(nodes, edges, root, id) <==> Reaches(nodes, other, root, id) {
    }
  }

  lemma SameNodes(start: Nodes, r: Walk, s: Walk)
    requires Tracks(start, r) && Tracks(start, s) && Elements(r.retracted) == Elements(s.retracted)
    ensures r.nodes == s.nodes
  {
    forall id <- start ensures r.nodes[id] == s.nodes[id] {
      assert id in r.retracted <==> id in Elements(r.retracted);
      assert id in s.retracted <==> id in Elements(s.retracted);
    }
  }
}
