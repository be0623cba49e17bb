/** The store of `factum-rt/src/store.rs` as a value: stored nodes, index entries, the two in-memory indices and
    the write-ahead log, with one function for every operation. */
module Store {
  import opened Types
  import opened Storage
  import opened Serialize
  import Bags
  import Cascade

  // ----- index entries of a node -----

  /** The entities indexed for a term: a compound's named arguments are not. */
  function TermEntities(t: Term): seq<Text> {
    match t
    case Ent(entity) => [entity]
    case Compound(pred) => ArgEntities(pred.args)
    case List(items) => ArgEntities(items)
    case _ => []
  }

  function ArgEntities(args: seq<Term>): seq<Text> {
    if args == [] then [] else TermEntities(args[0]) + ArgEntities(args[1..])
  }

  function NamedEntities(named: seq<NamedArg>): seq<Text> {
    if named == [] then [] else TermEntities(named[0].value) + NamedEntities(named[1..])
  }

  function Entities(p: Predicate): seq<Text> {
    ArgEntities(p.args) + NamedEntities(p.named)
  }

  function SourceKey(p: Provenance): Text {
    match p
    case Verbatim(doc, _) => doc
    case Summary(doc, _) => doc
    case Extracted(doc, _, _, _) => doc
    case Derived(from, _) => from
    case Asserted(principal) => principal
  }

  /** `u32::to_be_bytes`. */
  function BigEndian(tag: bv32): (s: Text)
    ensures |s| == 4
  {
    var n := tag as int;
    [(n / 0x1000000) as char, (n / 0x10000 % 256) as char, (n / 0x100 % 256) as char, (n % 256) as char]
  }

  function EntryFor(family: Family, prefix: Text, id: Text): Entry {
    Entry(family, EncodeKey(prefix, id), id)
  }

  function EntityEntries(names: seq<Text>, id: Text): seq<Entry> {
    if names == [] then [] else [EntryFor(ByEntity, names[0], id)] + EntityEntries(names[1..], id)
  }

  function FixedEntries(n: Node, head: Text): seq<Entry> {
    [EntryFor(ByPred, head, n.id), EntryFor(BySrc, SourceKey(n.provenance), n.id),
     EntryFor(ByPerm, BigEndian(n.permissions), n.id)]
  }

  /** The index part of `build_insert_ops`; `head` is the name the head had in the registry at that time. */
  function IndexOps(n: Node, head: Text): seq<Entry> {
    EntityEntries(Entities(n.pred), n.id) + FixedEntries(n, head)
  }

  // ----- state -----

  datatype WalEntry = Insert(node: Node) | Retract(id: Text) | Checkpoint

  /** Whole seconds of the start and the end of a validity; the end of an open one is the last i64. */
  type Window = (int, int)
  type Windows = map<Window, seq<Text>>

  datatype State = State(
    nodes: map<Text, Node>,
    log: seq<Entry>,
    depsRev: Cascade.Edges,
    byValidity: Windows,
    wal: seq<WalEntry>)

  const EMPTY := State(map[], [], map[], map[], [])

  datatype StoreError = NotFound(id: Text) | AlreadyExists(id: Text) | InvalidNode(reason: Text)

  /** A verifier's verdict on a node: the reason it fails, if it does. */
  type Verifier = Node -> Option<Text>

  function Verdict(verifier: Option<Verifier>, n: Node): Option<Text> {
    if verifier.Some? then verifier.value(n) else None
  }

  function AddDeps(edges: Cascade.Edges, deps: seq<Text>, id: Text): Cascade.Edges
    decreases deps
  {
    if deps == [] then edges
    else AddDeps(edges[deps[0] := Cascade.Dependents(edges, deps[0]) + [id]], deps[1..], id)
  }

  /** `timestamp()` rounds down. */
  function Seconds(t: Instant): int {
    t / NANOS
  }

  function WindowOf(v: Validity): Window {
    match v
    case Forever => (I64_MIN, I64_MAX)
    case Window(from, until) => (Seconds(from), if until.Some? then Seconds(until.value) else I64_MAX)
  }

  function Filed(windows: Windows, w: Window): seq<Text> {
    if w in windows then windows[w] else []
  }

  function AddWindow(windows: Windows, n: Node): Windows {
    windows[WindowOf(n.validity) := Filed(windows, WindowOf(n.validity)) + [n.id]]
  }

  // ----- operations -----

  /** What an accepted `insert` does. */
  function InsertNode(s: State, n: Node, registry: Registry): State {
    State(s.nodes[n.id := n],
          s.log + IndexOps(n, HeadKey(registry, n.pred.head)),
          AddDeps(s.depsRev, n.deps, n.id),
          AddWindow(s.byValidity, n),
          s.wal + [Insert(n)])
  }

  /** `insert`. */
  function InsertOne(
      s: State, n: Node, verifier: Option<Verifier>, registry: Registry): (State, Result<(), StoreError>) {
    if Verdict(verifier, n).Some? then (s, Err(InvalidNode(Verdict(verifier, n).value)))
    else if n.id in s.nodes then (s, Err(AlreadyExists(n.id)))
    else (InsertNode(s, n, registry), Ok(()))
  }

  function FirstFailure(verifier: Option<Verifier>, ns: seq<Node>): Option<Text> {
    if ns == [] then None
    else if Verdict(verifier, ns[0]).Some? then Verdict(verifier, ns[0])
    else FirstFailure(verifier, ns[1..])
  }

  /** The first id of a batch that is stored already or came earlier in the batch. */
  function FirstDuplicate(taken: set<Text>, ns: seq<Node>): Option<Text>
    decreases ns
  {
    if ns == [] then None
    else if ns[0].id in taken then Some(ns[0].id)
    else FirstDuplicate(taken + {ns[0].id}, ns[1..])
  }

  function PutAll(nodes: map<Text, Node>, ns: seq<Node>): map<Text, Node> {
    if ns == [] then nodes else PutAll(nodes, ns[..|ns| - 1])[ns[|ns| - 1].id := ns[|ns| - 1]]
  }

  function BatchOps(ns: seq<Node>, registry: Registry): seq<Entry> {
    if ns == [] then []
    else BatchOps(ns[..|ns| - 1], registry) + IndexOps(ns[|ns| - 1], HeadKey(registry, ns[|ns| - 1].pred.head))
  }

  function AddAllDeps(edges: Cascade.Edges, ns: seq<Node>): Cascade.Edges {
    if ns == [] then edges
    else AddDeps(AddAllDeps(edges, ns[..|ns| - 1]), ns[|ns| - 1].deps, ns[|ns| - 1].id)
  }

  function AddAllWindows(windows: Windows, ns: seq<Node>): Windows {
    if ns == [] then windows else AddWindow(AddAllWindows(windows, ns[..|ns| - 1]), ns[|ns| - 1])
  }

  function Inserts(ns: seq<Node>): seq<WalEntry> {
    if ns == [] then [] else Inserts(ns[..|ns| - 1]) + [Insert(ns[|ns| - 1])]
  }

  /** `insert_batch`: the node and index writes of all nodes first, then the in-memory indices and the log. */
  function InsertBatch(s: State, ns: seq<Node>, verifier: Option<Verifier>, registry: Registry)
      : (State, Result<(), StoreError>) {
    if FirstFailure(verifier, ns).Some? then (s, Err(InvalidNode(FirstFailure(verifier, ns).value)))
    else if FirstDuplicate(s.nodes.Keys, ns).Some? then
      (s, Err(AlreadyExists(FirstDuplicate(s.nodes.Keys, ns).value)))
    else
      (State(PutAll(s.nodes, ns), s.log + BatchOps(ns, registry), AddAllDeps(s.depsRev, ns),
             AddAllWindows(s.byValidity, ns), s.wal + Inserts(ns) + [Checkpoint]),
       Ok(()))
  }

  function Retractions(ids: seq<Text>): seq<WalEntry> {
    if ids == [] then [] else Retractions(ids[..|ids| - 1]) + [Retract(ids[|ids| - 1])]
  }

  datatype RetractResult = RetractResult(retracted: seq<Text>, truncated: bool, depthReached: nat)

  /** `retract_with_limit`; without a budget the node is not even looked up. */
  function RetractWithLimit(s: State, id: Text, max: nat): (State, Result<RetractResult, StoreError>) {
    if max == 0 then (s, Ok(RetractResult([], true, 0)))
    else if id !in s.nodes then (s, Err(NotFound(id)))
    else
      var w := Cascade.Run(s.nodes, s.depsRev, id, max);
      (s.(nodes := w.nodes, wal := s.wal + Retractions(w.retracted)),
       Ok(RetractResult(w.retracted, w.truncated, w.depthReached)))
  }

  // ----- runs -----

  datatype Op =
    | DoInsert(node: Node, verifier: Option<Verifier>, registry: Registry)
    | DoBatch(nodes: seq<Node>, verifier: Option<Verifier>, registry: Registry)
    | DoRetract(id: Text, max: nat)

  function Apply(s: State, op: Op): State {
    match op
    case DoInsert(n, verifier, registry) => InsertOne(s, n, verifier, registry).0
    case DoBatch(ns, verifier, registry) => InsertBatch(s, ns, verifier, registry).0
    case DoRetract(id, max) => RetractWithLimit(s, id, max).0
  }

  function RunOps(s: State, ops: seq<Op>): State {
    if ops == [] then s else Apply(RunOps(s, ops[..|ops| - 1]), ops[|ops| - 1])
  }

  // ----- replay and the invariant -----

  function Replay(wal: seq<WalEntry>): map<Text, Node> {
    if wal == [] then map[]
    else ReplayEntry(Replay(wal[..|wal| - 1]), wal[|wal| - 1])
  }

  function ReplayEntry(nodes: map<Text, Node>, e: WalEntry): map<Text, Node> {
    match e
    case Insert(n) => nodes[n.id := n]
    case Retract(id) => if id in nodes then Cascade.Mark(nodes, id) else nodes
    case Checkpoint => nodes
  }

  /** The nodes inserted so far, as they were inserted, in order. */
  function Inserted(wal: seq<WalEntry>): seq<Node> {
    if wal == [] then []
    else Inserted(wal[..|wal| - 1]) + (match wal[|wal| - 1] case Insert(n) => [n] case _ => [])
  }

  /** The same node, but for its status. */
  predicate SameFacts(a: Node, b: Node) {
    a.(status := b.status) == b
  }

  /** `ns` lists the stored nodes, each once, up to status. */
  ghost predicate Lists(ns: seq<Node>, nodes: map<Text, Node>) {
    && (forall i, j :: 0 <= i < j < |ns| ==> ns[i].id != ns[j].id)
    && (forall n <- ns :: n.id in nodes && SameFacts(n, nodes[n.id]))
    && (forall id <- nodes :: exists n :: n in ns && n.id == id)
  }

  function AllOps(ns: seq<Node>, heads: seq<Text>): seq<Entry>
    requires |heads| == |ns|
  {
    if ns == [] then []
    else AllOps(ns[..|ns| - 1], heads[..|ns| - 1]) + IndexOps(ns[|ns| - 1], heads[|ns| - 1])
  }

  /** `heads` are names the nodes' heads may have been indexed under. */
  ghost predicate HeadsFor(ns: seq<Node>, heads: seq<Text>) {
    |heads| == |ns| && forall i :: 0 <= i < |ns| && ns[i].pred.head.Name? ==> heads[i] == ns[i].pred.head.name
  }

  ghost predicate Logged(log: seq<Entry>, ns: seq<Node>) {
    exists heads :: HeadsFor(ns, heads) && log == AllOps(ns, heads)
  }

  /** The in-memory indices are those built by adding the nodes of `order` one after the other. */
  ghost predicate BuiltFrom(s: State, order: seq<Node>) {
    && Lists(order, s.nodes)
    && s.depsRev == AddAllDeps(map[], order)
    && s.byValidity == AddAllWindows(map[], order)
  }

  /** The index entries are those put for the nodes of `order`. */
  ghost predicate LoggedFrom(s: State, order: seq<Node>) {
    Lists(order, s.nodes) && Logged(s.log, order)
  }

  /** What holds of every store, reopened ones included: every index is built from the stored nodes, in some order. */
  ghost predicate Indexed(s: State) {
    && (exists order :: BuiltFrom(s, order))
    && (exists order :: LoggedFrom(s, order))
  }

  /** What holds of a store since it was started empty: replaying the write-ahead log gives the stored nodes, and
      every index is built from the inserted nodes in order. */
  ghost predicate Consistent(s: State) {
    && Replay(s.wal) == s.nodes
    && BuiltFrom(s, Inserted(s.wal))
    && LoggedFrom(s, Inserted(s.wal))
  }

  lemma ConsistentIndexed(s: State)
    requires Consistent(s)
    ensures Indexed(s)
  {
  }

  lemma EmptyConsistent()
    ensures Consistent(EMPTY)
  {
    assert HeadsFor([], []) && EMPTY.log == AllOps([], []);
  }

  // ----- insertion keeps the invariants -----

  lemma InsertedMore(wal: seq<WalEntry>, n: Node)
    ensures Inserted(wal + [Insert(n)]) == Inserted(wal) + [n]
    ensures Replay(wal + [Insert(n)]) == Replay(wal)[n.id := n]
  {
    var more := wal + [Insert(n)];
    assert more[..|more| - 1] == wal;
  }

  lemma LoggedMore(log: seq<Entry>, ns: seq<Node>, n: Node, head: Text)
    requires Logged(log, ns) && (n.pred.head.Name? ==> head == n.pred.head.name)
    ensures Logged(log + IndexOps(n, head), ns + [n])
  {
    hide IndexOps;
    var heads :| HeadsFor(ns, heads) && log == AllOps(ns, heads);
    var nsMore, headsMore := ns + [n], heads + [head];
    assert nsMore[..|nsMore| - 1] == ns && headsMore[..|nsMore| - 1] == heads;
    assert HeadsFor(nsMore, headsMore);
    assert log + IndexOps(n, head) == AllOps(nsMore, headsMore);
  }

  lemma ListsMore(ns: seq<Node>, nodes: map<Text, Node>, n: Node)
    requires Lists(ns, nodes) && n.id !in nodes
    ensures Lists(ns + [n], nodes[n.id := n])
  {
    var more, after := ns + [n], nodes[n.id := n];
    forall m | m in more ensures m.id in after && SameFacts(m, after[m.id]) {
      assert m in ns || m == n;
    }
    forall id | id in after ensures exists m :: m in more && m.id == id {
      if id in nodes {
        var m :| m in ns && m.id == id;
        assert m in more;
      } else {
        assert more[|ns|] == n;
      }
    }
  }

  lemma IndicesMore(ns: seq<Node>, n: Node)
    ensures AddAllDeps(map[], ns + [n]) == AddDeps(AddAllDeps(map[], ns), n.deps, n.id)
    ensures AddAllWindows(map[], ns + [n]) == AddWindow(AddAllWindows(map[], ns), n)
  {
    hide AddDeps, AddWindow;
    var more := ns + [n];
    assert more[..|more| - 1] == ns;
  }

  lemma InsertBuilt(s: State, n: Node, registry: Registry, order: seq<Node>)
    requires BuiltFrom(s, order) && n.id !in s.nodes
    ensures BuiltFrom(InsertNode(s, n, registry), order + [n])
  {
    hide Lists, AddAllDeps, AddAllWindows, IndexOps, AddDeps, AddWindow;
    ListsMore(order, s.nodes, n);
    IndicesMore(order, n);
  }

  lemma InsertLogged(s: State, n: Node, registry: Registry, order: seq<Node>)
    requires LoggedFrom(s, order) && n.id !in s.nodes
    ensures LoggedFrom(InsertNode(s, n, registry), order + [n])
  {
    hide Lists, Logged, IndexOps, AddDeps, AddWindow;
    ListsMore(order, s.nodes, n);
    LoggedMore(s.log, order, n, HeadKey(registry, n.pred.head));
  }

  lemma InsertIndexed(s: State, n: Node, registry: Registry)
    requires Indexed(s) && n.id !in s.nodes
    ensures Indexed(InsertNode(s, n, registry))
  {
    hide BuiltFrom, LoggedFrom, InsertNode;
    var order :| BuiltFrom(s, order);
    InsertBuilt(s, n, registry, order);
    var put :| LoggedFrom(s, put);
    InsertLogged(s, n, registry, put);
  }

  lemma InsertKeeps(s: State, n: Node, registry: Registry)
    requires Consistent(s) && n.id !in s.nodes
    ensures Consistent(InsertNode(s, n, registry))
  {
    hide BuiltFrom, LoggedFrom, IndexOps, AddDeps, AddWindow, Replay, Inserted;
    InsertedMore(s.wal, n);
    InsertBuilt(s, n, registry, Inserted(s.wal));
    InsertLogged(s, n, registry, Inserted(s.wal));
  }

  // ----- a batch is its insertions, one by one, and a checkpoint -----

  function InsertEach(s: State, ns: seq<Node>, registry: Registry): State {
    if ns == [] then s else InsertNode(InsertEach(s, ns[..|ns| - 1], registry), ns[|ns| - 1], registry)
  }

  lemma {:induction false} EachIsBatch(s: State, ns: seq<Node>, registry: Registry)
    ensures InsertEach(s, ns, registry)
         == State(PutAll(s.nodes, ns), s.log + BatchOps(ns, registry), AddAllDeps(s.depsRev, ns),
                  AddAllWindows(s.byValidity, ns), s.wal + Inserts(ns))
  {
    if ns == [] {
      assert s.log + [] == s.log && s.wal + [] == s.wal;
    } else {
      hide AddDeps, AddWindow, IndexOps, HeadKey;
      var n, rest := ns[|ns| - 1], ns[..|ns| - 1];
      EachIsBatch(s, rest, registry);
      EntriesAssociate(s.log, BatchOps(rest, registry), IndexOps(n, HeadKey(registry, n.pred.head)));
      WalAssociates(s.wal, Inserts(rest), [Insert(n)]);
    }
  }

  lemma EntriesAssociate(a: seq<Entry>, b: seq<Entry>, c: seq<Entry>)
    ensures a + (b + c) == a + b + c
  {
  }

  lemma WalAssociates(a: seq<WalEntry>, b: seq<WalEntry>, c: seq<WalEntry>)
    ensures a + (b + c) == a + b + c
  {
  }

  /** A batch is all or nothing: refused, it changes nothing; accepted, it is its nodes inserted one by one and then
      a checkpoint. */
  lemma BatchIsInserts(s: State, ns: seq<Node>, verifier: Option<Verifier>, registry: Registry)
    ensures var (after, r) := InsertBatch(s, ns, verifier, registry);
            if r.Err? then after == s
            else after == InsertEach(s, ns, registry).(wal := InsertEach(s, ns, registry).wal + [Checkpoint])
  {
    hide PutAll, BatchOps, AddAllDeps, AddAllWindows, Inserts, InsertEach, FirstFailure, FirstDuplicate;
    EachIsBatch(s, ns, registry);
  }

  lemma {:induction false} NoDuplicates(taken: set<Text>, ns: seq<Node>, i: nat, j: nat)
    requires FirstDuplicate(taken, ns).None? && i < |ns|
    ensures ns[i].id !in taken
    ensures j < i ==> ns[j].id != ns[i].id
    decreases ns
  {
    if i > 0 {
      NoDuplicates(taken + {ns[0].id}, ns[1..], i - 1, if j > 0 then j - 1 else 0);
    }
  }

  lemma {:induction false} EachKeys(s: State, ns: seq<Node>, registry: Registry)
    ensures InsertEach(s, ns, registry).nodes.Keys == s.nodes.Keys + (set n | n in ns :: n.id)
  {
    hide *;
    if ns == [] {
      NoKeys(s, registry);
    } else {
      EachKeys(s, ns[..|ns| - 1], registry);
      EachKeysStep(s, ns, registry);
      IdsMore(ns);
    }
  }

  lemma IdsMore(ns: seq<Node>)
    requires ns != []
    ensures (set n | n in ns :: n.id) == (set n | n in ns[..|ns| - 1] :: n.id) + {ns[|ns| - 1].id}
  {
    assert ns == ns[..|ns| - 1] + [ns[|ns| - 1]];
  }

  lemma NoKeys(s: State, registry: Registry)
    ensures InsertEach(s, [], registry).nodes.Keys == s.nodes.Keys + (set n: Node | n in [] :: n.id)
  {
  }

  lemma EachKeysStep(s: State, ns: seq<Node>, registry: Registry)
    requires ns != []
    ensures InsertEach(s, ns, registry).nodes.Keys
         == InsertEach(s, ns[..|ns| - 1], registry).nodes.Keys + {ns[|ns| - 1].id}
  {
    hide IndexOps, AddDeps, AddWindow, HeadKey;
  }

  lemma FreshInBatch(s: State, ns: seq<Node>, registry: Registry, i: nat)
    requires FirstDuplicate(s.nodes.Keys, ns).None? && i < |ns|
    ensures ns[i].id !in InsertEach(s, ns[..i], registry).nodes
  {
    hide InsertEach, FirstDuplicate;
    EachKeys(s, ns[..i], registry);
    NoDuplicates(s.nodes.Keys, ns, i, 0);
    forall n | n in ns[..i] ensures n.id != ns[i].id {
      var j :| 0 <= j < i && ns[..i][j] == n;
      NoDuplicates(s.nodes.Keys, ns, i, j);
    }
  }

  lemma {:induction false} FailureFound(verifier: Option<Verifier>, ns: seq<Node>)
    ensures FirstFailure(verifier, ns).None? <==> forall n <- ns :: Verdict(verifier, n).None?
  {
    if ns != [] {
      FailureFound(verifier, ns[1..]);
      assert ns == [ns[0]] + ns[1..];
    }
  }

  lemma {:induction false} DuplicateFound(taken: set<Text>, ns: seq<Node>)
    requires forall i :: 0 <= i < |ns| ==> ns[i].id !in taken
    requires forall i, j :: 0 <= j < i < |ns| ==> ns[j].id != ns[i].id
    ensures FirstDuplicate(taken, ns).None?
    decreases ns
  {
    if ns != [] {
      forall i | 0 <= i < |ns[1..]| ensures ns[1..][i].id !in taken + {ns[0].id} {
        assert ns[1..][i] == ns[i + 1];
      }
      DuplicateFound(taken + {ns[0].id}, ns[1..]);
    }
  }

  /** Inserting node `i` of a batch after the ones before it. */
  function Turn(s: State, ns: seq<Node>, verifier: Option<Verifier>, registry: Registry, i: nat)
      : (State, Result<(), StoreError>)
    requires i < |ns|
  {
    InsertOne(InsertEach(s, ns[..i], registry), ns[i], verifier, registry)
  }

  /** A batch is accepted exactly when `insert` accepts its nodes one after the other. */
  lemma BatchAccepted(s: State, ns: seq<Node>, verifier: Option<Verifier>, registry: Registry)
    ensures InsertBatch(s, ns, verifier, registry).1.Ok?
       <==> forall i :: 0 <= i < |ns| ==> Turn(s, ns, verifier, registry, i).1.Ok?
  {
    hide InsertEach, FirstDuplicate, FirstFailure, InsertNode, PutAll, BatchOps, AddAllDeps, AddAllWindows, Inserts;
    FailureFound(verifier, ns);
    if InsertBatch(s, ns, verifier, registry).1.Ok? {
      forall i | 0 <= i < |ns| ensures Turn(s, ns, verifier, registry, i).1.Ok? {
        FreshInBatch(s, ns, registry, i);
        assert ns[i] in ns;
      }
    }
    if forall i :: 0 <= i < |ns| ==> Turn(s, ns, verifier, registry, i).1.Ok? {
      TurnsDistinct(s, ns, verifier, registry);
      DuplicateFound(s.nodes.Keys, ns);
    }
  }

  lemma TurnsDistinct(s: State, ns: seq<Node>, verifier: Option<Verifier>, registry: Registry)
    requires forall i :: 0 <= i < |ns| ==> Turn(s, ns, verifier, registry, i).1.Ok?
    ensures forall i :: 0 <= i < |ns| ==> ns[i].id !in s.nodes && Verdict(verifier, ns[i]).None?
    ensures forall i, j :: 0 <= j < i < |ns| ==> ns[j].id != ns[i].id
  {
    hide InsertEach, InsertNode;
    forall i | 0 <= i < |ns|
      ensures ns[i].id !in s.nodes && Verdict(verifier, ns[i]).None? && forall j :: 0 <= j < i ==> ns[j].id != ns[i].id
    {
      assert Turn(s, ns, verifier, registry, i).1.Ok?;
      EachKeys(s, ns[..i], registry);
      assert forall j :: 0 <= j < i ==> ns[..i][j] == ns[j];
      assert forall j :: 0 <= j < i ==> ns[j] in ns[..i];
    }
  }

  lemma {:induction false} EachKeeps(s: State, ns: seq<Node>, registry: Registry, i: nat)
    requires FirstDuplicate(s.nodes.Keys, ns).None? && i <= |ns|
    ensures Consistent(s) ==> Consistent(InsertEach(s, ns[..i], registry))
    ensures Indexed(s) ==> Indexed(InsertEach(s, ns[..i], registry))
    decreases i
  {
    hide Consistent, Indexed, InsertNode, FirstDuplicate;
    if i > 0 {
      EachKeeps(s, ns, registry, i - 1);
      FreshInBatch(s, ns, registry, i - 1);
      var before := InsertEach(s, ns[..i - 1], registry);
      if Consistent(before) {
        InsertKeeps(before, ns[i - 1], registry);
      }
      if Indexed(before) {
        InsertIndexed(before, ns[i - 1], registry);
      }
      assert ns[..i][..i - 1] == ns[..i - 1];
    }
  }

  lemma CheckpointKeeps(s: State)
    ensures Consistent(s) ==> Consistent(s.(wal := s.wal + [Checkpoint]))
    ensures Indexed(s) ==> Indexed(s.(wal := s.wal + [Checkpoint]))
  {
    hide Lists, Logged, AddAllDeps, AddAllWindows;
    assert (s.wal + [Checkpoint])[..|s.wal|] == s.wal;
    assert Inserted(s.wal) + [] == Inserted(s.wal);
    SameIndices(s, s.(wal := s.wal + [Checkpoint]));
    hide Indexed;
  }

  /** The indices do not depend on the write-ahead log. */
  lemma SameIndices(s: State, t: State)
    requires t == s.(wal := t.wal)
    ensures Indexed(s) ==> Indexed(t)
    ensures forall order :: BuiltFrom(s, order) ==> BuiltFrom(t, order)
    ensures forall order :: LoggedFrom(s, order) ==> LoggedFrom(t, order)
  {
    hide Lists, Logged, AddAllDeps, AddAllWindows;
    forall order | BuiltFrom(s, order) ensures BuiltFrom(t, order) {
    }
    forall order | LoggedFrom(s, order) ensures LoggedFrom(t, order) {
    }
  }

  lemma BatchKeeps(s: State, ns: seq<Node>, verifier: Option<Verifier>, registry: Registry)
    ensures Consistent(s) ==> Consistent(InsertBatch(s, ns, verifier, registry).0)
    ensures Indexed(s) ==> Indexed(InsertBatch(s, ns, verifier, registry).0)
  {
    BatchIsInserts(s, ns, verifier, registry);
    if InsertBatch(s, ns, verifier, registry).1.Ok? {
      EachKeeps(s, ns, registry, |ns|);
      assert ns[..|ns|] == ns;
      CheckpointKeeps(InsertEach(s, ns, registry));
    }
    hide Consistent, Indexed, InsertEach, PutAll, BatchOps, AddAllDeps, AddAllWindows, Inserts;
  }

  // ----- retraction keeps the invariant -----

  lemma {:induction false} ReplayRetractions(wal: seq<WalEntry>, ids: seq<Text>)
    ensures Inserted(wal + Retractions(ids)) == Inserted(wal)
    ensures Replay(wal + Retractions(ids)) == MarkAll(Replay(wal), ids)
  {
    if ids == [] {
      assert wal + [] == wal;
    } else {
      var rest := ids[..|ids| - 1];
      ReplayRetractions(wal, rest);
      RetractionLogged(wal + Retractions(rest), ids[|ids| - 1]);
      WalAssociates(wal, Retractions(rest), [Retract(ids[|ids| - 1])]);
      hide Replay, Inserted;
    }
  }

  lemma RetractionLogged(wal: seq<WalEntry>, id: Text)
    ensures Inserted(wal + [Retract(id)]) == Inserted(wal)
    ensures Replay(wal + [Retract(id)]) == ReplayEntry(Replay(wal), Retract(id))
  {
    assert (wal + [Retract(id)])[..|wal|] == wal;
    assert Inserted(wal) + [] == Inserted(wal);
  }

  function MarkAll(nodes: map<Text, Node>, ids: seq<Text>): map<Text, Node> {
    if ids == [] then nodes
    else ReplayEntry(MarkAll(nodes, ids[..|ids| - 1]), Retract(ids[|ids| - 1]))
  }

  lemma {:induction false} MarkAllIs(nodes: map<Text, Node>, ids: seq<Text>)
    ensures MarkAll(nodes, ids).Keys == nodes.Keys
    ensures forall id <- nodes ::
              MarkAll(nodes, ids)[id] == if id in ids then nodes[id].(status := Retracted) else nodes[id]
  {
    if ids != [] {
      var rest, last := ids[..|ids| - 1], ids[|ids| - 1];
      MarkAllIs(nodes, rest);
      assert ids == rest + [last];
      assert forall id :: id in ids <==> id in rest || id == last;
    }
  }

  lemma TracksIsMarkAll(nodes: map<Text, Node>, w: Cascade.Walk)
    requires Cascade.Tracks(nodes, w)
    ensures MarkAll(nodes, w.retracted) == w.nodes
  {
    MarkAllIs(nodes, w.retracted);
  }

  /** What every operation keeps of the nodes: none disappears and only the status can change, to retracted. */
  ghost predicate Preserves(before: map<Text, Node>, after: map<Text, Node>) {
    forall id <- before :: id in after
      && (after[id] == before[id] || after[id] == before[id].(status := Retracted))
  }

  lemma TracksPreserves(nodes: map<Text, Node>, w: Cascade.Walk)
    requires Cascade.Tracks(nodes, w)
    ensures Preserves(nodes, w.nodes) && w.nodes.Keys == nodes.Keys
  {
  }

  lemma ListsPreserved(ns: seq<Node>, before: map<Text, Node>, after: map<Text, Node>)
    requires Lists(ns, before) && Preserves(before, after) && after.Keys == before.Keys
    ensures Lists(ns, after)
  {
    forall n | n in ns ensures n.id in after && SameFacts(n, after[n.id]) {
    }
  }

  lemma RetractIndexed(s: State, t: State)
    requires t.(nodes := s.nodes, wal := s.wal) == s && Preserves(s.nodes, t.nodes) && t.nodes.Keys == s.nodes.Keys
    ensures forall order :: BuiltFrom(s, order) ==> BuiltFrom(t, order)
    ensures forall order :: LoggedFrom(s, order) ==> LoggedFrom(t, order)
    ensures Indexed(s) ==> Indexed(t)
  {
    hide Lists, Logged, AddAllDeps, AddAllWindows, Preserves;
    forall order | BuiltFrom(s, order) ensures BuiltFrom(t, order) {
      ListsPreserved(order, s.nodes, t.nodes);
    }
    forall order | LoggedFrom(s, order) ensures LoggedFrom(t, order) {
      ListsPreserved(order, s.nodes, t.nodes);
    }
  }

  lemma RetractKeeps(s: State, id: Text, max: nat)
    ensures Consistent(s) ==> Consistent(RetractWithLimit(s, id, max).0)
    ensures Indexed(s) ==> Indexed(RetractWithLimit(s, id, max).0)
    ensures Preserves(s.nodes, RetractWithLimit(s, id, max).0.nodes)
  {
    hide BuiltFrom, LoggedFrom, Indexed, Replay, Inserted, Cascade.Run, Retractions, MarkAll, Cascade.Reach,
         Cascade.Elements, Cascade.Tracks;
    if max > 0 && id in s.nodes {
      var w := Cascade.Run(s.nodes, s.depsRev, id, max);
      Cascade.RunSafe(s.nodes, s.depsRev, id, max);
      ReplayRetractions(s.wal, w.retracted);
      TracksIsMarkAll(s.nodes, w);
      TracksPreserves(s.nodes, w);
      RetractIndexed(s, RetractWithLimit(s, id, max).0);
    }
  }

  // ----- every run -----

  lemma ApplyKeeps(s: State, op: Op)
    ensures Consistent(s) ==> Consistent(Apply(s, op))
    ensures Indexed(s) ==> Indexed(Apply(s, op))
  {
    hide Consistent, Indexed, InsertBatch, RetractWithLimit, InsertNode;
    match op
    case DoInsert(n, verifier, registry) =>
      if n.id !in s.nodes {
        if Consistent(s) {
          InsertKeeps(s, n, registry);
        }
        if Indexed(s) {
          InsertIndexed(s, n, registry);
        }
      }
    case DoBatch(ns, verifier, registry) => BatchKeeps(s, ns, verifier, registry);
    case DoRetract(id, max) => RetractKeeps(s, id, max);
  }

  /** After every run from an empty store, replaying the write-ahead log from nothing gives the stored nodes, and
      the indices are those built from the inserted nodes. */
  lemma {:induction false} EveryRunConsistent(ops: seq<Op>)
    ensures Consistent(RunOps(EMPTY, ops))
  {
    hide Consistent, Apply;
    if ops == [] {
      EmptyConsistent();
    } else {
      EveryRunConsistent(ops[..|ops| - 1]);
      ApplyKeeps(RunOps(EMPTY, ops[..|ops| - 1]), ops[|ops| - 1]);
    }
  }

  lemma PreservesTransitive(a: map<Text, Node>, b: map<Text, Node>, c: map<Text, Node>)
    requires Preserves(a, b) && Preserves(b, c)
    ensures Preserves(a, c)
  {
    forall id | id in a ensures id in c && (c[id] == a[id] || c[id] == a[id].(status := Retracted)) {
      assert id in b;
    }
  }

  lemma {:induction false} PutAllPreserves(nodes: map<Text, Node>, ns: seq<Node>)
    requires forall n <- ns :: n.id !in nodes
    ensures Preserves(nodes, PutAll(nodes, ns))
  {
    if ns != [] {
      PutAllPreserves(nodes, ns[..|ns| - 1]);
      assert ns[|ns| - 1] in ns;
    }
  }

  lemma NoneTaken(taken: set<Text>, ns: seq<Node>)
    requires FirstDuplicate(taken, ns).None?
    ensures forall n <- ns :: n.id !in taken
  {
    forall n | n in ns ensures n.id !in taken {
      var i :| 0 <= i < |ns| && ns[i] == n;
      NoDuplicates(taken, ns, i, 0);
    }
  }

  lemma ApplyPreserves(s: State, op: Op)
    ensures Preserves(s.nodes, Apply(s, op).nodes)
  {
    hide Consistent, RetractWithLimit, PutAll, FirstDuplicate, FirstFailure;
    match op
    case DoInsert(_, _, _) =>
    case DoBatch(ns, verifier, registry) =>
      if FirstDuplicate(s.nodes.Keys, ns).None? {
        NoneTaken(s.nodes.Keys, ns);
        PutAllPreserves(s.nodes, ns);
      }
    case DoRetract(id, max) => RetractKeeps(s, id, max);
  }

  /** Over every run, from an empty or a reopened store, no id disappears, retraction changes only the status and the
      indices stay those of the stored nodes. */
  lemma {:induction false} EveryRunPreserves(s: State, ops: seq<Op>)
    ensures Preserves(s.nodes, RunOps(s, ops).nodes)
    ensures Indexed(s) ==> Indexed(RunOps(s, ops))
  {
    hide Indexed, Apply, Preserves;
    if ops == [] {
      PreservesSelf(s.nodes);
    } else {
      var before := RunOps(s, ops[..|ops| - 1]);
      EveryRunPreserves(s, ops[..|ops| - 1]);
      ApplyKeeps(before, ops[|ops| - 1]);
      ApplyPreserves(before, ops[|ops| - 1]);
      PreservesTransitive(s.nodes, before.nodes, Apply(before, ops[|ops| - 1]).nodes);
    }
  }

  lemma PreservesSelf(nodes: map<Text, Node>)
    ensures Preserves(nodes, nodes)
  {
  }
}
