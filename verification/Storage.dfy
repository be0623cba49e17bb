/** Index storage (`factum-rt/src/storage.rs`) and the sorted-key scan of `factum-rt/src/rocksdb_backend.rs`. */
module Storage {
  import opened Types
  import Bags
  import Utf8

  // ----- index keys -----

  const ZERO: char := '\0'

  function EncodePrefix(prefix: Text): Text {
    prefix + [ZERO]
  }

  function EncodeKey(prefix: Text, id: Text): Text {
    prefix + [ZERO] + id
  }

  /** The position after the last zero byte, if there is one. */
  function AfterLastZero(key: Text): (r: Option<nat>)
    ensures r.Some? ==> 0 < r.value <= |key| && key[r.value - 1] == ZERO
    ensures r.Some? ==> forall i :: r.value <= i < |key| ==> key[i] != ZERO
    ensures r.None? ==> ZERO !in key
  {
    if key == [] then None
    else if key[|key| - 1] == ZERO then Some(|key|)
    else AfterLastZero(key[..|key| - 1])
  }

  /** `decode_node_id_from_index`. */
  function DecodeId(key: Text): Option<Text> {
    match AfterLastZero(key)
    case Some(i) => if Utf8.Valid(key[i..]) then Some(key[i..]) else None
    case None => None
  }

  predicate ZeroFree(s: Text) {
    ZERO !in s
  }

  predicate StartsWith(key: Text, prefix: Text) {
    |prefix| <= |key| && key[..|prefix|] == prefix
  }

  /** A key decodes to the id it was made for exactly when the id holds no zero byte: otherwise to what follows the
      last one. Ids are strings, so they are valid UTF-8. */
  lemma DecodeEncoded(prefix: Text, id: Text)
    requires Utf8.Valid(id)
    ensures DecodeId(EncodeKey(prefix, id)) == Some(id) <==> ZeroFree(id)
  {
    if ZeroFree(id) {
      ZeroThenId(prefix, id);
    } else {
      LaterZero(prefix, id);
    }
    hide AfterLastZero, Utf8.Valid, EncodeKey;
  }

  lemma LaterZero(prefix: Text, id: Text)
    requires !ZeroFree(id)
    ensures AfterLastZero(EncodeKey(prefix, id)).Some?
    ensures AfterLastZero(EncodeKey(prefix, id)).value <= |EncodeKey(prefix, id)|
    ensures |EncodeKey(prefix, id)[AfterLastZero(EncodeKey(prefix, id)).value..]| < |id|
  {
    hide AfterLastZero;
    var key := EncodeKey(prefix, id);
    var i :| 0 <= i < |id| && id[i] == ZERO;
    assert key[|prefix| + 1 + i] == ZERO;
    assert key[|prefix| + 1 + i] in key;
    assert AfterLastZero(key).Some?;
    assert AfterLastZero(key).value > |prefix| + 1 + i;
  }

  lemma ZeroThenId(prefix: Text, id: Text)
    requires ZeroFree(id)
    ensures |prefix| + 1 <= |EncodeKey(prefix, id)| && EncodeKey(prefix, id)[|prefix| + 1..] == id
    ensures AfterLastZero(EncodeKey(prefix, id)) == Some(|prefix| + 1)
  {
    hide AfterLastZero;
    var key := EncodeKey(prefix, id);
    assert key[|prefix|] == ZERO;
    assert forall i :: 0 <= i < |id| ==> key[|prefix| + 1 + i] == id[i] && id[i] in id;
    LastZeroAt(key, |prefix|);
  }

  lemma LastZeroAt(key: Text, i: nat)
    requires i < |key| && key[i] == ZERO && forall j :: i < j < |key| ==> key[j] != ZERO
    ensures AfterLastZero(key) == Some(i + 1)
  {
    hide AfterLastZero;
    assert key[i] in key;
  }

  /** A scan for a zero-free prefix meets the keys made for that prefix and, since nothing stops a stored
      prefix from containing a zero byte, the keys made for prefixes that continue it after a zero. */
  lemma ScanMeets(prefix: Text, other: Text, id: Text)
    requires ZeroFree(prefix)
    ensures StartsWith(EncodeKey(other, id), EncodePrefix(prefix))
        <==> other == prefix || StartsWith(other, EncodePrefix(prefix))
  {
    var key, scan := EncodeKey(other, id), EncodePrefix(prefix);
    if StartsWith(key, scan) {
      assert forall i :: 0 <= i < |prefix| ==> key[i] == prefix[i];
      assert key[|prefix|] == ZERO;
      assert key[|other|] == ZERO;
      if |other| == |prefix| {
        assert other == key[..|prefix|];
      } else if |other| > |prefix| {
        assert other[..|scan|] == key[..|scan|];
      }
    }
    if other == prefix {
      assert key[..|scan|] == scan;
    }
    if StartsWith(other, scan) {
      assert key[..|scan|] == other[..|scan|];
    }
  }

  /** The scan of a prefix meets the key made for `name` and `id`. */
  predicate Meets(name: Text, id: Text, prefix: Text) {
    StartsWith(EncodeKey(name, id), EncodePrefix(prefix))
  }

  /** Which keys a scan meets, for all texts: those made for the prefix itself, for names that continue it after a
      zero byte and, when the prefix holds a zero byte itself, for a name and an id that together spell it out. */
  lemma MeetsExactly(name: Text, id: Text, prefix: Text)
    ensures Meets(name, id, prefix)
       <==> || name == prefix
            || StartsWith(name, EncodePrefix(prefix))
            || (StartsWith(prefix, EncodePrefix(name)) && StartsWith(id, EncodePrefix(prefix[|name| + 1..])))
  {
    hide StartsWith;
    if |name| == |prefix| {
      SameLength(name, id, prefix);
    } else if |name| > |prefix| {
      LongerName(name, id, prefix);
    } else {
      LongerPrefix(name, id, prefix);
    }
    assert StartsWith(name, EncodePrefix(prefix)) ==> |name| > |prefix| by {
      StartsLonger(name, prefix);
    }
    assert StartsWith(prefix, EncodePrefix(name)) ==> |prefix| > |name| by {
      StartsLonger(prefix, name);
    }
  }

  lemma StartsLonger(key: Text, prefix: Text)
    ensures StartsWith(key, EncodePrefix(prefix)) ==> |key| > |prefix|
  {
  }

  lemma SameLength(name: Text, id: Text, prefix: Text)
    requires |name| == |prefix|
    ensures Meets(name, id, prefix) <==> name == prefix
  {
    assert EncodeKey(name, id)[..|prefix| + 1] == name + [ZERO];
    assert (name + [ZERO])[..|name|] == name && (prefix + [ZERO])[..|name|] == prefix;
  }

  lemma LongerName(name: Text, id: Text, prefix: Text)
    requires |name| > |prefix|
    ensures Meets(name, id, prefix) <==> StartsWith(name, EncodePrefix(prefix))
  {
    assert EncodeKey(name, id)[..|prefix| + 1] == name[..|prefix| + 1];
  }

  lemma LongerPrefix(name: Text, id: Text, prefix: Text)
    requires |name| < |prefix|
    ensures Meets(name, id, prefix)
       <==> StartsWith(prefix, EncodePrefix(name)) && StartsWith(id, EncodePrefix(prefix[|name| + 1..]))
  {
    var rest := prefix[|name| + 1..];
    assert EncodeKey(name, id) == EncodePrefix(name) + id;
    assert EncodePrefix(prefix) == prefix[..|name| + 1] + EncodePrefix(rest);
    hide EncodeKey, EncodePrefix;
    SplitStart(EncodePrefix(name), id, prefix[..|name| + 1], EncodePrefix(rest));
    StartsAt(prefix, EncodePrefix(name));
  }

  lemma SplitStart(a: Text, b: Text, c: Text, d: Text)
    requires |a| == |c|
    ensures StartsWith(a + b, c + d) <==> a == c && StartsWith(b, d)
  {
    if StartsWith(a + b, c + d) {
      assert (a + b)[..|c + d|] == c + d;
      assert (a + b)[..|c + d|][..|a|] == a && (c + d)[..|a|] == c;
      assert (a + b)[..|c + d|][|a|..] == b[..|d|] && (c + d)[|a|..] == d;
    }
    if a == c && StartsWith(b, d) {
      assert (a + b)[..|c + d|] == a + b[..|d|];
    }
  }

  lemma StartsAt(s: Text, t: Text)
    requires |t| <= |s|
    ensures StartsWith(s, t) <==> t == s[..|t|]
  {
  }

  /** Prefixes that cannot be confused: zero-free ones, and ones of one fixed length. */
  predicate Separable(prefix: Text, other: Text) {
    (ZeroFree(prefix) && ZeroFree(other)) || |prefix| == |other|
  }

  lemma ZeroInside(prefix: Text, other: Text)
    ensures StartsWith(other, EncodePrefix(prefix)) ==> ZERO in other
  {
    if StartsWith(other, EncodePrefix(prefix)) {
      assert other[..|prefix| + 1][|prefix|] == ZERO;
    }
  }

  lemma ScanSeparates(prefix: Text, other: Text, id: Text)
    requires Separable(prefix, other)
    ensures StartsWith(EncodeKey(other, id), EncodePrefix(prefix)) <==> other == prefix
  {
    if ZeroFree(prefix) && ZeroFree(other) {
      ScanMeets(prefix, other, id);
      ZeroInside(prefix, other);
    } else {
      assert EncodeKey(other, id)[..|prefix| + 1] == other + [ZERO];
      assert (other + [ZERO])[..|other|] == other && (prefix + [ZERO])[..|prefix|] == prefix;
    }
  }

  // ----- the in-memory index -----

  datatype Family = ByEntity | ByPred | BySrc | ByPerm

  /** One index entry, as `put_index` receives it. */
  datatype Entry = Entry(family: Family, key: Text, id: Text)

  function IdOf(e: Entry): Text {
    e.id
  }

  function IdsOf(es: seq<Entry>): seq<Text> {
    Bags.Map(IdOf, es)
  }

  /** The entries a scan meets. */
  function Met(log: seq<Entry>, family: Family, scan: Text): seq<Entry> {
    Bags.Filter((e: Entry) => e.family == family && StartsWith(e.key, scan), log)
  }

  /** What a scan returns, up to order: the ids of the entries put under the prefix, as often as they were. */
  function Scan(log: seq<Entry>, family: Family, prefix: Text): seq<Text> {
    IdsOf(Met(log, family, EncodePrefix(prefix)))
  }

  function AtKey(log: seq<Entry>, family: Family, key: Text): seq<Text> {
    IdsOf(Bags.Filter((e: Entry) => e.family == family && e.key == key, log))
  }

  function MetIn(log: seq<Entry>, family: Family, scan: Text, keys: set<Text>): seq<Text> {
    IdsOf(Bags.Filter((e: Entry) => e.family == family && StartsWith(e.key, scan) && e.key in keys, log))
  }

  /** Scanning one more key adds exactly the ids listed there. */
  lemma {:induction false} MetInMore(log: seq<Entry>, family: Family, scan: Text, keys: set<Text>, key: Text)
    requires key !in keys
    ensures multiset(MetIn(log, family, scan, keys + {key}))
         == multiset(MetIn(log, family, scan, keys))
            + (if StartsWith(key, scan) then multiset(AtKey(log, family, key)) else multiset{})
  {
    hide *;
    if log == [] {
      MetInNothing(family, scan, keys);
      MetInNothing(family, scan, keys + {key});
      AtKeyNothing(family, key);
    } else {
      MetInMore(log[1..], family, scan, keys, key);
      MetInCons(log, family, scan, keys);
      MetInCons(log, family, scan, keys + {key});
      AtKeyCons(log, family, key);
    }
  }

  lemma MetInNothing(family: Family, scan: Text, keys: set<Text>)
    ensures MetIn([], family, scan, keys) == []
  {
  }

  lemma AtKeyNothing(family: Family, key: Text)
    ensures AtKey([], family, key) == []
  {
  }

  lemma IdsOfCons(e: Entry, es: seq<Entry>)
    ensures IdsOf([e] + es) == [e.id] + IdsOf(es)
    ensures multiset([e.id] + IdsOf(es)) == multiset{e.id} + multiset(IdsOf(es))
    ensures IdsOf([]) == []
  {
    assert ([e] + es)[1..] == es;
  }

  lemma MetInCons(log: seq<Entry>, family: Family, scan: Text, keys: set<Text>)
    requires log != []
    ensures multiset(MetIn(log, family, scan, keys))
         == (if log[0].family == family && StartsWith(log[0].key, scan) && log[0].key in keys
             then multiset{log[0].id} else multiset{})
            + multiset(MetIn(log[1..], family, scan, keys))
  {
    var p := (e: Entry) => e.family == family && StartsWith(e.key, scan) && e.key in keys;
    IdsOfCons(log[0], Bags.Filter(p, log[1..]));
    assert [] + Bags.Filter(p, log[1..]) == Bags.Filter(p, log[1..]);
    hide StartsWith, IdsOf;
  }

  lemma AtKeyCons(log: seq<Entry>, family: Family, key: Text)
    requires log != []
    ensures multiset(AtKey(log, family, key))
         == (if log[0].family == family && log[0].key == key then multiset{log[0].id} else multiset{})
            + multiset(AtKey(log[1..], family, key))
  {
    var p := (e: Entry) => e.family == family && e.key == key;
    IdsOfCons(log[0], Bags.Filter(p, log[1..]));
    assert [] + Bags.Filter(p, log[1..]) == Bags.Filter(p, log[1..]);
    hide IdsOf;
  }

  /** `InMemoryBackend`. The ghost `log` is the sequence of index entries put and not deleted; the map lists
      at every key exactly the ids logged there, in order. */
  class InMemoryBackend {
    var nodes: map<Text, Node>
    var indices: map<(Family, Text), seq<Text>>
    ghost var log: seq<Entry>

    ghost predicate Valid()
      reads this
    {
      && (forall family, key :: AtKey(log, family, key) == Listed(family, key))
      && (forall id <- nodes :: nodes[id].id == id)
    }

    /** The ids listed at a key. */
    ghost function Listed(family: Family, key: Text): seq<Text>
      reads this
    {
      if (family, key) in indices then indices[(family, key)] else []
    }

    constructor ()
      ensures Valid() && nodes == map[] && log == []
    {
      nodes := map[];
      indices := map[];
      log := [];
    }

    method GetNode(id: Text) returns (r: Option<Node>)
      ensures r == if id in nodes then Some(nodes[id]) else None
    {
      r := if id in nodes then Some(nodes[id]) else None;
    }

    method PutNode(node: Node)
      requires Valid()
      modifies this`nodes
      ensures Valid() && nodes == old(nodes)[node.id := node]
    {
      nodes := nodes[node.id := node];
    }

    /** `put_index`. */
    method PutIndex(e: Entry)
      requires Valid()
      modifies this`indices, this`log
      ensures Valid() && log == old(log) + [e]
    {
      forall family, key ensures AtKey(log + [e], family, key)
                              == AtKey(log, family, key) + if e.family == family && e.key == key then [e.id] else [] {
        AtKeySnoc(log, e, family, key);
      }
      var ids := if (e.family, e.key) in indices then indices[(e.family, e.key)] else [];
      indices := indices[(e.family, e.key) := ids + [e.id]];
      log := log + [e];
    }

    /** The index part of `batch_write`: the puts in order. */
    method PutIndexes(es: seq<Entry>)
      requires Valid()
      modifies this`indices, this`log
      ensures Valid() && log == old(log) + es
    {
      for i := 0 to |es|
        invariant Valid() && log == old(log) + es[..i]
      {
        PutIndex(es[i]);
        assert es[..i] + [es[i]] == es[..i + 1];
      }
      assert es[..|es|] == es;
    }

    /** `iter_nodes`: every stored node once, in whatever order the hash map has. */
    method IterNodes() returns (ns: seq<Node>)
      requires Valid()
      ensures forall i, j :: 0 <= i < j < |ns| ==> ns[i].id != ns[j].id
      ensures forall n :: n in ns <==> n.id in nodes && nodes[n.id] == n
    {
      var todo := nodes.Keys;
      ns := [];
      while todo != {}
        invariant todo <= nodes.Keys
        invariant forall i, j :: 0 <= i < j < |ns| ==> ns[i].id != ns[j].id
        invariant forall n :: n in ns <==> n.id in nodes && n.id !in todo && nodes[n.id] == n
        decreases todo
      {
        var id :| id in todo;
        ghost var before := ns;
        ns := ns + [nodes[id]];
        assert forall i :: 0 <= i < |before| ==> before[i] in before;
        todo := todo - {id};
      }
    }

    /** `scan_index`: goes over the keys in whatever order the hash map has. */
    method ScanIndex(family: Family, prefix: Text) returns (ids: seq<Text>)
      requires Valid()
      ensures Bags.Permutes(ids, Scan(log, family, prefix))
    {
      var scan := EncodePrefix(prefix);
      var todo := set k | k in indices && k.0 == family :: k.1;
      ghost var all := todo;
      ids := [];
      NoKeys(log, family, scan);
      assert all - todo == {};
      while todo != {}
        invariant todo <= all
        invariant multiset(ids) == multiset(MetIn(log, family, scan, all - todo))
        decreases todo
      {
        var key :| key in todo;
        assert (family, key) in indices;
        MetInMore(log, family, scan, all - todo, key);
        assert all - (todo - {key}) == all - todo + {key};
        if StartsWith(key, scan) {
          ids := ids + indices[(family, key)];
          assert AtKey(log, family, key) == Listed(family, key);
        }
        todo := todo - {key};
      }
      assert all - {} == all;
      forall key | key !in all ensures AtKey(log, family, key) == [] {
        assert (family, key) !in indices;
      }
      AllKeys(log, family, scan, all);
    }
  }

  lemma {:induction false} AtKeySnoc(log: seq<Entry>, e: Entry, family: Family, key: Text)
    ensures AtKey(log + [e], family, key)
         == AtKey(log, family, key) + if e.family == family && e.key == key then [e.id] else []
  {
    var p := (x: Entry) => x.family == family && x.key == key;
    Bags.FilterConcat(p, log, [e]);
    IdsOfConcat(Bags.Filter(p, log), Bags.Filter(p, [e]));
    IdsOfCons(e, []);
    assert [e] + [] == [e];
  }

  lemma {:induction false} IdsOfConcat(a: seq<Entry>, b: seq<Entry>)
    ensures IdsOf(a + b) == IdsOf(a) + IdsOf(b)
  {
  }

  lemma {:induction false} NoKeys(log: seq<Entry>, family: Family, scan: Text)
    ensures MetIn(log, family, scan, {}) == []
  {
    if log != [] {
      NoKeys(log[1..], family, scan);
    }
  }

  /** Scanning all the keys there are is scanning the log. */
  lemma {:induction false} AllKeys(log: seq<Entry>, family: Family, scan: Text, keys: set<Text>)
    requires forall key | key !in keys :: AtKey(log, family, key) == []
    ensures MetIn(log, family, scan, keys) == IdsOf(Met(log, family, scan))
  {
    if log != [] {
      forall key | key !in keys
        ensures AtKey(log[1..], family, key) == [] && (log[0].family == family ==> log[0].key != key)
      {
        AtKeyHead(log, family, key);
      }
      AllKeys(log[1..], family, scan, keys);
    }
  }

  lemma AtKeyHead(log: seq<Entry>, family: Family, key: Text)
    requires log != [] && AtKey(log, family, key) == []
    ensures AtKey(log[1..], family, key) == [] && !(log[0].family == family && log[0].key == key)
  {
    AtKeyCons(log, family, key);
    hide AtKey;
    assert multiset(AtKey(log, family, key)) == multiset{};
    assert |multiset(AtKey(log[1..], family, key))| == 0;
  }
}
