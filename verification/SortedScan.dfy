/** `scan_index` of `factum-rt/src/rocksdb_backend.rs`: a walk over keys in byte order that seeks the prefix and
    stops at the first key past it. */
module SortedScan {
  import opened Types
  import opened Storage
  import Bags
  import Utf8

  /** Byte-wise lexicographic order. */
  predicate Less(a: Text, b: Text) {
    b != [] && (a == [] || a[0] < b[0] || (a[0] == b[0] && Less(a[1..], b[1..])))
  }

  ghost predicate Sorted(keys: seq<Text>) {
    forall i, j :: 0 <= i < j < |keys| ==> Less(keys[i], keys[j])
  }

  lemma StartsWithTail(key: Text, scan: Text)
    requires key != [] && scan != [] && key[0] == scan[0]
    ensures StartsWith(key, scan) <==> StartsWith(key[1..], scan[1..])
  {
    if StartsWith(key, scan) {
      assert key[1..][..|scan| - 1] == scan[1..];
    }
    if StartsWith(key[1..], scan[1..]) {
      assert key[..|scan|] == [key[0]] + key[1..][..|scan| - 1];
      assert scan == [scan[0]] + scan[1..];
    }
  }

  lemma StartsWithHead(key: Text, scan: Text)
    ensures scan == [] ==> StartsWith(key, scan)
    ensures scan != [] && StartsWith(key, scan) ==> key != [] && key[0] == scan[0]
  {
    if scan != [] && StartsWith(key, scan) {
      assert key[..|scan|][0] == scan[0];
    }
  }

  /** No key below the prefix starts with it. */
  lemma {:induction false} BelowPrefix(key: Text, scan: Text)
    requires Less(key, scan)
    ensures !StartsWith(key, scan)
  {
    StartsWithHead(key, scan);
    if key != [] && key[0] == scan[0] {
      BelowPrefix(key[1..], scan[1..]);
      StartsWithTail(key, scan);
    }
  }

  /** Once past the prefix, always past it: keys sharing a prefix are contiguous in byte order. */
  lemma {:induction false} PastPrefix(key: Text, later: Text, scan: Text)
    requires !Less(key, scan) && !StartsWith(key, scan) && Less(key, later)
    ensures !StartsWith(later, scan)
  {
    hide StartsWith;
    StartsWithHead(key, scan);
    StartsWithHead(later, scan);
    if key != [] && later[0] == scan[0] && key[0] == scan[0] {
      StartsWithTail(key, scan);
      StartsWithTail(later, scan);
      PastPrefix(key[1..], later[1..], scan[1..]);
    }
  }

  function Decoded(key: Text): seq<Text> {
    match DecodeId(key)
    case Some(id) => [id]
    case None => []
  }

  /** The ids of the keys that decode. */
  function DecodeAll(keys: seq<Text>): seq<Text> {
    if keys == [] then []
    else Decoded(keys[0]) + DecodeAll(keys[1..])
  }

  function WithPrefix(keys: seq<Text>, scan: Text): seq<Text> {
    Bags.Filter((key: Text) => StartsWith(key, scan), keys)
  }

  lemma DecodeAllCons(keys: seq<Text>)
    requires keys != []
    ensures DecodeAll(keys) == Decoded(keys[0]) + DecodeAll(keys[1..])
  {
    hide DecodeId;
  }

  lemma ConcatAssociates(a: seq<Text>, b: seq<Text>, c: seq<Text>)
    ensures a + (b + c) == a + b + c
  {
  }

  lemma {:induction false} DecodeAllConcat(a: seq<Text>, b: seq<Text>)
    ensures DecodeAll(a + b) == DecodeAll(a) + DecodeAll(b)
  {
    hide Decoded, DecodeId;
    if a == [] {
      assert a + b == b;
    } else {
      hide *;
      DecodeAllConcat(a[1..], b);
      assert (a + b)[1..] == a[1..] + b;
      DecodeAllCons(a);
      DecodeAllCons(a + b);
      ConcatAssociates(Decoded(a[0]), DecodeAll(a[1..]), DecodeAll(b));
    }
  }

  lemma {:induction false} NoneWithPrefix(keys: seq<Text>, scan: Text)
    requires forall i :: 0 <= i < |keys| ==> !StartsWith(keys[i], scan)
    ensures WithPrefix(keys, scan) == []
  {
    if keys != [] {
      NoneWithPrefix(keys[1..], scan);
    }
  }

  lemma WithPrefixConcat(a: seq<Text>, b: seq<Text>, scan: Text)
    ensures WithPrefix(a + b, scan) == WithPrefix(a, scan) + WithPrefix(b, scan)
  {
    Bags.FilterConcat((key: Text) => StartsWith(key, scan), a, b);
  }

  /** The early-breaking walk over sorted keys finds the decodable ids of every key with the prefix. */
  method ScanSorted(keys: seq<Text>, prefix: Text) returns (ids: seq<Text>)
    requires Sorted(keys)
    ensures ids == DecodeAll(WithPrefix(keys, EncodePrefix(prefix)))
  {
    hide DecodeAll, WithPrefix, DecodeId, StartsWith, Less, EncodePrefix;
    var scan := EncodePrefix(prefix);
    var i := 0;
    while i < |keys| && Less(keys[i], scan)
      invariant 0 <= i <= |keys|
      invariant forall j :: 0 <= j < i ==> !StartsWith(keys[j], scan)
    {
      BelowPrefix(keys[i], scan);
      i := i + 1;
    }
    NoneWithPrefix(keys[..i], scan);
    ghost var seek := i;
    ids := [];
    Nothing();
    while i < |keys|
      invariant seek <= i <= |keys|
      invariant ids == DecodeAll(WithPrefix(keys[..i], scan))
      invariant seek < |keys| ==> !Less(keys[seek], scan)
    {
      if !StartsWith(keys[i], scan) {
        AllLater(keys, seek, i, scan);
        NoneWithPrefix(keys[i..], scan);
        WithPrefixConcat(keys[..i], keys[i..], scan);
        DecodeAllConcat(WithPrefix(keys[..i], scan), WithPrefix(keys[i..], scan));
        Nothing();
        assert keys == keys[..i] + keys[i..];
        assert ids + [] == ids;
        return;
      }
      var id := DecodeId(keys[i]);
      OneKey(keys[i], scan);
      WithPrefixConcat(keys[..i], [keys[i]], scan);
      DecodeAllConcat(WithPrefix(keys[..i], scan), [keys[i]]);
      assert keys[..i + 1] == keys[..i] + [keys[i]];
      match id {
        case Some(value) => ids := ids + [value];
        case None => assert ids + [] == ids;
      }
      i := i + 1;
    }
    assert keys[..i] == keys;
  }

  lemma Nothing()
    ensures DecodeAll([]) == []
  {
  }

  lemma OneKey(key: Text, scan: Text)
    requires StartsWith(key, scan)
    ensures WithPrefix([key], scan) == [key]
    ensures DecodeAll([key]) == Decoded(key)
  {
    hide StartsWith, DecodeId, Decoded;
    var p := (key: Text) => StartsWith(key, scan);
    assert [key][1..] == [];
    assert Bags.Filter(p, []) == [];
    DecodeAllCons([key]);
    Nothing();
    assert [key] + [] == [key] && Decoded(key) + [] == Decoded(key);
  }

  lemma {:induction false} NotLessTransfers(a: Text, b: Text, scan: Text)
    requires Less(a, b) && !Less(a, scan)
    ensures !Less(b, scan)
  {
    if a != [] && scan != [] && b[0] == scan[0] {
      NotLessTransfers(a[1..], b[1..], scan[1..]);
    }
  }

  lemma AllLater(keys: seq<Text>, seek: nat, i: nat, scan: Text)
    requires Sorted(keys) && seek <= i < |keys| && !Less(keys[seek], scan) && !StartsWith(keys[i], scan)
    ensures forall j :: 0 <= j < |keys[i..]| ==> !StartsWith(keys[i..][j], scan)
  {
    hide StartsWith, Less;
    if seek < i {
      NotLessTransfers(keys[seek], keys[i], scan);
    }
    forall j | 0 <= j < |keys[i..]| ensures !StartsWith(keys[i..][j], scan) {
      if j > 0 {
        PastPrefix(keys[i], keys[i + j], scan);
      }
    }
  }

  // ----- agreement of the two backends -----

  /** An index write: a name and the id filed under it. */
  datatype Put = Put(prefix: Text, id: Text)

  function KeyOf(put: Put): Text {
    EncodeKey(put.prefix, put.id)
  }

  function EntryOf(put: Put): Entry {
    Entry(ByEntity, KeyOf(put), put.id)
  }

  /** What identifiers must look like for the encoding to be unambiguous. */
  ghost predicate Clean(puts: seq<Put>, prefix: Text) {
    forall put <- puts :: Separable(prefix, put.prefix) && ZeroFree(put.id) && Utf8.Valid(put.id)
  }

  lemma {:induction false} DecodedIds(keys: seq<Text>, id: Text)
    ensures id in DecodeAll(keys) <==> exists key :: key in keys && DecodeId(key) == Some(id)
  {
    hide DecodeId;
    if keys != [] {
      DecodedIds(keys[1..], id);
    }
  }

  /** The sorted-key scan returns exactly the ids put under the prefix. */
  lemma SortedScanExact(puts: seq<Put>, keys: seq<Text>, prefix: Text, id: Text)
    requires Clean(puts, prefix) && forall key :: key in keys <==> exists put :: put in puts && KeyOf(put) == key
    ensures id in DecodeAll(WithPrefix(keys, EncodePrefix(prefix))) <==> Put(prefix, id) in puts
  {
    hide DecodeId, StartsWith, EncodeKey, EncodePrefix, Separable, Utf8.Valid;
    var scan := EncodePrefix(prefix);
    DecodedIds(WithPrefix(keys, scan), id);
    Bags.FilterIn((key: Text) => StartsWith(key, scan), keys);
    if id in DecodeAll(WithPrefix(keys, scan)) {
      var key :| key in WithPrefix(keys, scan) && DecodeId(key) == Some(id);
      var put :| put in puts && KeyOf(put) == key;
      ScanSeparates(prefix, put.prefix, put.id);
      DecodeEncoded(put.prefix, put.id);
      assert put == Put(prefix, id);
    }
    if Put(prefix, id) in puts {
      ScanSeparates(prefix, prefix, id);
      DecodeEncoded(prefix, id);
      assert KeyOf(Put(prefix, id)) in keys;
    }
  }

  /** The in-memory scan returns exactly the ids put under the prefix, as often as they were put. */
  lemma MemoryScanExact(puts: seq<Put>, prefix: Text, id: Text)
    requires forall put <- puts :: Separable(prefix, put.prefix)
    ensures multiset(Scan(Bags.Map(EntryOf, puts), ByEntity, prefix))[id] == multiset(puts)[Put(prefix, id)]
  {
    if puts != [] {
      MemoryScanExact(puts[1..], prefix, id);
      Bags.HeadTail(puts);
      ScanCons(puts, prefix);
      ScanSeparates(prefix, puts[0].prefix, puts[0].id);
      assert puts[0] == Put(puts[0].prefix, puts[0].id);
      hide Scan, Separable, StartsWith;
    }
  }

  lemma ScanCons(puts: seq<Put>, prefix: Text)
    requires puts != []
    ensures multiset(Scan(Bags.Map(EntryOf, puts), ByEntity, prefix))
         == (if StartsWith(KeyOf(puts[0]), EncodePrefix(prefix)) then multiset{puts[0].id} else multiset{})
            + multiset(Scan(Bags.Map(EntryOf, puts[1..]), ByEntity, prefix))
  {
    var log := Bags.Map(EntryOf, puts);
    var rest := Bags.Map(EntryOf, puts[1..]);
    assert log == [EntryOf(puts[0])] + rest;
    var p := (e: Entry) => e.family == ByEntity && StartsWith(e.key, EncodePrefix(prefix));
    assert log[1..] == rest;
    IdsOfCons(EntryOf(puts[0]), Bags.Filter(p, rest));
    assert [] + Bags.Filter(p, rest) == Bags.Filter(p, rest);
    hide StartsWith, IdsOf;
  }

  /** Both backends answer a scan with the same set of ids. */
  lemma BackendsAgree(puts: seq<Put>, keys: seq<Text>, prefix: Text, id: Text)
    requires Clean(puts, prefix) && forall key :: key in keys <==> exists put :: put in puts && KeyOf(put) == key
    ensures id in DecodeAll(WithPrefix(keys, EncodePrefix(prefix)))
        <==> id in Scan(Bags.Map(EntryOf, puts), ByEntity, prefix)
  {
    hide DecodeAll, WithPrefix, Scan, KeyOf, Separable;
    SortedScanExact(puts, keys, prefix, id);
    MemoryScanExact(puts, prefix, id);
    assert id in Scan(Bags.Map(EntryOf, puts), ByEntity, prefix)
      <==> multiset(Scan(Bags.Map(EntryOf, puts), ByEntity, prefix))[id] > 0;
    assert Put(prefix, id) in puts <==> multiset(puts)[Put(prefix, id)] > 0;
  }
}
