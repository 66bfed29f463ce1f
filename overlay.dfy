/**
 * The versioned in-memory index of one database index: a base (the
 * snapshot file the tree is linked to) under a stack of overlay
 * generations. Writes go to the current generation; `createSnapshot`
 * freezes it under a fresh id, and reads can be made as of such an id.
 * A deletion is buffered as a marker that hides what lies below it.
 */
module Overlays {
  import opened Wrappers
  import opened Keys
  import opened BlockReaders

  /** A generation's buffered writes: Some(v) stores v, None is the deletion marker. */
  type Writes = map<Key, Option<Value>>

  /** A frozen generation, tagged with the id `createSnapshot` returned for it. */
  datatype Generation = Generation(id: int, writes: Writes)

  /** A write as the tree receives it: `insert(key, value)`, where no value means delete. */
  datatype Write = Write(key: Key, value: Option<Value>)

  /** The value `m` holds under `k`, if any. */
  function Get(m: map<Key, Value>, k: Key): Option<Value> {
    if k in m then Some(m[k]) else None
  }

  /** One write: a value is stored under its key, the deletion marker removes the key. */
  function Put(m: map<Key, Value>, k: Key, v: Option<Value>): (r: map<Key, Value>)
    ensures Get(r, k) == v
    ensures forall j :: j != k ==> Get(r, j) == Get(m, j)
  {
    if v.Some? then m[k := v.value] else m - {k}
  }

  /** A generation laid over `m`: its values win, its markers hide what lies below. */
  function Apply(m: map<Key, Value>, w: Writes): (r: map<Key, Value>)
    ensures forall k :: Get(r, k) == if k in w then w[k] else Get(m, k)
  {
    map k | k in m.Keys + w.Keys && (k in w ==> w[k].Some?) :: if k in w then w[k].value else m[k]
  }

  /** Two maps that agree on every lookup are equal. */
  lemma {:induction false} GetExtensional(a: map<Key, Value>, b: map<Key, Value>)
    requires forall k :: Get(a, k) == Get(b, k)
    ensures a == b
  {
    forall k | k in a ensures k in b && a[k] == b[k] {
      assert Get(a, k) == Get(b, k);
    }
    forall k | k in b ensures k in a {
      assert Get(a, k) == Get(b, k);
    }
  }

  /** Buffering a write in the top generation is the same as applying it to the view. */
  lemma {:induction false} ApplyPut(m: map<Key, Value>, w: Writes, k: Key, v: Option<Value>)
    ensures Apply(m, w[k := v]) == Put(Apply(m, w), k, v)
  {
    var l := Apply(m, w[k := v]);
    var r := Put(Apply(m, w), k, v);
    forall j ensures Get(l, j) == Get(r, j) {
      if j != k {
        assert Get(r, j) == Get(Apply(m, w), j);
      }
    }
    GetExtensional(l, r);
  }

  // ---------------------------------------------------------------------
  // Generations

  /** The view as of snapshot `upto`: the base, then each generation with id <= `upto`, oldest first. */
  function Stack(base: map<Key, Value>, gens: seq<Generation>, upto: int): map<Key, Value> {
    if gens == [] then base
    else
      var below := Stack(base, gens[..|gens| - 1], upto);
      if gens[|gens| - 1].id <= upto then Apply(below, gens[|gens| - 1].writes) else below
  }

  /** Snapshot ids are handed out in increasing order. */
  predicate IdsIncreasing(gens: seq<Generation>) {
    forall i, j :: 0 <= i < j < |gens| ==> gens[i].id < gens[j].id
  }

  predicate IdsAtMost(gens: seq<Generation>, bound: int) {
    forall i :: 0 <= i < |gens| ==> gens[i].id <= bound
  }

  /** A view as of any id at or above every generation's id sees every generation. */
  lemma {:induction false} StackAll(base: map<Key, Value>, gens: seq<Generation>, a: int, b: int)
    requires IdsAtMost(gens, a) && a <= b
    ensures Stack(base, gens, a) == Stack(base, gens, b)
  {
    if gens != [] {
      StackAll(base, gens[..|gens| - 1], a, b);
    }
  }

  // ---------------------------------------------------------------------
  // Sequences of writes

  /** The writes applied one after the other. */
  function Replay(m: map<Key, Value>, ws: seq<Write>): map<Key, Value> {
    if ws == [] then m
    else Put(Replay(m, ws[..|ws| - 1]), ws[|ws| - 1].key, ws[|ws| - 1].value)
  }

  /** The last write to `k` among `ws`, searched from the end. */
  function LastWrite(ws: seq<Write>, k: Key): Option<Option<Value>> {
    if ws == [] then None
    else if ws[|ws| - 1].key == k then Some(ws[|ws| - 1].value)
    else LastWrite(ws[..|ws| - 1], k)
  }

  /** After a sequence of writes a key holds its last write, or what it held before when never written. */
  lemma {:induction false} LastWriteWins(m: map<Key, Value>, ws: seq<Write>, k: Key)
    ensures Get(Replay(m, ws), k) == match LastWrite(ws, k) case None => Get(m, k) case Some(v) => v
  {
    if ws != [] {
      LastWriteWins(m, ws[..|ws| - 1], k);
    }
  }

  /** The keys a sequence of writes touches. */
  function Written(ws: seq<Write>): set<Key> {
    set i | 0 <= i < |ws| :: ws[i].key
  }

  predicate DeletesOnly(ws: seq<Write>) {
    forall i :: 0 <= i < |ws| ==> ws[i].value.None?
  }

  lemma {:induction false} LastDelete(ws: seq<Write>, k: Key)
    requires DeletesOnly(ws)
    ensures LastWrite(ws, k) == if k in Written(ws) then Some(None) else None
  {
    if ws != [] {
      var init := ws[..|ws| - 1];
      LastDelete(init, k);
      assert Written(ws) == Written(init) + {ws[|ws| - 1].key} by {
        forall j | j in Written(ws) ensures j in Written(init) + {ws[|ws| - 1].key} {
          var i :| 0 <= i < |ws| && ws[i].key == j;
          if i < |ws| - 1 {
            assert init[i].key == j;
          }
        }
        forall j | j in Written(init) ensures j in Written(ws) {
          var i :| 0 <= i < |init| && init[i].key == j;
          assert ws[i].key == j;
        }
      }
    }
  }

  /** Deleting every key of a view leaves it empty, so every scan of it is empty. */
  lemma {:induction false} DeleteEvery(m: map<Key, Value>, ws: seq<Write>, prefix: Key, ascending: bool)
    requires DeletesOnly(ws) && m.Keys <= Written(ws)
    ensures Replay(m, ws) == map[]
    ensures PrefixScan(Replay(m, ws), prefix, ascending) == []
  {
    forall k ensures Get(Replay(m, ws), k) == Get(map[], k) {
      LastWriteWins(m, ws, k);
      LastDelete(ws, k);
    }
    GetExtensional(Replay(m, ws), map[]);
    assert |Entries(map[])| == 0;
  }

  // ---------------------------------------------------------------------
  // Scans over a view

  /** `rangeLookup(from, to, ascending)` over a view. */
  function RangeScan(m: map<Key, Value>, from: Option<Key>, to: Option<Key>, ascending: bool): seq<Entry> {
    BlockRange(Entries(m), from, to, ascending)
  }

  /** `prefixLookup(prefix, ascending)`: a range scan over the comparator's range for the prefix. */
  function PrefixScan(m: map<Key, Value>, prefix: Key, ascending: bool): seq<Entry> {
    var range := PrefixToRange(prefix);
    RangeScan(m, range.0, range.1, ascending)
  }

  /** A prefix scan yields exactly the view's entries whose keys extend the prefix. */
  lemma {:induction false} PrefixScanExact(m: map<Key, Value>, prefix: Key, ascending: bool, e: Entry)
    ensures e in PrefixScan(m, prefix, ascending) <==> e.key in m && m[e.key] == e.value && IsPrefix(prefix, e.key)
  {
    var range := PrefixToRange(prefix);
    BlockRangeMember(Entries(m), range.0, range.1, ascending, e);
    PrefixRangeExact(prefix, e.key);
  }

  /** An ascending scan is in key order, and a descending scan is exactly its reverse. */
  lemma {:induction false} RangeScanOrdered(m: map<Key, Value>, from: Option<Key>, to: Option<Key>)
    ensures Sorted(RangeScan(m, from, to, true))
    ensures RangeScan(m, from, to, false) == Reverse(RangeScan(m, from, to, true))
    ensures SortedDescending(RangeScan(m, from, to, false))
  {
    BlockRangeOrdered(Entries(m), from, to, true);
    BlockRangeOrdered(Entries(m), from, to, false);
  }

  lemma {:induction false} FilterEverything(s: seq<Entry>, from: Option<Key>, to: Option<Key>)
    requires forall i :: 0 <= i < |s| ==> InRange(s[i].key, from, to)
    ensures Filter(s, from, to) == s
  {
    if s != [] {
      assert InRange(s[0].key, from, to);
      FilterEverything(s[1..], from, to);
      assert s == [s[0]] + s[1..];
    }
  }

  /** The empty prefix scans the whole view. */
  lemma {:induction false} EmptyPrefixScansAll(m: map<Key, Value>)
    ensures PrefixScan(m, [], true) == Entries(m)
    ensures PrefixScan(m, [], false) == Reverse(Entries(m))
  {
    var s := Entries(m);
    forall i | 0 <= i < |s| ensures InRange(s[i].key, Some([]), None) {
      PrefixRangeExact([], s[i].key);
    }
    FilterEverything(s, Some([]), None);
  }

  /** `firstEntry`: the view's first entry in key order. */
  function FirstOf(m: map<Key, Value>): Option<Entry> {
    if m == map[] then None else Some(Entries(m)[0])
  }

  /** `lastEntry`: the view's last entry in key order. */
  function LastOf(m: map<Key, Value>): Option<Entry> {
    if m == map[] then None else Some(Entries(m)[|m| - 1])
  }

  /** The first entry is a live entry whose key is the smallest, and there is one iff the view is non-empty. */
  lemma {:induction false} FirstIsSmallest(m: map<Key, Value>)
    ensures FirstOf(m).Some? <==> m != map[]
    ensures FirstOf(m).Some? ==> FirstOf(m).value.key in m && m[FirstOf(m).value.key] == FirstOf(m).value.value
    ensures FirstOf(m).Some? ==> forall k :: k in m ==> LessEq(FirstOf(m).value.key, k)
  {
    if m != map[] {
      var s := Entries(m);
      assert s[0] in s;
      forall k | k in m ensures LessEq(s[0].key, k) {
        assert Entry(k, m[k]) in s;
        var j :| 0 <= j < |s| && s[j] == Entry(k, m[k]);
        if j > 0 {
          assert Less(s[0].key, s[j].key);
        }
      }
    }
  }

  /** The last entry is a live entry whose key is the largest, and there is one iff the view is non-empty. */
  lemma {:induction false} LastIsLargest(m: map<Key, Value>)
    ensures LastOf(m).Some? <==> m != map[]
    ensures LastOf(m).Some? ==> LastOf(m).value.key in m && m[LastOf(m).value.key] == LastOf(m).value.value
    ensures LastOf(m).Some? ==> forall k :: k in m ==> LessEq(k, LastOf(m).value.key)
  {
    if m != map[] {
      var s := Entries(m);
      var n := |s| - 1;
      assert s[n] in s;
      forall k | k in m ensures LessEq(k, s[n].key) {
        assert Entry(k, m[k]) in s;
        var j :| 0 <= j < |s| && s[j] == Entry(k, m[k]);
        if j < n {
          assert Less(s[j].key, s[n].key);
        }
      }
    }
  }

  // ---------------------------------------------------------------------
  // Snapshot files

  /** The contents a snapshot file describes; a later entry for a key replaces an earlier one. */
  function MapOf(s: seq<Entry>): map<Key, Value> {
    if s == [] then map[]
    else MapOf(s[..|s| - 1])[s[|s| - 1].key := s[|s| - 1].value]
  }

  lemma {:induction false} MapOfBack(s: seq<Entry>, k: Key)
    requires k in MapOf(s)
    ensures Entry(k, MapOf(s)[k]) in s
  {
    var n := |s| - 1;
    if s[n].key != k {
      MapOfBack(s[..n], k);
      assert s[..n] <= s;
    }
  }

  lemma {:induction false} MapOfForward(s: seq<Entry>, e: Entry)
    requires Sorted(s) && e in s
    ensures e.key in MapOf(s) && MapOf(s)[e.key] == e.value
  {
    var n := |s| - 1;
    if e != s[n] {
      assert e in s[..n] by {
        var j :| 0 <= j < |s| && s[j] == e;
        assert j < n;
        assert s[..n][j] == e;
      }
      var j :| 0 <= j < n && s[j] == e;
      assert Less(s[j].key, s[n].key);
      LessIrreflexive(e.key);
      MapOfForward(s[..n], e);
    }
  }

  /** Linking a materialized view reads back exactly that view. */
  lemma {:induction false} MapOfEntries(m: map<Key, Value>)
    ensures MapOf(Entries(m)) == m
  {
    var s := Entries(m);
    forall k ensures Get(MapOf(s), k) == Get(m, k) {
      if k in m {
        MapOfForward(s, Entry(k, m[k]));
      }
      if k in MapOf(s) {
        MapOfBack(s, k);
      }
    }
    GetExtensional(MapOf(s), m);
  }

  /** Reading back the newest snapshot's file gives everything below the current generation. */
  lemma {:induction false} NewestSnapshotIsLive(base: map<Key, Value>, frozen: seq<Generation>, nextId: int)
    requires IdsAtMost(frozen, nextId - 1)
    ensures MapOf(Entries(Stack(base, frozen, nextId - 1))) == Stack(base, frozen, nextId)
  {
    MapOfEntries(Stack(base, frozen, nextId - 1));
    StackAll(base, frozen, nextId - 1, nextId);
  }

  /**
   * How an overlay reads: `live` is the base under every frozen generation
   * and the current one, and each snapshot in `snaps` is the base under the
   * generations frozen up to its id.
   */
  predicate Coherent(base: map<Key, Value>, frozen: seq<Generation>, current: Writes, nextId: int,
                     live: map<Key, Value>, snaps: map<int, map<Key, Value>>)
  {
    IdsIncreasing(frozen) && IdsAtMost(frozen, nextId - 1)
    && live == Apply(Stack(base, frozen, nextId), current)
    && forall id :: id in snaps ==> id < nextId && snaps[id] == Stack(base, frozen, id)
  }

  lemma {:induction false} EmptyCoherent(base: map<Key, Value>)
    ensures Coherent(base, [], map[], 0, base, map[])
  {
    GetExtensional(Apply(base, map[]), base);
  }

  /** A write to the current generation changes the live view only, as one `Put`. */
  lemma {:induction false} PutCoherent(base: map<Key, Value>, frozen: seq<Generation>, current: Writes, nextId: int,
                                       live: map<Key, Value>, snaps: map<int, map<Key, Value>>, key: Key, value: Option<Value>)
    requires Coherent(base, frozen, current, nextId, live, snaps)
    ensures Coherent(base, frozen, current[key := value], nextId, Put(live, key, value), snaps)
  {
    ApplyPut(Stack(base, frozen, nextId), current, key, value);
  }

  /** Freezing under an id above every frozen one keeps the ids in order. */
  lemma {:induction false} FreezeKeepsOrder(frozen: seq<Generation>, nextId: int, current: Writes)
    requires IdsIncreasing(frozen) && IdsAtMost(frozen, nextId - 1)
    ensures IdsIncreasing(frozen + [Generation(nextId, current)])
    ensures IdsAtMost(frozen + [Generation(nextId, current)], nextId)
  {
    var frozen' := frozen + [Generation(nextId, current)];
    forall i, j | 0 <= i < j < |frozen'| ensures frozen'[i].id < frozen'[j].id {
      assert frozen'[i] == frozen[i];
    }
    forall i | 0 <= i < |frozen'| ensures frozen'[i].id <= nextId {
      if i < |frozen| {
        assert frozen'[i] == frozen[i];
      }
    }
  }

  /** A view older than a newly frozen generation does not see it. */
  lemma {:induction false} FreezeKeepsOlder(base: map<Key, Value>, frozen: seq<Generation>, g: Generation, id: int)
    requires id < g.id
    ensures Stack(base, frozen + [g], id) == Stack(base, frozen, id)
  {
    assert (frozen + [g])[..|frozen + [g]| - 1] == frozen;
  }

  /** The view as of a newly frozen generation is the old live view. */
  lemma {:induction false} FreezeKeepsLive(base: map<Key, Value>, frozen: seq<Generation>, current: Writes, nextId: int)
    ensures Stack(base, frozen + [Generation(nextId, current)], nextId) == Apply(Stack(base, frozen, nextId), current)
  {
    var frozen' := frozen + [Generation(nextId, current)];
    assert frozen'[..|frozen'| - 1] == frozen;
  }

  /**
   * Freezing the current generation under `nextId`: the new snapshot and the
   * new live view both read as the old live view, older snapshots as before.
   */
  lemma {:induction false} FreezeCoherent(base: map<Key, Value>, frozen: seq<Generation>, current: Writes, nextId: int,
                                          live: map<Key, Value>, snaps: map<int, map<Key, Value>>)
    requires Coherent(base, frozen, current, nextId, live, snaps)
    ensures nextId !in snaps
    ensures Coherent(base, frozen + [Generation(nextId, current)], map[], nextId + 1, live, snaps[nextId := live])
  {
    var frozen' := frozen + [Generation(nextId, current)];
    FreezeKeepsOrder(frozen, nextId, current);
    StackAll(base, frozen', nextId, nextId + 1);
    FreezeKeepsLive(base, frozen, current, nextId);
    GetExtensional(Apply(Stack(base, frozen', nextId + 1), map[]), Stack(base, frozen', nextId + 1));
    forall id | id in snaps ensures Stack(base, frozen', id) == Stack(base, frozen, id) {
      FreezeKeepsOlder(base, frozen, Generation(nextId, current), id);
    }
  }

  /**
   * Linking a snapshot file as the new base and releasing every frozen
   * generation. When the file holds the newest snapshot, the live view is
   * unchanged.
   */
  lemma {:induction false} LinkCoherent(base: map<Key, Value>, frozen: seq<Generation>, current: Writes, nextId: int,
                                        live: map<Key, Value>, snaps: map<int, map<Key, Value>>, snapshot: seq<Entry>)
    requires Coherent(base, frozen, current, nextId, live, snaps)
    ensures Coherent(MapOf(snapshot), [], current, nextId, Apply(MapOf(snapshot), current), map[])
    ensures nextId - 1 in snaps && snapshot == Entries(snaps[nextId - 1]) ==> Apply(MapOf(snapshot), current) == live
  {
    NewestSnapshotIsLive(base, frozen, nextId);
  }

  // ---------------------------------------------------------------------
  // The tree

  /**
   * `LSMTree` over its overlay: `base` is the linked snapshot, `frozen` the
   * generations `createSnapshot` froze (oldest first), `current` the
   * generation writes go to, and `nextId` the id the next snapshot gets.
   * `live` and `snaps` are what the overlay reads as: the contents now, and
   * the contents as of each snapshot taken since the last link.
   */
  class LSMTree {
    var base: map<Key, Value>
    var frozen: seq<Generation>
    var current: Writes
    var nextId: int
    ghost var live: map<Key, Value>
    ghost var snaps: map<int, map<Key, Value>>

    ghost predicate Valid()
      reads this
    {
      Coherent(base, frozen, current, nextId, live, snaps)
    }

    /** The base under every frozen generation and the current one. */
    function View(): map<Key, Value>
      reads this
    {
      Apply(Stack(base, frozen, nextId), current)
    }

    /** The base under the generations frozen up to snapshot `id`. */
    function ViewAt(id: int): map<Key, Value>
      reads this
    {
      Stack(base, frozen, id)
    }

    /** `lookup(key)`. */
    function Lookup(key: Key): (r: Option<Value>)
      requires Valid()
      reads this
      ensures r == Get(live, key)
    {
      Get(View(), key)
    }

    /** `lookup(key, snapshotId)`. */
    function LookupAt(key: Key, id: int): (r: Option<Value>)
      requires Valid() && id in snaps
      reads this
      ensures r == Get(snaps[id], key)
    {
      Get(ViewAt(id), key)
    }

    /** `prefixLookup(prefix, ascending)`: `rangeLookup` over the prefix's key range. */
    function PrefixLookup(prefix: Key, ascending: bool): (r: seq<Entry>)
      requires Valid()
      reads this
      ensures r == PrefixScan(live, prefix, ascending)
    {
      var range := PrefixToRange(prefix);
      RangeScan(View(), range.0, range.1, ascending)
    }

    /** `prefixLookup(prefix, snapshotId, ascending)`: the same over a snapshot. */
    function PrefixLookupAt(prefix: Key, id: int, ascending: bool): (r: seq<Entry>)
      requires Valid() && id in snaps
      reads this
      ensures r == PrefixScan(snaps[id], prefix, ascending)
    {
      var range := PrefixToRange(prefix);
      RangeScan(ViewAt(id), range.0, range.1, ascending)
    }

    /** `materializeSnapshot`: the entries written to the snapshot file, in key order. */
    function Materialize(id: int): (r: seq<Entry>)
      requires Valid() && id in snaps
      reads this
      ensures r == Entries(snaps[id])
    {
      Entries(ViewAt(id))
    }

    /** A tree over a snapshot file's entries, or over nothing. */
    constructor (snapshot: Option<seq<Entry>>)
      ensures Valid() && frozen == [] && current == map[] && nextId == 0 && snaps == map[]
      ensures base == live == (if snapshot.None? then map[] else MapOf(snapshot.value))
    {
      base := if snapshot.None? then map[] else MapOf(snapshot.value);
      frozen := [];
      current := map[];
      nextId := 0;
      live := base;
      snaps := map[];
      new;
      EmptyCoherent(base);
    }

    /** `insert(key, value)`; no value deletes the key. Snapshots are not affected. */
    method Insert(key: Key, value: Option<Value>)
      requires Valid()
      modifies this
      ensures Valid() && base == old(base) && frozen == old(frozen) && nextId == old(nextId)
      ensures current == old(current)[key := value]
      ensures live == Put(old(live), key, value) && snaps == old(snaps)
    {
      PutCoherent(base, frozen, current, nextId, live, snaps, key, value);
      current := current[key := value];
      live := Put(live, key, value);
    }

    /** `delete(key)`. */
    method Delete(key: Key)
      requires Valid()
      modifies this
      ensures Valid() && base == old(base) && frozen == old(frozen) && nextId == old(nextId)
      ensures current == old(current)[key := None]
      ensures live == old(live) - {key} && snaps == old(snaps)
    {
      Insert(key, None);
    }

    /**
     * `createSnapshot`: freezes the current generation under a fresh id.
     * The snapshot shows the contents at this moment, whatever is written later.
     */
    method CreateSnapshot() returns (id: int)
      requires Valid()
      modifies this
      ensures Valid() && id == old(nextId) && nextId == id + 1 && id !in old(snaps)
      ensures base == old(base) && frozen == old(frozen) + [Generation(id, old(current))] && current == map[]
      ensures live == old(live) && snaps == old(snaps)[id := old(live)]
    {
      id := nextId;
      ghost var before, open := frozen, current;
      ghost var held := snaps;
      frozen, current, nextId, snaps := frozen + [Generation(id, current)], map[], id + 1, snaps[id := live];
      assert Valid() && id !in held by {
        FreezeCoherent(base, before, open, id, live, held);
      }
    }

    /**
     * `linkToSnapshot`: the snapshot file becomes the base and the frozen
     * generations, with the snapshots they held, are released. Linking the
     * file of the newest snapshot keeps the live contents as they were.
     */
    method LinkToSnapshot(snapshot: seq<Entry>)
      requires Valid()
      modifies this
      ensures Valid() && base == MapOf(snapshot) && frozen == [] && current == old(current) && nextId == old(nextId)
      ensures live == Apply(MapOf(snapshot), old(current)) && snaps == map[]
      ensures old(nextId) - 1 in old(snaps) && snapshot == Entries(old(snaps)[nextId - 1]) ==> live == old(live)
    {
      LinkCoherent(base, frozen, current, nextId, live, snaps, snapshot);
      base, frozen, live, snaps := MapOf(snapshot), [], Apply(MapOf(snapshot), current), map[];
    }
  }
}
