/**
 * The block reader a disk index hands each data block to. Its byte format
 * (plain or compressed) is not part of this model: a block is seen through
 * the entries it encodes, and the reader's operations are specified on them.
 */
module BlockReaders {
  import opened Wrappers
  import opened Keys

  /** The reader's point lookup: the value stored under `key`, if any. */
  function BlockLookup(es: seq<Entry>, key: Key): (r: Option<Value>)
    ensures r.Some? ==> Entry(key, r.value) in es
    ensures r.None? <==> forall e :: e in es ==> e.key != key
  {
    if es == [] then None
    else if es[0].key == key then Some(es[0].value)
    else BlockLookup(es[1..], key)
  }

  /** The reader's range scan: the entries in [from, to), ascending or descending. */
  function BlockRange(es: seq<Entry>, from: Option<Key>, to: Option<Key>, ascending: bool): (r: seq<Entry>)
    ensures |r| <= |es|
  {
    var f := Filter(es, from, to);
    if ascending then f else Reverse(f)
  }

  /** The range scan yields exactly the block's entries in range. */
  lemma {:induction false} BlockRangeMember(es: seq<Entry>, from: Option<Key>, to: Option<Key>, ascending: bool, e: Entry)
    ensures e in BlockRange(es, from, to, ascending) <==> e in es && InRange(e.key, from, to)
  {
    var f := Filter(es, from, to);
    FilterMember(es, from, to, e);
    ReverseIndex(f);
    if e in f {
      var i :| 0 <= i < |f| && f[i] == e;
      assert Reverse(f)[|f| - 1 - i] == e;
    }
    if e in Reverse(f) {
      var i :| 0 <= i < |f| && Reverse(f)[i] == e;
      assert f[|f| - 1 - i] == e;
    }
  }

  /** In a sorted block, a key determines its entry. */
  lemma {:induction false} SortedKeyUnique(s: seq<Entry>, a: Entry, b: Entry)
    requires Sorted(s) && a in s && b in s && a.key == b.key
    ensures a == b
  {
    var i :| 0 <= i < |s| && s[i] == a;
    var j :| 0 <= j < |s| && s[j] == b;
    if i < j {
      LessIrreflexive(a.key);
    } else if j < i {
      LessIrreflexive(a.key);
    }
  }

  /** On a sorted block the point lookup finds exactly the stored entries. */
  lemma {:induction false} BlockLookupExact(es: seq<Entry>, key: Key, v: Value)
    requires Sorted(es)
    ensures BlockLookup(es, key) == Some(v) <==> Entry(key, v) in es
  {
    var r := BlockLookup(es, key);
    if Entry(key, v) in es {
      SortedKeyUnique(es, Entry(key, r.value), Entry(key, v));
    }
  }

  /** The range scan of a sorted block is ordered in the direction asked for. */
  lemma {:induction false} BlockRangeOrdered(es: seq<Entry>, from: Option<Key>, to: Option<Key>, ascending: bool)
    requires Sorted(es)
    ensures ascending ==> Sorted(BlockRange(es, from, to, ascending))
    ensures !ascending ==> SortedDescending(BlockRange(es, from, to, ascending))
    ensures !ascending ==> BlockRange(es, from, to, false) == Reverse(BlockRange(es, from, to, true))
  {
    FilterSorted(es, from, to);
    if !ascending {
      ReverseSorted(Filter(es, from, to));
    }
  }

  /** The entries of consecutive blocks, one after the other. */
  function Concat(bs: seq<seq<Entry>>): (r: seq<Entry>)
    ensures bs == [] ==> r == []
  {
    if bs == [] then [] else Concat(bs[..|bs| - 1]) + bs[|bs| - 1]
  }

  lemma {:induction false} ConcatMember(bs: seq<seq<Entry>>, e: Entry)
    ensures e in Concat(bs) <==> exists p :: 0 <= p < |bs| && e in bs[p]
  {
    if bs != [] {
      var k := |bs| - 1;
      ConcatMember(bs[..k], e);
      assert forall p :: 0 <= p < k ==> bs[..k][p] == bs[p];
    }
  }

  lemma {:induction false} ConcatSplit(a: seq<seq<Entry>>, b: seq<seq<Entry>>)
    ensures Concat(a + b) == Concat(a) + Concat(b)
  {
    if b == [] {
      assert a + b == a;
    } else {
      assert (a + b)[..|a + b| - 1] == a + b[..|b| - 1];
      ConcatSplit(a, b[..|b| - 1]);
    }
  }

  /** Reversing the blocks' entries takes the last block first. */
  lemma {:induction false} ReverseConcatLast(xs: seq<seq<Entry>>)
    requires xs != []
    ensures Reverse(Concat(xs)) == Reverse(xs[|xs| - 1]) + Reverse(Concat(xs[..|xs| - 1]))
  {
    ReverseConcat(Concat(xs[..|xs| - 1]), xs[|xs| - 1]);
  }

  lemma {:induction false} SortedAppend(a: seq<Entry>, b: seq<Entry>)
    requires Sorted(a) && Sorted(b)
    requires forall x, y :: x in a && y in b ==> Less(x.key, y.key)
    ensures Sorted(a + b)
  {
    forall i, j | 0 <= i < j < |a + b| ensures Less((a + b)[i].key, (a + b)[j].key) {
      if i < |a| && j >= |a| {
        assert (a + b)[i] in a && (a + b)[j] in b;
      }
    }
  }
}
