/**
 * How an index's entries are spread over its blocks, stated on plain
 * sequences: `keys[p]` is block p's first key and `bs[p]` its entries.
 * The search for a key's block, the clamping of a range to the blocks it
 * can touch, and the block-by-block walk of a range scan are defined and
 * proved here; the disk index instantiates them with what it reads.
 */
module BlockLayouts {
  import opened Wrappers
  import opened Keys
  import opened BlockReaders

  /**
   * The inclusive-bottom search: the position of the last block whose first
   * key is at most `key`, or -1 when every block starts above `key`.
   */
  function InclBottom(keys: seq<Key>, key: Key): (r: int)
    ensures -1 <= r < |keys|
    ensures r >= 0 ==> LessEq(keys[r], key)
    ensures forall j :: r < j < |keys| ==> !LessEq(keys[j], key)
  {
    if keys == [] then -1
    else if LessEq(keys[|keys| - 1], key) then |keys| - 1
    else InclBottom(keys[..|keys| - 1], key)
  }

  predicate KeysSorted(keys: seq<Key>) {
    forall i, j :: 0 <= i < j < |keys| ==> Less(keys[i], keys[j])
  }

  lemma {:induction false} KeysLessEq(keys: seq<Key>, i: int, j: int)
    requires KeysSorted(keys) && 0 <= i <= j < |keys|
    ensures LessEq(keys[i], keys[j])
  {
  }

  /** On sorted first keys the search misses exactly the keys below the first block. */
  lemma {:induction false} InclBottomMiss(keys: seq<Key>, key: Key)
    requires KeysSorted(keys)
    ensures InclBottom(keys, key) == -1 <==> keys == [] || Less(key, keys[0])
  {
    var r := InclBottom(keys, key);
    if r == -1 && keys != [] {
      LessTotal(key, keys[0]);
    }
    if r >= 0 && Less(key, keys[0]) {
      KeysLessEq(keys, 0, r);
      LessEqLessTransitive(keys[r], key, keys[0]);
      LessEqLessTransitive(keys[0], keys[r], keys[0]);
      LessIrreflexive(keys[0]);
    }
  }

  /**
   * The layout an index writer produces: first keys ascending, and each
   * block sorted, holding keys from its first key up to (not including) the
   * next block's first key.
   */
  predicate Layout(keys: seq<Key>, bs: seq<seq<Entry>>) {
    |keys| == |bs| && KeysSorted(keys) &&
    forall p :: 0 <= p < |bs| ==> BlockFits(keys, bs, p)
  }

  predicate BlockFits(keys: seq<Key>, bs: seq<seq<Entry>>, p: int)
    requires |keys| == |bs| && 0 <= p < |bs|
  {
    Sorted(bs[p]) &&
    forall e :: e in bs[p] ==> LessEq(keys[p], e.key) && (p + 1 < |keys| ==> Less(e.key, keys[p + 1]))
  }

  /** An entry of block `q` can only carry `key` when `q` is the block the search picks. */
  lemma {:induction false} OnlyPickedBlockHolds(keys: seq<Key>, bs: seq<seq<Entry>>, key: Key, q: int, e: Entry)
    requires Layout(keys, bs) && 0 <= q < |bs| && e in bs[q]
    requires q != InclBottom(keys, key)
    ensures e.key != key
  {
    var pos := InclBottom(keys, key);
    assert BlockFits(keys, bs, q);
    if q < pos {
      KeysLessEq(keys, q + 1, pos);
      LessEqLessTransitive(e.key, keys[q + 1], keys[pos]);
      LessEqLessTransitive(e.key, keys[pos], key);
      LessIrreflexive(key);
    }
  }

  /** Looking in the picked block finds exactly what the whole layout holds under `key`. */
  lemma {:induction false} PickedBlockLookup(keys: seq<Key>, bs: seq<seq<Entry>>, key: Key, v: Value)
    requires Layout(keys, bs)
    ensures InclBottom(keys, key) == -1 ==> Entry(key, v) !in Concat(bs)
    ensures InclBottom(keys, key) >= 0 ==>
      (BlockLookup(bs[InclBottom(keys, key)], key) == Some(v) <==> Entry(key, v) in Concat(bs))
  {
    var pos := InclBottom(keys, key);
    ConcatMember(bs, Entry(key, v));
    if Entry(key, v) in Concat(bs) {
      var q :| 0 <= q < |bs| && Entry(key, v) in bs[q];
      if q != pos {
        OnlyPickedBlockHolds(keys, bs, key, q, Entry(key, v));
      }
    }
    if pos >= 0 {
      assert BlockFits(keys, bs, pos);
      BlockLookupExact(bs[pos], key, v);
    }
  }

  /** Consecutive sorted blocks in key order make a sorted whole. */
  lemma {:induction false} LayoutSorted(keys: seq<Key>, bs: seq<seq<Entry>>)
    requires Layout(keys, bs)
    ensures Sorted(Concat(bs))
  {
    ConcatPrefixSorted(keys, bs, |bs|);
    assert bs[..|bs|] == bs;
  }

  lemma {:induction false} ConcatPrefixSorted(keys: seq<Key>, bs: seq<seq<Entry>>, k: int)
    requires Layout(keys, bs) && 0 <= k <= |bs|
    ensures Sorted(Concat(bs[..k]))
    ensures k < |bs| ==> forall e :: e in Concat(bs[..k]) ==> Less(e.key, keys[k])
  {
    if k > 0 {
      ConcatPrefixSorted(keys, bs, k - 1);
      var front := Concat(bs[..k - 1]);
      var last := bs[k - 1];
      assert bs[..k][..k - 1] == bs[..k - 1];
      assert Concat(bs[..k]) == front + last;
      assert BlockFits(keys, bs, k - 1);
      forall x, y | x in front && y in last ensures Less(x.key, y.key) {
        LessEqLessTransitive(x.key, keys[k - 1], y.key);
      }
      SortedAppend(front, last);
      if k < |bs| {
        forall e | e in front + last ensures Less(e.key, keys[k]) {
          if e in front {
            LessTransitive(e.key, keys[k - 1], keys[k]);
          }
        }
      }
    }
  }

  // ---------------------------------------------------------------------
  // Range scans

  /** The first block a range scan may touch: 0 without a lower bound or below the first block. */
  function StartBlock(keys: seq<Key>, from: Option<Key>): (r: int)
    ensures r >= 0 && (|keys| > 0 ==> r < |keys|)
    ensures from.None? ==> r == 0
    ensures from.Some? && r > 0 ==> r == InclBottom(keys, from.value)
  {
    var t := if from.None? then 0 else InclBottom(keys, from.value);
    if t < 0 then 0 else t
  }

  /** The last block a range scan may touch: the last block without an upper bound, never past it. */
  function EndBlock(keys: seq<Key>, to: Option<Key>): (r: int)
    ensures -1 <= r < |keys|
    ensures to.None? ==> r == |keys| - 1
    ensures to.Some? ==> r == InclBottom(keys, to.value)
  {
    var t := if to.None? then |keys| - 1 else InclBottom(keys, to.value);
    if t > |keys| - 1 then |keys| - 1 else t
  }

  /**
   * What a range scan yields from block `pos` on: each block's own range
   * scan in turn, moving up (or down) until past `end` (or `start`), or
   * until a block cannot be read (None).
   */
  function Walk(blocks: seq<Option<seq<Entry>>>, from: Option<Key>, to: Option<Key>, ascending: bool,
                start: int, end: int, pos: int): seq<Entry>
    requires 0 <= start && end < |blocks|
    requires ascending ==> start <= pos
    requires !ascending ==> pos <= end
    decreases if ascending then |blocks| - pos else pos + 1
  {
    if (ascending && pos > end) || (!ascending && pos < start) then []
    else match blocks[pos]
      case None => []
      case Some(es) =>
        BlockRange(es, from, to, ascending) +
        Walk(blocks, from, to, ascending, start, end, if ascending then pos + 1 else pos - 1)
  }

  /** The range scan of each readable block. */
  function Scans(blocks: seq<Option<seq<Entry>>>, from: Option<Key>, to: Option<Key>, ascending: bool): (r: seq<Option<seq<Entry>>>)
    ensures |r| == |blocks|
  {
    seq(|blocks|, p requires 0 <= p < |blocks| =>
      match blocks[p]
      case None => None
      case Some(es) => Some(BlockRange(es, from, to, ascending)))
  }

  /** The scans from `pos` on, chained in walking order up to the first unreadable block. */
  function Chain(scans: seq<Option<seq<Entry>>>, ascending: bool, start: int, end: int, pos: int): seq<Entry>
    requires 0 <= start && end < |scans|
    requires ascending ==> start <= pos
    requires !ascending ==> pos <= end
    decreases if ascending then |scans| - pos else pos + 1
  {
    if (ascending && pos > end) || (!ascending && pos < start) then []
    else match scans[pos]
      case None => []
      case Some(r) => r + Chain(scans, ascending, start, end, if ascending then pos + 1 else pos - 1)
  }

  /** A walk is the chain of its blocks' scans. */
  lemma {:induction false} WalkAsChain(blocks: seq<Option<seq<Entry>>>, from: Option<Key>, to: Option<Key>, ascending: bool,
                                       start: int, end: int, pos: int)
    requires 0 <= start && end < |blocks|
    requires ascending ==> start <= pos
    requires !ascending ==> pos <= end
    ensures Walk(blocks, from, to, ascending, start, end, pos)
         == Chain(Scans(blocks, from, to, ascending), ascending, start, end, pos)
    decreases if ascending then |blocks| - pos else pos + 1
  {
    if !((ascending && pos > end) || (!ascending && pos < start)) && blocks[pos].Some? {
      WalkAsChain(blocks, from, to, ascending, start, end, if ascending then pos + 1 else pos - 1);
    }
  }

  /** The in-range part of each block. */
  function FilterEach(bs: seq<seq<Entry>>, from: Option<Key>, to: Option<Key>): (fs: seq<seq<Entry>>)
    ensures |fs| == |bs|
    ensures forall p :: 0 <= p < |fs| ==> fs[p] == Filter(bs[p], from, to)
  {
    if bs == [] then [] else FilterEach(bs[..|bs| - 1], from, to) + [Filter(bs[|bs| - 1], from, to)]
  }

  lemma {:induction false} FilterOfConcat(bs: seq<seq<Entry>>, from: Option<Key>, to: Option<Key>)
    ensures Filter(Concat(bs), from, to) == Concat(FilterEach(bs, from, to))
  {
    if bs != [] {
      var k := |bs| - 1;
      FilterOfConcat(bs[..k], from, to);
      FilterConcat(Concat(bs[..k]), bs[k], from, to);
      assert FilterEach(bs, from, to)[..k] == FilterEach(bs[..k], from, to);
    }
  }

  lemma {:induction false} ConcatOfEmpties(fs: seq<seq<Entry>>)
    requires forall p :: 0 <= p < |fs| ==> fs[p] == []
    ensures Concat(fs) == []
  {
    if fs != [] {
      ConcatOfEmpties(fs[..|fs| - 1]);
    }
  }

  /** Blocks outside [StartBlock, EndBlock] hold nothing in range. */
  lemma {:induction false} OutsideBlocksEmpty(keys: seq<Key>, bs: seq<seq<Entry>>, from: Option<Key>, to: Option<Key>, q: int)
    requires Layout(keys, bs) && 0 <= q < |bs|
    requires q < StartBlock(keys, from) || q > EndBlock(keys, to)
    ensures Filter(bs[q], from, to) == []
  {
    var f := Filter(bs[q], from, to);
    assert BlockFits(keys, bs, q);
    if f != [] {
      var e := f[0];
      FilterMember(bs[q], from, to, e);
      if q < StartBlock(keys, from) {
        var s := StartBlock(keys, from);
        KeysLessEq(keys, q + 1, s);
        LessEqLessTransitive(e.key, keys[q + 1], keys[s]);
        LessEqLessTransitive(e.key, keys[s], from.value);
        LessAsymmetric(e.key, from.value);
        LessIrreflexive(e.key);
      } else {
        LessTotal(keys[q], to.value);
        LessEqLessTransitive(to.value, keys[q], e.key);
        LessAsymmetric(to.value, e.key);
      }
    }
  }

  /** One step of a walk: the block at `pos` is readable and scanned. */
  lemma {:induction false} WalkUnfold(blocks: seq<Option<seq<Entry>>>, from: Option<Key>, to: Option<Key>, ascending: bool,
                   start: int, end: int, pos: int, es: seq<Entry>)
    requires 0 <= start <= pos <= end < |blocks| && blocks[pos] == Some(es)
    ensures Walk(blocks, from, to, ascending, start, end, pos)
         == BlockRange(es, from, to, ascending) +
            Walk(blocks, from, to, ascending, start, end, if ascending then pos + 1 else pos - 1)
  {
  }

  lemma {:induction false} ConcatFirst(fs: seq<seq<Entry>>, pos: int, end: int)
    requires 0 <= pos <= end < |fs|
    ensures Concat(fs[pos..end + 1]) == fs[pos] + Concat(fs[pos + 1..end + 1])
  {
    assert fs[pos..end + 1] == [fs[pos]] + fs[pos + 1..end + 1];
    ConcatSplit([fs[pos]], fs[pos + 1..end + 1]);
    assert Concat([fs[pos]]) == Concat([fs[pos]][..0]) + fs[pos];
  }

  lemma {:induction false} ReverseConcatUpTo(fs: seq<seq<Entry>>, start: int, pos: int)
    requires 0 <= start <= pos < |fs|
    ensures Reverse(Concat(fs[start..pos + 1])) == Reverse(fs[pos]) + Reverse(Concat(fs[start..pos]))
  {
    var upto := fs[start..pos + 1];
    assert upto[..pos - start] == fs[start..pos];
    ReverseConcatLast(upto);
  }

  /** An ascending walk over readable blocks `bs` is their in-range parts, one after the other. */
  lemma {:induction false} WalkAscending(blocks: seq<Option<seq<Entry>>>, from: Option<Key>, to: Option<Key>,
                                         start: int, end: int, pos: int, bs: seq<seq<Entry>>)
    requires 0 <= start <= pos <= end + 1 && end < |blocks| == |bs|
    requires forall p :: 0 <= p < |bs| ==> blocks[p] == Some(bs[p])
    ensures Walk(blocks, from, to, true, start, end, pos) == Concat(FilterEach(bs, from, to)[pos..end + 1])
    decreases end - pos
  {
    var fs := FilterEach(bs, from, to);
    if pos <= end {
      WalkAscending(blocks, from, to, start, end, pos + 1, bs);
      WalkUnfold(blocks, from, to, true, start, end, pos, bs[pos]);
      ConcatFirst(fs, pos, end);
    } else {
      assert fs[pos..end + 1] == [];
    }
  }

  /** A descending walk is the reverse of the blocks' in-range parts. */
  lemma {:induction false} WalkDescending(blocks: seq<Option<seq<Entry>>>, from: Option<Key>, to: Option<Key>,
                                          start: int, end: int, pos: int, bs: seq<seq<Entry>>)
    requires 0 <= start <= pos + 1 && pos <= end < |blocks| == |bs|
    requires forall p :: 0 <= p < |bs| ==> blocks[p] == Some(bs[p])
    ensures Walk(blocks, from, to, false, start, end, pos) == Reverse(Concat(FilterEach(bs, from, to)[start..pos + 1]))
    decreases pos - start
  {
    var fs := FilterEach(bs, from, to);
    if pos >= start {
      var tail := Walk(blocks, from, to, false, start, end, pos - 1);
      assert Walk(blocks, from, to, false, start, end, pos) == Reverse(Concat(fs[start..pos + 1])) by {
        assert tail == Reverse(Concat(fs[start..pos])) by {
          WalkDescending(blocks, from, to, start, end, pos - 1, bs);
        }
        assert Walk(blocks, from, to, false, start, end, pos) == BlockRange(bs[pos], from, to, false) + tail by {
          WalkUnfold(blocks, from, to, false, start, end, pos, bs[pos]);
        }
        assert BlockRange(bs[pos], from, to, false) == Reverse(fs[pos]);
        ReverseConcatUpTo(fs, start, pos);
      }
    } else {
      assert fs[start..pos + 1] == [];
    }
  }

  /** When only blocks `lo..hi` hold anything, the rest can be dropped. */
  lemma {:induction false} ConcatMiddle(fs: seq<seq<Entry>>, lo: int, hi: int)
    requires 0 <= lo <= hi + 1 <= |fs|
    requires forall q :: 0 <= q < |fs| && (q < lo || q > hi) ==> fs[q] == []
    ensures Concat(fs) == Concat(fs[lo..hi + 1])
  {
    assert fs == fs[..lo] + fs[lo..hi + 1] + fs[hi + 1..];
    ConcatSplit(fs[..lo] + fs[lo..hi + 1], fs[hi + 1..]);
    ConcatSplit(fs[..lo], fs[lo..hi + 1]);
    ConcatOfEmpties(fs[..lo]);
    ConcatOfEmpties(fs[hi + 1..]);
  }

  lemma {:induction false} OutsideAllEmpty(keys: seq<Key>, bs: seq<seq<Entry>>, from: Option<Key>, to: Option<Key>)
    requires Layout(keys, bs)
    ensures forall q :: 0 <= q < |bs| && (q < StartBlock(keys, from) || q > EndBlock(keys, to))
                        ==> FilterEach(bs, from, to)[q] == []
  {
    forall q | 0 <= q < |bs| && (q < StartBlock(keys, from) || q > EndBlock(keys, to))
      ensures FilterEach(bs, from, to)[q] == []
    {
      OutsideBlocksEmpty(keys, bs, from, to, q);
    }
  }

  /** The in-range entries of a layout sit in blocks StartBlock..EndBlock. */
  lemma {:induction false} InRangeBlocks(keys: seq<Key>, bs: seq<seq<Entry>>, from: Option<Key>, to: Option<Key>)
    requires Layout(keys, bs)
    ensures StartBlock(keys, from) > EndBlock(keys, to) ==> Filter(Concat(bs), from, to) == []
    ensures StartBlock(keys, from) <= EndBlock(keys, to) ==>
      Filter(Concat(bs), from, to) == Concat(FilterEach(bs, from, to)[StartBlock(keys, from)..EndBlock(keys, to) + 1])
  {
    var s := StartBlock(keys, from);
    var e := EndBlock(keys, to);
    var fs := FilterEach(bs, from, to);
    if s > e {
      assert Filter(Concat(bs), from, to) == [] by {
        FilterOfConcat(bs, from, to);
        OutsideAllEmpty(keys, bs, from, to);
        ConcatOfEmpties(fs);
      }
    } else {
      assert Filter(Concat(bs), from, to) == Concat(fs[s..e + 1]) by {
        FilterOfConcat(bs, from, to);
        OutsideAllEmpty(keys, bs, from, to);
        ConcatMiddle(fs, s, e);
      }
    }
  }

  lemma {:induction false} WalkCompleteAscending(keys: seq<Key>, bs: seq<seq<Entry>>, blocks: seq<Option<seq<Entry>>>,
                              from: Option<Key>, to: Option<Key>)
    requires Layout(keys, bs) && |blocks| == |bs|
    requires forall p :: 0 <= p < |bs| ==> blocks[p] == Some(bs[p])
    ensures Walk(blocks, from, to, true, StartBlock(keys, from), EndBlock(keys, to), StartBlock(keys, from))
         == Filter(Concat(bs), from, to)
  {
    var s := StartBlock(keys, from);
    var e := EndBlock(keys, to);
    InRangeBlocks(keys, bs, from, to);
    if s <= e {
      WalkAscending(blocks, from, to, s, e, s, bs);
    }
  }

  lemma {:induction false} WalkCompleteDescending(keys: seq<Key>, bs: seq<seq<Entry>>, blocks: seq<Option<seq<Entry>>>,
                               from: Option<Key>, to: Option<Key>)
    requires Layout(keys, bs) && |blocks| == |bs|
    requires forall p :: 0 <= p < |bs| ==> blocks[p] == Some(bs[p])
    ensures Walk(blocks, from, to, false, StartBlock(keys, from), EndBlock(keys, to), EndBlock(keys, to))
         == Reverse(Filter(Concat(bs), from, to))
  {
    var s := StartBlock(keys, from);
    var e := EndBlock(keys, to);
    InRangeBlocks(keys, bs, from, to);
    if s <= e {
      WalkDescending(blocks, from, to, s, e, e, bs);
    }
  }
}
