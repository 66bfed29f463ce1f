/**
 * The read side of an on-disk index: a block index (first key of each
 * block, plus where the block lives) kept in memory, and memory-mapped
 * block files holding the blocks themselves. Block files are byte
 * sequences; what a block's bytes mean is left to the block reader, given
 * here as a function from a byte range to the entries it encodes.
 */
module DiskIndexes {
  import opened Wrappers
  import opened Keys
  import opened BlockReaders
  import opened BlockLayouts
  import opened Decimal

  /** One block-index entry: the block's first key and its 6-byte location. */
  datatype IndexEntry = IndexEntry(firstKey: Key, location: seq<byte>)

  /** A block reader's view of `file[start..end)`; `compressed` picks the reader kind. */
  datatype BlockView = BlockView(file: seq<byte>, start: int, end: int, compressed: bool)

  /**
   * A loaded index. `files[i]` is the mapped `blockfile_<i>.idx`, or None
   * when no such file was mapped; `reader` decodes a block's entries.
   */
  datatype DiskIndex = DiskIndex(
    blockIndex: seq<IndexEntry>,
    files: seq<Option<seq<byte>>>,
    compressed: bool,
    reader: BlockView -> seq<Entry>)

  // ---------------------------------------------------------------------
  // Location decoding (big-endian, as a ByteBuffer reads it)

  const TwoTo16: int := 0x1_0000
  const TwoTo32: int := 0x1_0000_0000

  /** The signed 32-bit big-endian integer at `b[i..i+4]`. */
  function Int32At(b: seq<byte>, i: nat): (r: int)
    requires i + 4 <= |b|
    ensures -TwoTo32 / 2 <= r < TwoTo32 / 2
  {
    var u := ((b[i] as int * 256 + b[i + 1] as int) * 256 + b[i + 2] as int) * 256 + b[i + 3] as int;
    if u >= TwoTo32 / 2 then u - TwoTo32 else u
  }

  /** The signed 16-bit big-endian integer at `b[i..i+2]`. */
  function Int16At(b: seq<byte>, i: nat): (r: int)
    requires i + 2 <= |b|
    ensures -TwoTo16 / 2 <= r < TwoTo16 / 2
  {
    var u := b[i] as int * 256 + b[i + 1] as int;
    if u >= TwoTo16 / 2 then u - TwoTo16 else u
  }

  /** The 6 bytes the index writer stores for a block at `offset` in file `fileId`. */
  function EncodeLocation(offset: int, fileId: int): (r: seq<byte>)
    requires -TwoTo32 / 2 <= offset < TwoTo32 / 2
    requires -TwoTo16 / 2 <= fileId < TwoTo16 / 2
    ensures |r| == 6
  {
    var u := if offset < 0 then offset + TwoTo32 else offset;
    var u1 := u / 256;
    var u2 := u1 / 256;
    var f := if fileId < 0 then fileId + TwoTo16 else fileId;
    [(u2 / 256) as byte, (u2 % 256) as byte, (u1 % 256) as byte, (u % 256) as byte,
     (f / 256) as byte, (f % 256) as byte]
  }

  /**
   * Decoding a written location gives back its offset and file id. This
   * follows from the definitions; the body only spells out the byte split.
   */
  lemma {:induction false} LocationRoundTrip(offset: int, fileId: int)
    requires -TwoTo32 / 2 <= offset < TwoTo32 / 2
    requires -TwoTo16 / 2 <= fileId < TwoTo16 / 2
    ensures Int32At(EncodeLocation(offset, fileId), 0) == offset
    ensures Int16At(EncodeLocation(offset, fileId), 4) == fileId
  {
    var u := if offset < 0 then offset + TwoTo32 else offset;
    var u1 := u / 256;
    var u2 := u1 / 256;
    assert u2 / 256 * 256 + u2 % 256 == u2;
    assert u1 / 256 * 256 + u1 % 256 == u1;
    assert u / 256 * 256 + u % 256 == u;
  }

  /** Every block-index value is long enough to hold an offset and a file id. */
  predicate Sized(ix: DiskIndex) {
    forall p :: 0 <= p < |ix.blockIndex| ==> |ix.blockIndex[p].location| >= 6
  }

  /** `getBlockOffset`: the block's start offset, at byte 0 of its location. */
  function OffsetAt(ix: DiskIndex, p: int): int
    requires Sized(ix) && 0 <= p < |ix.blockIndex|
  {
    Int32At(ix.blockIndex[p].location, 0)
  }

  /** `getBlockFileId`: the block's file id, at byte 4 of its location. */
  function FileIdAt(ix: DiskIndex, p: int): int
    requires Sized(ix) && 0 <= p < |ix.blockIndex|
  {
    Int16At(ix.blockIndex[p].location, 4)
  }

  /** The blocks' first keys, the keys the block search runs over. */
  function FirstKeys(ix: DiskIndex): (keys: seq<Key>)
    ensures |keys| == |ix.blockIndex|
    ensures forall p :: 0 <= p < |keys| ==> keys[p] == ix.blockIndex[p].firstKey
  {
    seq(|ix.blockIndex|, p requires 0 <= p < |ix.blockIndex| => ix.blockIndex[p].firstKey)
  }

  // ---------------------------------------------------------------------
  // Finding and reading a block

  /**
   * Where block `pos` ends: -1 (the end of its mapped file) when it is the
   * last block, or when the next block lives in a higher-numbered file;
   * otherwise the next block's start offset.
   */
  function EndOffset(ix: DiskIndex, pos: int): (r: int)
    requires Sized(ix) && 0 <= pos < |ix.blockIndex|
  {
    if pos == |ix.blockIndex| - 1 then -1
    else if FileIdAt(ix, pos + 1) > FileIdAt(ix, pos) then -1
    else OffsetAt(ix, pos + 1)
  }

  /** `getBlock`: no block when `start` lies past the file; an end of -1 means the file's end. */
  function GetBlock(ix: DiskIndex, start: int, end: int, file: seq<byte>): (r: Option<BlockView>)
    ensures r.None? <==> start > |file|
    ensures r.Some? ==> r.value.file == file && r.value.start == start && r.value.compressed == ix.compressed
    ensures r.Some? ==> r.value.end == (if end == -1 then |file| else end)
  {
    if start > |file| then None
    else Some(BlockView(file, start, if end == -1 then |file| else end, ix.compressed))
  }

  /** `dbFiles[fileId]`: an id outside the array, or a slot never mapped, fails. */
  function FileOf(ix: DiskIndex, fileId: int): (r: Result<seq<byte>, Error>)
    ensures r.Success? <==> 0 <= fileId < |ix.files| && ix.files[fileId].Some?
    ensures r.Success? ==> r.value == ix.files[fileId].value
    ensures r.Failure? ==> r.error == (if 0 <= fileId < |ix.files| then NullPointer else IndexOutOfBounds)
  {
    if !(0 <= fileId < |ix.files|) then Failure(IndexOutOfBounds)
    else if ix.files[fileId].None? then Failure(NullPointer)
    else Success(ix.files[fileId].value)
  }

  /** Every block's file id names a mapped file. */
  predicate Resolvable(ix: DiskIndex) {
    Sized(ix) && forall p :: 0 <= p < |ix.blockIndex| ==> FileOf(ix, FileIdAt(ix, p)).Success?
  }

  /** The view of block `pos`: its file, its start offset and its end offset. */
  function BlockAt(ix: DiskIndex, pos: int): Result<Option<BlockView>, Error>
    requires Sized(ix) && 0 <= pos < |ix.blockIndex|
  {
    match FileOf(ix, FileIdAt(ix, pos))
    case Failure(e) => Failure(e)
    case Success(file) => Success(GetBlock(ix, OffsetAt(ix, pos), EndOffset(ix, pos), file))
  }

  /**
   * The view of a block that is not the last one ends where the next block
   * starts, in the same file. This follows from the definitions.
   */
  lemma {:induction false} BlockEndsAtNext(ix: DiskIndex, pos: int)
    requires Resolvable(ix) && 0 <= pos < |ix.blockIndex| - 1
    requires FileIdAt(ix, pos + 1) <= FileIdAt(ix, pos) && OffsetAt(ix, pos + 1) != -1
    requires OffsetAt(ix, pos) <= |ix.files[FileIdAt(ix, pos)].value|
    ensures BlockAt(ix, pos).Success? && BlockAt(ix, pos).value.Some?
    ensures BlockAt(ix, pos).value.value.end == OffsetAt(ix, pos + 1)
  {
    assert FileOf(ix, FileIdAt(ix, pos)).Success?;
  }

  /**
   * The last block, and the last block of each file, reaches its file's end.
   * This follows from the definitions.
   */
  lemma {:induction false} BlockEndsAtFileEnd(ix: DiskIndex, pos: int)
    requires Resolvable(ix) && 0 <= pos < |ix.blockIndex|
    requires pos == |ix.blockIndex| - 1 || FileIdAt(ix, pos + 1) > FileIdAt(ix, pos)
    requires OffsetAt(ix, pos) <= |ix.files[FileIdAt(ix, pos)].value|
    ensures BlockAt(ix, pos).Success? && BlockAt(ix, pos).value.Some?
    ensures BlockAt(ix, pos).value.value.end == |ix.files[FileIdAt(ix, pos)].value|
  {
    assert FileOf(ix, FileIdAt(ix, pos)).Success?;
  }

  /** `lookup`: the value stored under `key`, read from the one block that may hold it. */
  function Lookup(ix: DiskIndex, key: Key): (r: Result<Option<Value>, Error>)
    requires Sized(ix)
  {
    var pos := InclBottom(FirstKeys(ix), key);
    if pos == -1 then Success(None)
    else match BlockAt(ix, pos)
      case Failure(e) => Failure(e)
      case Success(None) => Failure(NullPointer)
      case Success(Some(view)) => Success(BlockLookup(ix.reader(view), key))
  }

  /** A key below every block's first key is not in the index. */
  lemma {:induction false} LookupBeforeFirst(ix: DiskIndex, key: Key)
    requires Sized(ix) && KeysSorted(FirstKeys(ix))
    requires ix.blockIndex == [] || Less(key, ix.blockIndex[0].firstKey)
    ensures Lookup(ix, key) == Success(None)
  {
    InclBottomMiss(FirstKeys(ix), key);
  }

  // ---------------------------------------------------------------------
  // The index's contents

  /** Every block resolves to a byte range of its file. */
  predicate Readable(ix: DiskIndex) {
    Resolvable(ix) && forall p :: 0 <= p < |ix.blockIndex| ==> BlockAt(ix, p).value.Some?
  }

  /** The entries of each block, as the reader decodes them. */
  function Blocks(ix: DiskIndex): (bs: seq<seq<Entry>>)
    requires Readable(ix)
    ensures |bs| == |ix.blockIndex|
  {
    seq(|ix.blockIndex|, p requires 0 <= p < |ix.blockIndex| => ix.reader(BlockAt(ix, p).value.value))
  }

  /** The shape the index writer produces: readable blocks laid out in key order. */
  predicate Consistent(ix: DiskIndex) {
    Readable(ix) && Layout(FirstKeys(ix), Blocks(ix))
  }

  /** Everything the index holds, block after block. */
  function AllEntries(ix: DiskIndex): seq<Entry>
    requires Readable(ix)
  {
    Concat(Blocks(ix))
  }

  /** `lookup` on a consistent index finds exactly the entries it holds. */
  lemma {:induction false} LookupCorrect(ix: DiskIndex, key: Key, v: Value)
    requires Consistent(ix)
    ensures Lookup(ix, key).Success?
    ensures Lookup(ix, key).value == Some(v) <==> Entry(key, v) in AllEntries(ix)
  {
    var pos := InclBottom(FirstKeys(ix), key);
    PickedBlockLookup(FirstKeys(ix), Blocks(ix), key, v);
    if pos >= 0 {
      assert BlockAt(ix, pos).value.Some?;
    }
  }

  /** A consistent index holds its entries in strictly ascending key order. */
  lemma {:induction false} AllEntriesSorted(ix: DiskIndex)
    requires Consistent(ix)
    ensures Sorted(AllEntries(ix))
  {
    LayoutSorted(FirstKeys(ix), Blocks(ix));
  }

  // ---------------------------------------------------------------------
  // Number of keys

  /** The entry count of the block at `[start, end)` of file `fileId`. */
  function BlockCount(ix: DiskIndex, start: int, end: int, fileId: int): (r: Result<int, Error>)
    ensures r.Success? ==> r.value >= 0
  {
    match FileOf(ix, fileId)
    case Failure(e) => Failure(e)
    case Success(file) =>
      match GetBlock(ix, start, end, file)
      case None => Failure(NullPointer)
      case Some(view) => Success(|ix.reader(view)|)
  }

  /**
   * `numKeys`, an estimate: the last block's count plus the first block's
   * count (read from offset 0) for every other block.
   */
  function NumKeys(ix: DiskIndex): (r: Result<int, Error>)
    requires Sized(ix)
    ensures |ix.blockIndex| == 0 ==> r == Success(0)
    ensures r.Success? ==> r.value >= 0
  {
    var n := |ix.blockIndex|;
    if n == 0 then Success(0)
    else match BlockCount(ix, OffsetAt(ix, n - 1), -1, FileIdAt(ix, n - 1))
      case Failure(e) => Failure(e)
      case Success(last) =>
        if n == 1 then Success(last)
        else
          var firstEnd := if FileIdAt(ix, 1) > FileIdAt(ix, 0) then -1 else OffsetAt(ix, 1);
          match BlockCount(ix, 0, firstEnd, FileIdAt(ix, 0))
          case Failure(e) => Failure(e)
          case Success(first) => Success(first * (n - 1) + last)
  }

  lemma {:induction false} ConcatUniformLength(bs: seq<seq<Entry>>, c: nat, k: nat)
    requires k <= |bs| && forall p :: 0 <= p < k ==> |bs[p]| == c
    ensures |Concat(bs[..k])| == c * k
  {
    if k > 0 {
      assert bs[..k][..k - 1] == bs[..k - 1];
      ConcatUniformLength(bs, c, k - 1);
    }
  }

  /**
   * The estimate is exact when the first block starts at offset 0 and every
   * block but the last holds as many entries as the first.
   */
  lemma {:induction false} NumKeysExact(ix: DiskIndex)
    requires Readable(ix) && |ix.blockIndex| > 0 && OffsetAt(ix, 0) == 0
    requires forall p :: 0 <= p < |ix.blockIndex| - 1 ==> |Blocks(ix)[p]| == |Blocks(ix)[0]|
    ensures NumKeys(ix) == Success(|AllEntries(ix)|)
  {
    var n := |ix.blockIndex|;
    var bs := Blocks(ix);
    ConcatUniformLength(bs, |bs[0]|, n - 1);
    assert bs[..n] == bs;
    assert BlockAt(ix, n - 1).value.Some?;
    assert BlockAt(ix, 0).value.Some?;
  }

  // ---------------------------------------------------------------------
  // Range lookups

  /**
   * The entries of block `p` as a scan reads them, or None when the scan
   * stops there: its start lies past its file, or its file id names no file.
   */
  function BlockEntriesAt(ix: DiskIndex, p: int): Option<seq<Entry>>
    requires Sized(ix) && 0 <= p < |ix.blockIndex|
  {
    match BlockAt(ix, p)
    case Failure(_) => None
    case Success(None) => None
    case Success(Some(view)) => Some(ix.reader(view))
  }

  /** Every block as a scan reads it. */
  function ReadBlocks(ix: DiskIndex): (r: seq<Option<seq<Entry>>>)
    requires Sized(ix)
    ensures |r| == |ix.blockIndex| && forall p :: 0 <= p < |r| ==> r[p] == BlockEntriesAt(ix, p)
  {
    seq(|ix.blockIndex|, p requires 0 <= p < |ix.blockIndex| => BlockEntriesAt(ix, p))
  }

  /** Everything `rangeLookup(from, to, ascending)` yields before it ends or fails. */
  function RangeWalk(ix: DiskIndex, from: Option<Key>, to: Option<Key>, ascending: bool): seq<Entry>
    requires Sized(ix)
  {
    var start := StartBlock(FirstKeys(ix), from);
    var end := EndBlock(FirstKeys(ix), to);
    Walk(ReadBlocks(ix), from, to, ascending, start, end, if ascending then start else end)
  }

  lemma {:induction false} ReadableBlocks(ix: DiskIndex)
    requires Readable(ix)
    ensures forall p :: 0 <= p < |ix.blockIndex| ==> ReadBlocks(ix)[p] == Some(Blocks(ix)[p])
  {
    forall p | 0 <= p < |ix.blockIndex| ensures ReadBlocks(ix)[p] == Some(Blocks(ix)[p]) {
      assert BlockAt(ix, p).value.Some?;
    }
  }

  /**
   * A range scan over a consistent index yields exactly the index's
   * entries in [from, to): in key order when ascending, in reverse key
   * order when descending.
   */
  lemma {:induction false} RangeComplete(ix: DiskIndex, from: Option<Key>, to: Option<Key>)
    requires Consistent(ix)
    ensures RangeWalk(ix, from, to, true) == Filter(AllEntries(ix), from, to)
    ensures RangeWalk(ix, from, to, false) == Reverse(Filter(AllEntries(ix), from, to))
  {
    ReadableBlocks(ix);
    WalkCompleteAscending(FirstKeys(ix), Blocks(ix), ReadBlocks(ix), from, to);
    WalkCompleteDescending(FirstKeys(ix), Blocks(ix), ReadBlocks(ix), from, to);
  }

  /** Every slot of `files` holds a mapped file, as `rangeLookup` needs to slice each one. */
  predicate Mapped(ix: DiskIndex) {
    forall i :: 0 <= i < |ix.files| ==> ix.files[i].Some?
  }

  /** Block `pos` lies between the scan's bounds and its file id names no file. */
  predicate FaultsAt(ix: DiskIndex, start: int, end: int, pos: int)
    requires Sized(ix)
  {
    0 <= start <= pos <= end < |ix.blockIndex| && BlockAt(ix, pos).Failure?
  }

  /** Whether a scan from block `pos` on stops at a block whose file id names no file. */
  function FaultAhead(ix: DiskIndex, ascending: bool, start: int, end: int, pos: int): bool
    requires Sized(ix) && 0 <= start && end < |ix.blockIndex|
    requires ascending ==> start <= pos
    requires !ascending ==> pos <= end
    decreases if ascending then |ix.blockIndex| - pos else pos + 1
  {
    if (ascending && pos > end) || (!ascending && pos < start) then false
    else match BlockAt(ix, pos)
      case Failure(_) => true
      case Success(None) => false
      case Success(Some(_)) => FaultAhead(ix, ascending, start, end, if ascending then pos + 1 else pos - 1)
  }

  /** A scan over an index whose every block resolves to a file never fails. */
  lemma {:induction false} ResolvableNeverFaults(ix: DiskIndex, ascending: bool, start: int, end: int, pos: int)
    requires Resolvable(ix) && 0 <= start && end < |ix.blockIndex|
    requires ascending ==> start <= pos
    requires !ascending ==> pos <= end
    ensures !FaultAhead(ix, ascending, start, end, pos)
    decreases if ascending then |ix.blockIndex| - pos else pos + 1
  {
    if (ascending && pos > end) || (!ascending && pos < start) {
    } else {
      assert FileOf(ix, FileIdAt(ix, pos)).Success?;
      ResolvableNeverFaults(ix, ascending, start, end, if ascending then pos + 1 else pos - 1);
    }
  }

  lemma {:induction false} SplitFirst(a: seq<Entry>, b: seq<Entry>)
    requires a != []
    ensures a + b == [a[0]] + (a[1..] + b)
  {
    assert a == [a[0]] + a[1..];
  }

  /**
   * `rangeLookup(from, to, ascending)`: fails with NullPointer when a block
   * file slot was never mapped, as slicing every mapped file does; then
   * positions a new iterator on its first block, which fails when that
   * block's file id names no file.
   */
  method RangeLookup(ix: DiskIndex, from: Option<Key>, to: Option<Key>, ascending: bool)
    returns (r: Result<RangeIterator, Error>)
    requires Sized(ix)
    ensures !Mapped(ix) ==> r == Failure(NullPointer)
    ensures Mapped(ix) ==>
      var start := StartBlock(FirstKeys(ix), from);
      var end := EndBlock(FirstKeys(ix), to);
      (r.Failure? <==> FaultsAt(ix, start, end, if ascending then start else end)) &&
      (r.Failure? ==> r.error == IndexOutOfBounds)
    ensures r.Success? ==>
      var it := r.value;
      fresh(it) && it.ix == ix && it.from == from && it.to == to && it.ascending == ascending &&
      it.Valid() && it.Emitted == [] && it.total == RangeWalk(ix, from, to, ascending) &&
      it.Remaining() == it.total &&
      it.fails == FaultAhead(ix, ascending, it.blockIndexStart, it.blockIndexEnd,
                             if ascending then it.blockIndexStart else it.blockIndexEnd)
  {
    for i := 0 to |ix.files|
      invariant forall j :: 0 <= j < i ==> ix.files[j].Some?
    {
      if ix.files[i].None? {
        return Failure(NullPointer);
      }
    }
    var it := new RangeIterator(ix, from, to, ascending);
    var o := it.GetNextBlockData();
    if o.Fail? {
      return Failure(o.error);
    }
    return Success(it);
  }

  /**
   * The iterator `rangeLookup` returns. It holds the current block position,
   * the current block, and what is left of that block's own range scan;
   * `Emitted` records what `Next` has handed out.
   */
  class RangeIterator {
    const ix: DiskIndex
    const from: Option<Key>
    const to: Option<Key>
    const ascending: bool
    const blockIndexStart: int
    const blockIndexEnd: int
    var currentBlockIndex: int
    var currentBlock: Option<BlockView>
    var currentBlockIterator: Option<seq<Entry>>
    ghost var Emitted: seq<Entry>
    /**
     * Each block's own range scan, everything the iterator yields, and
     * whether it then fails on a block whose file id names no file.
     */
    ghost const scans: seq<Option<seq<Entry>>>
    ghost const total: seq<Entry>
    ghost const fails: bool

    /** The fixed part of the state: the blocks' scans and the scan's block bounds. */
    ghost predicate Source() {
      Sized(ix) && Mapped(ix) && scans == Scans(ReadBlocks(ix), from, to, ascending) &&
      0 <= blockIndexStart && blockIndexEnd < |scans|
    }

    ghost predicate Bounds()
      reads this
    {
      0 <= blockIndexStart && blockIndexEnd < |scans| &&
      (currentBlockIterator.Some? ==> blockIndexStart <= currentBlockIndex <= blockIndexEnd)
    }

    /** What a scan yields from `blockIterator`, the remainder of block `blockIndex`'s scan, on. */
    ghost function Rest(blockIterator: Option<seq<Entry>>, blockIndex: int): seq<Entry>
      requires 0 <= blockIndexStart && blockIndexEnd < |scans|
      requires blockIterator.Some? ==> blockIndexStart <= blockIndex <= blockIndexEnd
    {
      match blockIterator
      case None => []
      case Some(rest) =>
        rest + Chain(scans, ascending, blockIndexStart, blockIndexEnd,
                     if ascending then blockIndex + 1 else blockIndex - 1)
    }

    /** What the iterator has yet to yield. */
    ghost function Remaining(): seq<Entry>
      reads this
      requires Bounds()
    {
      Rest(currentBlockIterator, currentBlockIndex)
    }

    /** Whether the iterator, once it has yielded what remains, fails on a block with no file. */
    ghost function Faulting(): bool
      reads this
      requires Source() && Bounds()
    {
      match currentBlockIterator
      case None => false
      case Some(_) =>
        FaultAhead(ix, ascending, blockIndexStart, blockIndexEnd,
                   if ascending then currentBlockIndex + 1 else currentBlockIndex - 1)
    }

    ghost predicate Valid()
      reads this
    {
      Source() && Bounds() && Emitted + Remaining() == total && Faulting() == fails
    }

    /**
     * The iterator's fields as `rangeLookup` sets them up: the block bounds
     * clamped to the index, the position on the first block to scan, and
     * no block loaded yet.
     */
    constructor (ix: DiskIndex, from: Option<Key>, to: Option<Key>, ascending: bool)
      requires Sized(ix) && Mapped(ix)
      ensures this.ix == ix && this.from == from && this.to == to && this.ascending == ascending
      ensures Source() && Emitted == [] && currentBlock.None? && currentBlockIterator.None?
      ensures blockIndexStart == StartBlock(FirstKeys(ix), from)
      ensures blockIndexEnd == EndBlock(FirstKeys(ix), to)
      ensures currentBlockIndex == (if ascending then blockIndexStart else blockIndexEnd)
      ensures total == RangeWalk(ix, from, to, ascending) &&
              total == Chain(scans, ascending, blockIndexStart, blockIndexEnd, currentBlockIndex)
      ensures fails == FaultAhead(ix, ascending, blockIndexStart, blockIndexEnd, currentBlockIndex)
    {
      this.ix := ix;
      this.from := from;
      this.to := to;
      this.ascending := ascending;
      var start := StartBlock(FirstKeys(ix), from);
      var end := EndBlock(FirstKeys(ix), to);
      blockIndexStart := start;
      blockIndexEnd := end;
      currentBlockIndex := if ascending then start else end;
      currentBlock := None;
      currentBlockIterator := None;
      scans := Scans(ReadBlocks(ix), from, to, ascending);
      total := Walk(ReadBlocks(ix), from, to, ascending, start, end, if ascending then start else end);
      fails := FaultAhead(ix, ascending, start, end, if ascending then start else end);
      Emitted := [];
      new;
      WalkAsChain(ReadBlocks(ix), from, to, ascending, start, end, if ascending then start else end);
    }

    /**
     * Loads the block at the current position, or ends the scan past the
     * last one. It fails with IndexOutOfBounds, changing nothing, when the
     * block's file id names no file. (The source's guard for both bounds
     * being -1 never fires: the start bound is clamped to 0.)
     */
    method GetNextBlockData() returns (o: Outcome<Error>)
      requires Source()
      requires ascending ==> blockIndexStart <= currentBlockIndex
      requires !ascending ==> currentBlockIndex <= blockIndexEnd
      modifies this
      ensures currentBlockIndex == old(currentBlockIndex) && Emitted == old(Emitted)
      ensures o.Fail? <==> FaultsAt(ix, blockIndexStart, blockIndexEnd, currentBlockIndex)
      ensures o.Fail? ==> o.error == IndexOutOfBounds
      ensures o.Fail? ==> currentBlock == old(currentBlock) && currentBlockIterator == old(currentBlockIterator)
      ensures o.Pass? ==> Bounds()
      ensures o.Pass? ==>
        Remaining() == Chain(scans, ascending, blockIndexStart, blockIndexEnd, currentBlockIndex) &&
        Faulting() == FaultAhead(ix, ascending, blockIndexStart, blockIndexEnd, currentBlockIndex)
    {
      if ascending {
        if currentBlockIndex > blockIndexEnd {
          currentBlock := None;
          currentBlockIterator := None;
          return Pass;
        }
      } else {
        if currentBlockIndex < blockIndexStart {
          currentBlock := None;
          currentBlockIterator := None;
          return Pass;
        }
      }
      var startOffset := OffsetAt(ix, currentBlockIndex);
      var fileId := FileIdAt(ix, currentBlockIndex);
      var endOffset := EndOffset(ix, currentBlockIndex);
      var file := FileOf(ix, fileId);
      if file.Failure? {
        return Fail(file.error);
      }
      currentBlock := GetBlock(ix, startOffset, endOffset, file.value);
      if currentBlock.None? {
        currentBlockIterator := None;
      } else {
        currentBlockIterator := Some(BlockRange(ix.reader(currentBlock.value), from, to, ascending));
      }
      return Pass;
    }

    /** The distance from the current block to the end of the scan. */
    ghost function Distance(): int
      reads this
    {
      if ascending then |scans| - currentBlockIndex else currentBlockIndex + 1
    }

    /**
     * Moves from an exhausted block to the next one in scan order; fails
     * when that block's file id names no file, which happens only once
     * nothing remains and the scan is one that fails.
     */
    method Advance() returns (o: Outcome<Error>)
      requires Valid() && currentBlockIterator == Some([])
      modifies this
      ensures Emitted == old(Emitted)
      ensures o.Pass? ==> Valid() && Remaining() == old(Remaining()) && 0 <= Distance() < old(Distance())
      ensures o.Fail? ==> o.error == IndexOutOfBounds && old(Remaining()) == [] && fails
    {
      ghost var rest := Remaining();
      var next := if ascending then currentBlockIndex + 1 else currentBlockIndex - 1;
      assert rest == Chain(scans, ascending, blockIndexStart, blockIndexEnd, next);
      currentBlockIndex := next;
      o := GetNextBlockData();
      if o.Fail? {
        assert BlockEntriesAt(ix, next).None?;
      }
    }

    /**
     * `hasNext`: moves past exhausted blocks until one has entries left or
     * the scan ends; fails when it reaches a block with no file first.
     */
    method HasNext() returns (r: Result<bool, Error>)
      requires Valid()
      modifies this
      ensures Emitted == old(Emitted)
      ensures r.Failure? <==> old(Remaining()) == [] && fails
      ensures r.Failure? ==> r.error == IndexOutOfBounds
      ensures r.Success? ==> Valid() && Remaining() == old(Remaining()) && (r.value <==> Remaining() != [])
      ensures r == Success(true) ==> currentBlockIterator.Some? && currentBlockIterator.value != []
    {
      while currentBlockIterator.Some?
        invariant Valid() && Emitted == old(Emitted) && Remaining() == old(Remaining())
        decreases Distance()
      {
        if currentBlockIterator.value != [] {
          return Success(true);
        }
        var o := Advance();
        if o.Fail? {
          return Failure(o.error);
        }
      }
      return Success(false);
    }

    /**
     * `next`: the next entry of the scan; NoSuchElement once it is over, or
     * IndexOutOfBounds when it ends on a block with no file.
     */
    method Next() returns (r: Result<Entry, Error>)
      requires Valid()
      modifies this
      ensures Emitted == (if r.Success? then old(Emitted) + [r.value] else old(Emitted))
      ensures old(Remaining()) == [] ==> r == Failure(if fails then IndexOutOfBounds else NoSuchElement)
      ensures old(Remaining()) != [] ==>
        r == Success(old(Remaining())[0]) && Valid() && Remaining() == old(Remaining())[1..]
      ensures r != Failure(IndexOutOfBounds) ==> Valid()
    {
      var b := HasNext();
      if b.Failure? {
        return Failure(b.error);
      }
      if !b.value {
        return Failure(NoSuchElement);
      }
      r := Pop();
    }

    /** Hands out the first entry left in the current block. */
    method Pop() returns (r: Result<Entry, Error>)
      requires Valid() && currentBlockIterator.Some? && currentBlockIterator.value != []
      modifies this
      ensures Valid() && old(Remaining()) != []
      ensures r == Success(old(Remaining())[0]) && Remaining() == old(Remaining())[1..]
      ensures Emitted == old(Emitted) + [r.value]
    {
      var rest := currentBlockIterator.value;
      ghost var tail := Chain(scans, ascending, blockIndexStart, blockIndexEnd,
                              if ascending then currentBlockIndex + 1 else currentBlockIndex - 1);
      assert Rest(Some(rest), currentBlockIndex) == rest + tail;
      assert Rest(Some(rest[1..]), currentBlockIndex) == rest[1..] + tail;
      SplitFirst(rest, tail);
      r := Success(rest[0]);
      currentBlockIterator := Some(rest[1..]);
      Emitted := Emitted + [rest[0]];
    }

    /** `remove` is not supported. */
    method Remove() returns (r: Outcome<Error>)
      ensures r == Fail(UnsupportedOperation)
    {
      return Fail(UnsupportedOperation);
    }
  }

  // ---------------------------------------------------------------------
  // Mapping the block files (the constructor's loop)

  const BlockFilePrefix: string := "blockfile_"

  /** The name the index writer gives block file `i`. */
  function BlockFileName(i: nat): string {
    BlockFilePrefix + NatToDecimal(i) + ".idx"
  }

  /** A character the regular-expression `.` does not match. */
  predicate LineTerminator(c: char) {
    c == '\n' || c == '\r' || c == '\U{85}' || c == '\U{2028}' || c == '\U{2029}'
  }

  /**
   * `blockfile_(\d+).idx` matched against a whole name: the digit group, if
   * the name matches. The unescaped `.` stands for any one character.
   */
  function BlockFileGroup(name: string): (r: Option<string>)
    ensures r.Some? ==> r.value != [] && AllDigits(r.value) && |name| >= 15 &&
                        name == BlockFilePrefix + r.value + [name[|name| - 4]] + "idx" &&
                        !LineTerminator(name[|name| - 4])
  {
    if |name| >= 15 && name[..10] == BlockFilePrefix && name[|name| - 3..] == "idx"
       && AllDigits(name[10..|name| - 4]) && !LineTerminator(name[|name| - 4])
    then
      assert name == name[..10] + name[10..|name| - 4] + [name[|name| - 4]] + name[|name| - 3..];
      Some(name[10..|name| - 4])
    else None
  }

  /** Every name of the pattern's shape matches, with its digits as the group. */
  lemma {:induction false} BlockFileGroupMatches(d: string, c: char)
    requires d != [] && AllDigits(d) && !LineTerminator(c)
    ensures BlockFileGroup(BlockFilePrefix + d + [c] + "idx") == Some(d)
  {
    var name := BlockFilePrefix + d + [c] + "idx";
    assert name[..10] == BlockFilePrefix;
    assert name[10..|name| - 4] == d;
    assert name[|name| - 4] == c;
    assert name[|name| - 3..] == "idx";
  }

  /** The directory listing filtered to names starting with `blockfile_`. */
  function BlockFileNames(dir: seq<(string, seq<byte>)>): (r: seq<(string, seq<byte>)>)
    ensures |r| <= |dir|
    ensures forall f :: f in r <==> f in dir && StartsWith(f.0, BlockFilePrefix)
  {
    if dir == [] then []
    else (if StartsWith(dir[0].0, BlockFilePrefix) then [dir[0]] else []) + BlockFileNames(dir[1..])
  }

  /** Maps one listed file into its slot: names that do not match are skipped. */
  function MapOne(file: (string, seq<byte>), slots: seq<Option<seq<byte>>>): Result<seq<Option<seq<byte>>>, Error> {
    match BlockFileGroup(file.0)
    case None => Success(slots)
    case Some(d) =>
      match ParseInt(d)
      case Failure(e) => Failure(e)
      case Success(id) => if id < |slots| then Success(slots[id := Some(file.1)]) else Failure(IndexOutOfBounds)
  }

  /** Maps the listed files in turn, stopping at the first failure. */
  function MapAll(files: seq<(string, seq<byte>)>, slots: seq<Option<seq<byte>>>): Result<seq<Option<seq<byte>>>, Error>
    decreases |files|
  {
    if files == [] then Success(slots)
    else match MapOne(files[0], slots)
      case Failure(e) => Failure(e)
      case Success(next) => MapAll(files[1..], next)
  }

  /** The block files the constructor maps from a directory listing. */
  function LoadBlockFiles(dir: seq<(string, seq<byte>)>): Result<seq<Option<seq<byte>>>, Error> {
    var names := BlockFileNames(dir);
    MapAll(names, seq(|names|, _ => None))
  }

  /**
   * The constructor's loop: one slot per listed `blockfile_` name, each file
   * whose name matches stored at the slot its number names.
   */
  method MapBlockFiles(dir: seq<(string, seq<byte>)>) returns (r: Result<seq<Option<seq<byte>>>, Error>)
    ensures r == LoadBlockFiles(dir)
  {
    var blockFilenames := BlockFileNames(dir);
    var dbFiles := new Option<seq<byte>>[|blockFilenames|](_ => None);
    assert dbFiles[..] == seq(|blockFilenames|, _ => None);
    var i := 0;
    while i < |blockFilenames|
      invariant 0 <= i <= |blockFilenames|
      invariant LoadBlockFiles(dir) == MapAll(blockFilenames[i..], dbFiles[..])
    {
      var file := blockFilenames[i];
      assert blockFilenames[i..][0] == file && blockFilenames[i..][1..] == blockFilenames[i + 1..];
      match BlockFileGroup(file.0) {
        case None =>
        case Some(d) =>
          var id := ParseInt(d);
          if id.Failure? {
            return Failure(id.error);
          }
          if id.value >= dbFiles.Length {
            return Failure(IndexOutOfBounds);
          }
          dbFiles[id.value] := Some(file.1);
      }
      i := i + 1;
    }
    assert blockFilenames[i..] == [];
    return Success(dbFiles[..]);
  }

  /** The canonical listing: block file `ids[k]` at position k, every id distinct and in range. */
  predicate CanonicalListing(dir: seq<(string, seq<byte>)>, ids: seq<nat>) {
    |ids| == |dir| <= IntMax &&
    (forall k :: 0 <= k < |dir| ==> ids[k] < |dir| && dir[k].0 == BlockFileName(ids[k])) &&
    (forall k, l :: 0 <= k < l < |ids| ==> ids[k] != ids[l])
  }

  lemma {:induction false} PrefixedNamesListed(dir: seq<(string, seq<byte>)>)
    requires forall k :: 0 <= k < |dir| ==> StartsWith(dir[k].0, BlockFilePrefix)
    ensures BlockFileNames(dir) == dir
  {
    if dir != [] {
      PrefixedNamesListed(dir[1..]);
    }
  }

  lemma {:induction false} CanonicalMapAll(dir: seq<(string, seq<byte>)>, ids: seq<nat>, i: nat, slots: seq<Option<seq<byte>>>)
    requires CanonicalListing(dir, ids) && i <= |dir| && |slots| == |dir|
    ensures MapAll(dir[i..], slots).Success?
    ensures |MapAll(dir[i..], slots).value| == |dir|
    ensures forall k :: i <= k < |dir| ==> MapAll(dir[i..], slots).value[ids[k]] == Some(dir[k].1)
    ensures forall j :: 0 <= j < |dir| && (forall k :: i <= k < |dir| ==> ids[k] != j)
                        ==> MapAll(dir[i..], slots).value[j] == slots[j]
    decreases |dir| - i
  {
    if i < |dir| {
      var id := ids[i];
      var d := NatToDecimal(id);
      BlockFileGroupMatches(d, '.');
      DecimalRoundTrip(id);
      assert dir[i].0 == BlockFilePrefix + d + ['.'] + "idx";
      assert MapOne(dir[i], slots) == Success(slots[id := Some(dir[i].1)]);
      assert dir[i..][0] == dir[i] && dir[i..][1..] == dir[i + 1..];
      CanonicalMapAll(dir, ids, i + 1, slots[id := Some(dir[i].1)]);
    } else {
      assert dir[i..] == [];
    }
  }

  /** Loading a canonical listing maps each `blockfile_<i>.idx` to slot i. */
  lemma {:induction false} LoadCanonical(dir: seq<(string, seq<byte>)>, ids: seq<nat>)
    requires CanonicalListing(dir, ids)
    ensures LoadBlockFiles(dir).Success?
    ensures |LoadBlockFiles(dir).value| == |dir|
    ensures forall k :: 0 <= k < |dir| ==> LoadBlockFiles(dir).value[ids[k]] == Some(dir[k].1)
  {
    forall k | 0 <= k < |dir| ensures StartsWith(dir[k].0, BlockFilePrefix) {
      assert dir[k].0[..10] == BlockFilePrefix;
    }
    PrefixedNamesListed(dir);
    assert dir[0..] == dir;
    CanonicalMapAll(dir, ids, 0, seq(|dir|, _ => None));
  }
}
