/**
 * `LSMDatabase`: one LSM tree per index, the LSN of the snapshot on disk,
 * and the database directory holding the snapshot files. The directory is
 * its listing (names in the order the file system returns them) and the
 * entries of each snapshot file, by name.
 */
module Databases {
  import opened Wrappers
  import opened Keys
  import opened Lsns
  import opened Decimal
  import opened SnapshotNames
  import opened Overlays
  import opened Groups
  import opened SnapshotGrowth

  // ---------------------------------------------------------------------
  // Choosing the latest snapshot of an index

  /** The names of one index's files: those starting with `IX<index>V`, in listing order. */
  function IndexFiles(listing: seq<string>, index: int): (r: seq<string>)
    ensures forall f :: f in r <==> f in listing && StartsWith(f, IndexPrefix(index))
  {
    if listing == [] then []
    else (if StartsWith(listing[0], IndexPrefix(index)) then [listing[0]] else []) + IndexFiles(listing[1..], index)
  }

  /** Where the running maximum starts: below every LSN a name can hold. */
  const NoSnapshot: Lsn := Lsn(-1, -1)

  /** One step of the running maximum, branch for branch as the loops over the files take it. */
  function MaxStep(m: Lsn, l: Lsn): (r: Lsn)
    ensures r == Max(m, l)
  {
    if l.viewId > m.viewId then l
    else if l.viewId == m.viewId then (if l.sequenceNo > m.sequenceNo then Lsn(m.viewId, l.sequenceNo) else m)
    else m
  }

  function Latest(ms: seq<Lsn>): Lsn {
    if ms == [] then NoSnapshot else ms[|ms| - 1]
  }

  /** What reading each name yields: its LSN, or why it cannot be read. */
  function ParseAll(names: seq<string>): (r: seq<Result<Lsn, Error>>)
    ensures |r| == |names| && forall k :: 0 <= k < |names| ==> r[k] == LsnOfName(names[k])
  {
    seq(|names|, k requires 0 <= k < |names| => LsnOfName(names[k]))
  }

  /**
   * The running maximum after each name read, or the failure of the first
   * name that does not match the pattern or holds a number too large for an `int`.
   */
  function Scan(ps: seq<Result<Lsn, Error>>): (r: Result<seq<Lsn>, Error>)
    ensures r.Success? ==> |r.value| == |ps|
    decreases |ps|
  {
    if ps == [] then Success([])
    else
      match Scan(ps[..|ps| - 1])
      case Failure(e) => Failure(e)
      case Success(ms) =>
        match ps[|ps| - 1]
        case Failure(e) => Failure(e)
        case Success(l) => Success(ms + [MaxStep(Latest(ms), l)])
  }

  /** `Scan` succeeds exactly when every name reads as an LSN; otherwise it reports the first failure. */
  lemma {:induction false} ScanSucceeds(ps: seq<Result<Lsn, Error>>)
    ensures Scan(ps).Success? <==> forall k :: 0 <= k < |ps| ==> ps[k].Success?
    ensures Scan(ps).Failure? ==> exists k :: 0 <= k < |ps| && ps[k] == Failure(Scan(ps).error)
                                    && forall j :: 0 <= j < k ==> ps[j].Success?
    decreases |ps|
  {
    if ps != [] {
      var init := ps[..|ps| - 1];
      ScanSucceeds(init);
      assert forall k :: 0 <= k < |init| ==> init[k] == ps[k];
    }
  }

  /** Views read from digits are never negative. */
  predicate ViewsNatural(ps: seq<Result<Lsn, Error>>) {
    forall j :: 0 <= j < |ps| && ps[j].Success? ==> ps[j].value.viewId >= 0
  }

  lemma {:induction false} ParsedViewsNatural(names: seq<string>)
    ensures ViewsNatural(ParseAll(names))
  {
  }

  /**
   * Each entry of a successful scan is the lexicographic maximum of the
   * LSNs read so far: one of them, and after none of them.
   */
  lemma {:induction false} ScanIsRunningMax(ps: seq<Result<Lsn, Error>>, k: int)
    requires Scan(ps).Success? && ViewsNatural(ps) && 0 <= k < |ps|
    ensures exists j :: 0 <= j <= k && ps[j] == Success(Scan(ps).value[k])
    ensures forall j :: 0 <= j <= k ==> ps[j].Success? && !Before(Scan(ps).value[k], ps[j].value)
    decreases |ps|
  {
    var init := ps[..|ps| - 1];
    var ms := Scan(init).value;
    var l := ps[|ps| - 1].value;
    assert Scan(ps).value == ms + [MaxStep(Latest(ms), l)];
    assert forall i :: 0 <= i < |init| ==> init[i] == ps[i];
    if k < |init| {
      ScanIsRunningMax(init, k);
      assert Scan(ps).value[k] == ms[k];
    } else if init == [] {
      assert Scan(ps).value[k] == l;
    } else {
      ScanIsRunningMax(init, k - 1);
      var m := ms[k - 1];
      assert Scan(ps).value[k] == Max(m, l);
      forall j | 0 <= j <= k ensures ps[j].Success? && !Before(Max(m, l), ps[j].value) {
        if j < k {
          BeforeStrictTotalOrder(Max(m, l), m, ps[j].value);
        }
      }
    }
  }

  /** The loop over one index's files in `loadFromDisk`: the latest snapshot LSN. */
  method LatestSnapshotLsn(files: seq<string>) returns (r: Result<Lsn, Error>)
    ensures r.Success? <==> Scan(ParseAll(files)).Success?
    ensures r.Success? ==> r.value == Latest(Scan(ParseAll(files)).value)
    ensures r.Failure? ==> r.error == Scan(ParseAll(files)).error
  {
    ghost var ps := ParseAll(files);
    var maxView, maxSeq := -1, -1;
    for k := 0 to |files|
      invariant Scan(ps[..k]).Success? && Latest(Scan(ps[..k]).value) == Lsn(maxView, maxSeq)
    {
      var parsed := LsnOfName(files[k]);
      assert ps[k] == parsed;
      if parsed.Failure? {
        ScanStepFails(ps, k);
        return Failure(parsed.error);
      }
      ScanStep(ps, k);
      var view, seqNo := parsed.value.viewId, parsed.value.sequenceNo;
      if view > maxView {
        maxView := view;
        maxSeq := seqNo;
      } else if view == maxView {
        if seqNo > maxSeq {
          maxSeq := seqNo;
        }
      }
    }
    assert ps[..|files|] == ps;
    return Success(Lsn(maxView, maxSeq));
  }

  /** A failure in a prefix of the names is the failure of the whole scan. */
  lemma {:induction false} PrefixFailure(ps: seq<Result<Lsn, Error>>, n: nat)
    requires n <= |ps| && Scan(ps[..n]).Failure?
    ensures Scan(ps) == Scan(ps[..n])
    decreases |ps| - n
  {
    if n < |ps| {
      assert ps[..n + 1][..n] == ps[..n];
      PrefixFailure(ps, n + 1);
    } else {
      assert ps[..n] == ps;
    }
  }

  /** One more readable name extends the running maximum by one step. */
  lemma {:induction false} ScanStep(ps: seq<Result<Lsn, Error>>, k: nat)
    requires k < |ps| && Scan(ps[..k]).Success? && ps[k].Success?
    ensures Scan(ps[..k + 1]) == Success(Scan(ps[..k]).value + [MaxStep(Latest(Scan(ps[..k]).value), ps[k].value)])
  {
    assert ps[..k + 1][..k] == ps[..k];
  }

  /** The first unreadable name decides the whole scan. */
  lemma {:induction false} ScanStepFails(ps: seq<Result<Lsn, Error>>, k: nat)
    requires k < |ps| && Scan(ps[..k]).Success? && ps[k].Failure?
    ensures Scan(ps) == Failure(ps[k].error)
  {
    assert ps[..k + 1][..k] == ps[..k];
    PrefixFailure(ps, k + 1);
  }

  // ---------------------------------------------------------------------
  // Loading from disk

  /**
   * What `loadFromDisk` picks for one index: the LSN of its latest
   * snapshot, or none when the index has no files. The file it opens is
   * named from that LSN; opening a name the directory does not hold fails.
   */
  function LoadIndex(listing: seq<string>, snapshots: map<string, seq<Entry>>, index: int): Result<Option<Lsn>, Error> {
    match Scan(ParseAll(IndexFiles(listing, index)))
    case Failure(e) => Failure(e)
    case Success(ms) =>
      var m := Latest(ms);
      if m.viewId > -1 then
        if SnapshotFilename(index, m.viewId, m.sequenceNo) in snapshots then Success(Some(m)) else Failure(IoError)
      else Success(None)
  }

  /**
   * What loading one index yields: the snapshot file its tree is built over
   * (none when the index has no file) and the on-disk LSN that leaves.
   */
  function LoadFile(listing: seq<string>, snapshots: map<string, seq<Entry>>, index: int): Result<(Option<seq<Entry>>, Lsn), Error> {
    match LoadIndex(listing, snapshots, index)
    case Failure(e) => Failure(e)
    case Success(None) => Success((None, NoDbLsn))
    case Success(Some(m)) => Success((Some(snapshots[SnapshotFilename(index, m.viewId, m.sequenceNo)]), m))
  }

  /** The contents of a tree built over a snapshot file, or over nothing. */
  function BaseOf(file: Option<seq<Entry>>): map<Key, Value> {
    if file.None? then map[] else MapOf(file.value)
  }

  /**
   * An index is loaded from its latest snapshot: the one whose LSN no other
   * file of the index comes after. It loads empty exactly when it has no files.
   */
  lemma {:induction false} LoadPicksLatest(listing: seq<string>, snapshots: map<string, seq<Entry>>, index: int)
    requires LoadIndex(listing, snapshots, index).Success?
    ensures LoadIndex(listing, snapshots, index).value.None? <==> IndexFiles(listing, index) == []
    ensures LoadIndex(listing, snapshots, index).value.Some? ==>
              var m := LoadIndex(listing, snapshots, index).value.value;
              (exists f :: f in IndexFiles(listing, index) && LsnOfName(f) == Success(m))
              && forall f :: f in IndexFiles(listing, index) ==> LsnOfName(f).Success? && !Before(m, LsnOfName(f).value)
  {
    var files := IndexFiles(listing, index);
    var ps := ParseAll(files);
    if files != [] {
      ParsedViewsNatural(files);
      ScanIsRunningMax(ps, |files| - 1);
      var m := Latest(Scan(ps).value);
      var j :| 0 <= j < |files| && ps[j] == Success(m);
      assert m.viewId >= 0;
      assert files[j] in files;
      forall f | f in files ensures LsnOfName(f).Success? && !Before(m, LsnOfName(f).value) {
        var i :| 0 <= i < |files| && files[i] == f;
        assert ps[i] == LsnOfName(f);
      }
    }
  }

  /** What each of the first `n` indices loads, in index order. */
  function LoadAll(listing: seq<string>, snapshots: map<string, seq<Entry>>, n: nat): (r: seq<Result<(Option<seq<Entry>>, Lsn), Error>>)
    ensures |r| == n && forall i :: 0 <= i < n ==> r[i] == LoadFile(listing, snapshots, i)
  {
    seq(n, i requires 0 <= i < n => LoadFile(listing, snapshots, i))
  }

  /** Loading one item after another: every result, up to the first failure. */
  function Collect<T>(rs: seq<Result<T, Error>>): Result<seq<T>, Error>
    decreases |rs|
  {
    if rs == [] then Success([])
    else
      match Collect(rs[..|rs| - 1])
      case Failure(e) => Failure(e)
      case Success(ps) =>
        match rs[|rs| - 1]
        case Failure(e) => Failure(e)
        case Success(p) => Success(ps + [p])
  }

  /** Once an item fails, collecting more fails the same way. */
  lemma {:induction false} CollectFailureStays<T>(rs: seq<Result<T, Error>>, m: nat)
    requires m <= |rs| && Collect(rs[..m]).Failure?
    ensures Collect(rs) == Collect(rs[..m])
    decreases |rs| - m
  {
    if m < |rs| {
      assert rs[..m + 1][..m] == rs[..m];
      CollectFailureStays(rs, m + 1);
    } else {
      assert rs[..m] == rs;
    }
  }

  /**
   * Collecting succeeds exactly when every item does, keeping each item's
   * result; a failure is the failure of the first item that fails.
   */
  lemma {:induction false} CollectAll<T>(rs: seq<Result<T, Error>>)
    ensures Collect(rs).Success? <==> forall i :: 0 <= i < |rs| ==> rs[i].Success?
    ensures Collect(rs).Success? ==> |Collect(rs).value| == |rs| && forall i :: 0 <= i < |rs| ==> rs[i] == Success(Collect(rs).value[i])
    ensures Collect(rs).Failure? ==> exists i :: 0 <= i < |rs| && rs[i] == Failure(Collect(rs).error)
                                                && forall j :: 0 <= j < i ==> rs[j].Success?
    decreases |rs|
  {
    if rs != [] {
      var init := rs[..|rs| - 1];
      CollectAll(init);
      assert forall i :: 0 <= i < |init| ==> init[i] == rs[i];
    }
  }

  /** Collecting the loads of `n` indices: each index's load, up to the first that fails. */
  lemma PicksAreLoads(listing: seq<string>, snapshots: map<string, seq<Entry>>, n: nat)
    ensures Collect(LoadAll(listing, snapshots, n)).Success? <==> forall i :: 0 <= i < n ==> LoadFile(listing, snapshots, i).Success?
    ensures Collect(LoadAll(listing, snapshots, n)).Success? ==>
              var picks := Collect(LoadAll(listing, snapshots, n)).value;
              |picks| == n && forall i :: 0 <= i < n ==> LoadFile(listing, snapshots, i) == Success(picks[i])
    ensures Collect(LoadAll(listing, snapshots, n)).Failure? ==>
              exists i :: 0 <= i < n && LoadFile(listing, snapshots, i) == Failure(Collect(LoadAll(listing, snapshots, n)).error)
  {
    CollectAll(LoadAll(listing, snapshots, n));
  }

  // ---------------------------------------------------------------------
  // Listing the latest snapshot files

  /**
   * The snapshots listed for one index, given the running maximum after
   * each of its files: after each file, the latest snapshot so far, once
   * there is one.
   */
  function Listed(ms: seq<Lsn>): seq<Lsn>
    decreases |ms|
  {
    if ms == [] then []
    else Listed(ms[..|ms| - 1]) + (if Latest(ms).viewId > -1 then [Latest(ms)] else [])
  }

  /** The file names of one index's snapshots, in order. */
  function NamesOf(index: int, ls: seq<Lsn>): (r: seq<string>)
    ensures |r| == |ls| && forall k :: 0 <= k < |ls| ==> r[k] == SnapshotFilename(index, ls[k].viewId, ls[k].sequenceNo)
  {
    seq(|ls|, k requires 0 <= k < |ls| => SnapshotFilename(index, ls[k].viewId, ls[k].sequenceNo))
  }

  lemma {:induction false} NamesOfSnoc(index: int, ls: seq<Lsn>, m: Lsn)
    ensures NamesOf(index, ls + [m]) == NamesOf(index, ls) + [SnapshotFilename(index, m.viewId, m.sequenceNo)]
  {
    var a := NamesOf(index, ls + [m]);
    var b := NamesOf(index, ls) + [SnapshotFilename(index, m.viewId, m.sequenceNo)];
    forall k | 0 <= k < |a| ensures a[k] == b[k] {
      if k < |ls| {
        assert (ls + [m])[k] == ls[k];
      }
    }
  }

  /** One more file read: the names listed so far, and the latest snapshot's name once there is one. */
  lemma {:induction false} ListedStep(index: int, ps: seq<Result<Lsn, Error>>, k: nat, before: seq<string>, names: seq<string>)
    requires k < |ps| && Scan(ps[..k + 1]).Success? && Scan(ps[..k]).Success?
    requires names == before + NamesOf(index, Listed(Scan(ps[..k]).value))
    ensures var m := Latest(Scan(ps[..k + 1]).value);
            (m.viewId > -1 ==> names + [SnapshotFilename(index, m.viewId, m.sequenceNo)]
                                 == before + NamesOf(index, Listed(Scan(ps[..k + 1]).value)))
            && (m.viewId <= -1 ==> names == before + NamesOf(index, Listed(Scan(ps[..k + 1]).value)))
  {
    var ms0 := Scan(ps[..k]).value;
    var ms := Scan(ps[..k + 1]).value;
    assert ms[..|ms| - 1] == ms0 by {
      assert ps[..k + 1][..k] == ps[..k];
    }
    var m := Latest(ms);
    if m.viewId > -1 {
      assert Listed(ms) == Listed(ms0) + [m];
      NamesOfSnoc(index, Listed(ms0), m);
    } else {
      assert Listed(ms) == Listed(ms0);
    }
  }

  /** The names listed for one index, or the failure of its first unreadable name. */
  function IndexNames(listing: seq<string>, index: int): Result<seq<string>, Error> {
    match Scan(ParseAll(IndexFiles(listing, index)))
    case Failure(e) => Failure(e)
    case Success(ms) => Success(NamesOf(index, Listed(ms)))
  }

  /** What listing each of the first `n` indices yields, in index order. */
  function AllIndexNames(listing: seq<string>, n: nat): (r: seq<Result<seq<string>, Error>>)
    ensures |r| == n && forall i :: 0 <= i < n ==> r[i] == IndexNames(listing, i)
  {
    seq(n, i requires 0 <= i < n => IndexNames(listing, i))
  }

  function Flatten(groups: seq<seq<string>>): seq<string>
    decreases |groups|
  {
    if groups == [] then [] else Flatten(groups[..|groups| - 1]) + groups[|groups| - 1]
  }

  /** Listing one group of names after another: all of them in order, up to the first failure. */
  function Gather(rs: seq<Result<seq<string>, Error>>): Result<seq<string>, Error> {
    match Collect(rs)
    case Failure(e) => Failure(e)
    case Success(groups) => Success(Flatten(groups))
  }

  lemma {:induction false} GatherStep(rs: seq<Result<seq<string>, Error>>)
    requires |rs| > 0
    ensures Gather(rs[..|rs| - 1]).Failure? ==> Gather(rs) == Gather(rs[..|rs| - 1])
    ensures Gather(rs[..|rs| - 1]).Success? && rs[|rs| - 1].Failure? ==> Gather(rs) == Failure(rs[|rs| - 1].error)
    ensures Gather(rs[..|rs| - 1]).Success? && rs[|rs| - 1].Success? ==>
              Gather(rs) == Success(Gather(rs[..|rs| - 1]).value + rs[|rs| - 1].value)
  {
    if Collect(rs).Success? {
      var groups := Collect(rs[..|rs| - 1]).value;
      assert (groups + [rs[|rs| - 1].value])[..|groups|] == groups;
    }
  }

  /** The names listed for the first `n` indices, or the first failure to read a name. */
  function LatestFiles(listing: seq<string>, n: nat): Result<seq<string>, Error> {
    Gather(AllIndexNames(listing, n))
  }

  /**
   * The listing succeeds exactly when every index's names can all be read
   * (`ScanReadable` says when that is).
   */
  lemma {:induction false} LatestFilesSucceeds(listing: seq<string>, n: nat)
    ensures LatestFiles(listing, n).Success? <==> forall i :: 0 <= i < n ==> Scan(ParseAll(IndexFiles(listing, i))).Success?
  {
    var all := AllIndexNames(listing, n);
    CollectAll(all);
    assert LatestFiles(listing, n).Success? <==> Collect(all).Success?;
    if LatestFiles(listing, n).Success? {
      forall i | 0 <= i < n ensures Scan(ParseAll(IndexFiles(listing, i))).Success? {
        assert all[i].Success?;
      }
    } else {
      var i :| 0 <= i < n && all[i].Failure?;
      assert Scan(ParseAll(IndexFiles(listing, i))).Failure?;
    }
  }

  /** One more index: its names follow those of the indices before, or its failure ends the listing. */
  lemma {:induction false} LatestFilesStep(listing: seq<string>, n: nat)
    requires n > 0
    ensures LatestFiles(listing, n - 1).Failure? ==> LatestFiles(listing, n) == LatestFiles(listing, n - 1)
    ensures LatestFiles(listing, n - 1).Success? && IndexNames(listing, n - 1).Failure? ==>
              LatestFiles(listing, n) == Failure(IndexNames(listing, n - 1).error)
    ensures LatestFiles(listing, n - 1).Success? && IndexNames(listing, n - 1).Success? ==>
              LatestFiles(listing, n) == Success(LatestFiles(listing, n - 1).value + IndexNames(listing, n - 1).value)
  {
    var all := AllIndexNames(listing, n);
    assert all[..n - 1] == AllIndexNames(listing, n - 1);
    GatherStep(all);
  }

  /** Once an index fails, listing more indices fails the same way. */
  lemma {:induction false} LatestFilesStops(listing: seq<string>, m: nat, n: nat)
    requires m <= n && LatestFiles(listing, m).Failure?
    ensures LatestFiles(listing, n) == LatestFiles(listing, m)
  {
    var all := AllIndexNames(listing, n);
    assert all[..m] == AllIndexNames(listing, m);
    CollectFailureStays(all, m);
  }

  /** Whether every file name of an index can be read as an LSN. */
  predicate Readable(listing: seq<string>, index: int) {
    forall f :: f in IndexFiles(listing, index) ==> LsnOfName(f).Success?
  }

  /** The running maximum of an index's files exists exactly when all their names can be read. */
  lemma {:induction false} ScanReadable(listing: seq<string>, index: int)
    ensures Scan(ParseAll(IndexFiles(listing, index))).Success? <==> Readable(listing, index)
  {
    var files := IndexFiles(listing, index);
    var ps := ParseAll(files);
    ScanSucceeds(ps);
    if Scan(ps).Success? {
      forall f | f in files ensures LsnOfName(f).Success? {
        var k :| 0 <= k < |files| && files[k] == f;
        assert ps[k].Success?;
      }
    } else {
      var k :| 0 <= k < |ps| && ps[k].Failure?;
      assert files[k] in files;
    }
  }

  /** A running maximum over readable names never goes below view 0. */
  lemma {:induction false} ScanViewsNatural(ps: seq<Result<Lsn, Error>>)
    requires Scan(ps).Success? && ViewsNatural(ps)
    ensures forall k :: 0 <= k < |ps| ==> Scan(ps).value[k].viewId >= 0
    decreases |ps|
  {
    if ps != [] {
      var init := ps[..|ps| - 1];
      assert forall i :: 0 <= i < |init| ==> init[i] == ps[i];
      ScanViewsNatural(init);
    }
  }

  /** With every view at least 0, one snapshot is listed per file: the running maximum. */
  lemma {:induction false} ListedAll(ms: seq<Lsn>)
    requires forall k :: 0 <= k < |ms| ==> ms[k].viewId >= 0
    ensures Listed(ms) == ms
    decreases |ms|
  {
    if ms != [] {
      ListedAll(ms[..|ms| - 1]);
    }
  }

  /**
   * Each file of an index is listed under the name of the latest snapshot
   * so far, and the last name listed for an index is the snapshot file
   * `loadFromDisk` opens for it.
   */
  lemma {:induction false} ListedNamesFollowLoad(listing: seq<string>, snapshots: map<string, seq<Entry>>, index: int)
    requires Scan(ParseAll(IndexFiles(listing, index))).Success?
    ensures var ms := Scan(ParseAll(IndexFiles(listing, index))).value;
            Listed(ms) == ms && |ms| == |IndexFiles(listing, index)|
    ensures var names := NamesOf(index, Listed(Scan(ParseAll(IndexFiles(listing, index))).value));
            names != [] ==>
              (LoadIndex(listing, snapshots, index).Success? <==> names[|names| - 1] in snapshots)
              && (LoadIndex(listing, snapshots, index).Success? ==>
                    LoadIndex(listing, snapshots, index).value.Some?
                    && names[|names| - 1] == SnapshotFilename(index, LoadIndex(listing, snapshots, index).value.value.viewId,
                                                              LoadIndex(listing, snapshots, index).value.value.sequenceNo))
  {
    var ps := ParseAll(IndexFiles(listing, index));
    ParsedViewsNatural(IndexFiles(listing, index));
    ScanViewsNatural(ps);
    ListedAll(Scan(ps).value);
  }

  // ---------------------------------------------------------------------
  // Cleaning up after a snapshot

  /**
   * Whether the sweep in `cleanupSnapshot` deletes a name: one matching the
   * snapshot pattern whose LSN comes before the linked snapshot's. Reading
   * the numbers of a matching name can fail.
   */
  function Doomed(name: string, linked: Lsn): Result<bool, Error> {
    if Match(name).None? then Success(false)
    else
      match LsnOfName(name)
      case Failure(e) => Failure(e)
      case Success(l) => Success(Before(l, linked))
  }

  /** What a sweep leaves: the listing, the names it deleted and how it ended. */
  datatype Swept = Swept(remaining: seq<string>, deleted: seq<string>, outcome: Outcome<Error>)

  /** The sweep over a listing, name by name; a name that cannot be read stops it. */
  function Sweep(names: seq<string>, linked: Lsn): Swept {
    if names == [] then Swept([], [], Pass)
    else
      match Doomed(names[0], linked)
      case Failure(e) => Swept(names, [], Fail(e))
      case Success(doomed) =>
        var rest := Sweep(names[1..], linked);
        if doomed then Swept(rest.remaining, [names[0]] + rest.deleted, rest.outcome)
        else Swept([names[0]] + rest.remaining, rest.deleted, rest.outcome)
  }

  /** A sweep deletes only listed names older than the linked snapshot, and keeps only listed names. */
  lemma {:induction false} SweepDeletesOlder(names: seq<string>, linked: Lsn)
    ensures forall f :: f in Sweep(names, linked).deleted ==> f in names && Doomed(f, linked) == Success(true)
    ensures forall f :: f in Sweep(names, linked).remaining ==> f in names
  {
    if names != [] {
      SweepDeletesOlder(names[1..], linked);
      assert forall f :: f in names <==> f == names[0] || f in names[1..];
    }
  }

  /** A sweep completes exactly when every name can be read. */
  lemma {:induction false} SweepPasses(names: seq<string>, linked: Lsn)
    ensures Sweep(names, linked).outcome.Pass? <==> forall f :: f in names ==> Doomed(f, linked).Success?
  {
    if names != [] {
      assert forall f :: f in names <==> f == names[0] || f in names[1..];
      if Doomed(names[0], linked).Success? {
        assert Sweep(names, linked).outcome == Sweep(names[1..], linked).outcome;
        SweepPasses(names[1..], linked);
      }
    }
  }

  /** A completed sweep keeps exactly the names it does not delete. */
  lemma {:induction false} SweepKeeps(names: seq<string>, linked: Lsn)
    ensures Sweep(names, linked).outcome.Pass? ==>
              forall f :: f in names ==> (f in Sweep(names, linked).remaining <==> Doomed(f, linked) == Success(false))
  {
    if names != [] && Sweep(names, linked).outcome.Pass? {
      var rest := Sweep(names[1..], linked);
      assert Doomed(names[0], linked).Success? && rest.outcome.Pass?;
      SweepKeeps(names[1..], linked);
      assert forall f :: f in rest.remaining ==> f in names[1..] by {
        SweepDeletesOlder(names[1..], linked);
      }
      assert forall f :: f in names <==> f == names[0] || f in names[1..];
    }
  }

  /**
   * A sweep completes exactly when every name can be read, and then it
   * keeps exactly the names it does not delete.
   */
  lemma {:induction false} SweepCompletes(names: seq<string>, linked: Lsn)
    ensures Sweep(names, linked).outcome.Pass? <==> forall f :: f in names ==> Doomed(f, linked).Success?
    ensures Sweep(names, linked).outcome.Pass? ==>
              forall f :: f in names ==> (f in Sweep(names, linked).remaining <==> Doomed(f, linked) == Success(false))
  {
    SweepPasses(names, linked);
    SweepKeeps(names, linked);
  }

  /** A sweep fails only on a number too large for an `int`. */
  lemma {:induction false} SweepFailsOnNumber(names: seq<string>, linked: Lsn)
    ensures Sweep(names, linked).outcome == Fail(NumberFormat) || Sweep(names, linked).outcome.Pass?
  {
    if names != [] {
      SweepFailsOnNumber(names[1..], linked);
    }
  }

  /** Each name's verdict, in listing order. */
  function Verdicts(names: seq<string>, linked: Lsn): (r: seq<Result<bool, Error>>)
    ensures |r| == |names|
  {
    if names == [] then [] else [Doomed(names[0], linked)] + Verdicts(names[1..], linked)
  }

  lemma {:induction false} VerdictAt(names: seq<string>, linked: Lsn, k: int)
    requires 0 <= k < |names|
    ensures Verdicts(names, linked)[k] == Doomed(names[k], linked)
  {
    if k > 0 {
      VerdictAt(names[1..], linked, k - 1);
    }
  }

  /**
   * The sweep from position `k` on, with each name's verdict given
   * position by position in `verdicts`.
   */
  function SweepFrom(names: seq<string>, verdicts: seq<Result<bool, Error>>, k: nat): Swept
    requires |verdicts| == |names| && k <= |names|
    decreases |names| - k
  {
    if k == |names| then Swept([], [], Pass)
    else
      match verdicts[k]
      case Failure(e) => Swept(names[k..], [], Fail(e))
      case Success(doomed) =>
        var rest := SweepFrom(names, verdicts, k + 1);
        if doomed then Swept(rest.remaining, [names[k]] + rest.deleted, rest.outcome)
        else Swept([names[k]] + rest.remaining, rest.deleted, rest.outcome)
  }

  lemma {:induction false} SweepWithVerdicts(names: seq<string>, linked: Lsn, k: nat)
    requires k <= |names|
    ensures Sweep(names[k..], linked) == SweepFrom(names, Verdicts(names, linked), k)
    decreases |names| - k
  {
    if k < |names| {
      var rest := names[k..];
      assert rest[0] == names[k] && rest[1..] == names[k + 1..];
      assert Sweep(rest[1..], linked) == SweepFrom(names, Verdicts(names, linked), k + 1) by {
        SweepWithVerdicts(names, linked, k + 1);
      }
      assert Verdicts(names, linked)[k] == Doomed(rest[0], linked) by {
        VerdictAt(names, linked, k);
      }
    }
  }

  lemma {:induction false} SweepIsSweepFrom(names: seq<string>, linked: Lsn)
    ensures Sweep(names, linked) == SweepFrom(names, Verdicts(names, linked), 0)
  {
    SweepWithVerdicts(names, linked, 0);
    assert names[0..] == names;
  }

  /** A sweep that went name by name through the listing ends as `Sweep` says. */
  lemma SweepResult(names: seq<string>, linked: Lsn, files: map<string, seq<Entry>>, kept: seq<string>,
                    deleted: seq<string>, left: map<string, seq<Entry>>, o: Outcome<Error>)
    requires SweepFrom(names, Verdicts(names, linked), 0) == Swept(kept, deleted, o)
    requires left == Without(files, deleted)
    ensures kept == Sweep(names, linked).remaining && o == Sweep(names, linked).outcome
    ensures left == Without(files, Sweep(names, linked).deleted)
  {
    SweepIsSweepFrom(names, linked);
  }

  /** The sweep after its first `k` names, which kept `kept` and deleted `deleted`. */
  predicate SweptSoFar(names: seq<string>, verdicts: seq<Result<bool, Error>>, k: nat, kept: seq<string>, deleted: seq<string>)
    requires |verdicts| == |names| && k <= |names|
  {
    var rest := SweepFrom(names, verdicts, k);
    SweepFrom(names, verdicts, 0) == Swept(kept + rest.remaining, deleted + rest.deleted, rest.outcome)
  }

  lemma {:induction false} SweepAdvance(names: seq<string>, verdicts: seq<Result<bool, Error>>, k: nat,
                                        kept: seq<string>, deleted: seq<string>)
    requires |verdicts| == |names| && k < |names| && SweptSoFar(names, verdicts, k, kept, deleted)
    ensures verdicts[k] == Success(true) ==> SweptSoFar(names, verdicts, k + 1, kept, deleted + [names[k]])
    ensures verdicts[k] == Success(false) ==> SweptSoFar(names, verdicts, k + 1, kept + [names[k]], deleted)
  {
    var rest := SweepFrom(names, verdicts, k + 1);
    assert (deleted + [names[k]]) + rest.deleted == deleted + ([names[k]] + rest.deleted);
    assert (kept + [names[k]]) + rest.remaining == kept + ([names[k]] + rest.remaining);
  }

  lemma {:induction false} SweepHalts(names: seq<string>, verdicts: seq<Result<bool, Error>>, k: nat,
                                      kept: seq<string>, deleted: seq<string>)
    requires |verdicts| == |names| && k < |names| && SweptSoFar(names, verdicts, k, kept, deleted)
    requires verdicts[k].Failure?
    ensures SweepFrom(names, verdicts, 0) == Swept(kept + names[k..], deleted, Fail(verdicts[k].error))
  {
  }

  lemma {:induction false} SweepEnds(names: seq<string>, verdicts: seq<Result<bool, Error>>,
                                     kept: seq<string>, deleted: seq<string>)
    requires |verdicts| == |names| && SweptSoFar(names, verdicts, |names|, kept, deleted)
    ensures SweepFrom(names, verdicts, 0) == Swept(kept, deleted, Pass)
  {
  }

  lemma {:induction false} WithoutOneMore(files: map<string, seq<Entry>>, names: seq<string>, f: string)
    ensures Without(files, names + [f]) == Without(files, names) - {f}
  {
    assert (names + [f])[..|names|] == names;
  }

  /** A completed sweep leaves nothing for a second sweep to delete. */
  lemma {:induction false} SweepIdempotent(names: seq<string>, linked: Lsn)
    requires Sweep(names, linked).outcome.Pass?
    ensures Sweep(Sweep(names, linked).remaining, linked) == Swept(Sweep(names, linked).remaining, [], Pass)
  {
    if names != [] {
      SweepIdempotent(names[1..], linked);
      if Doomed(names[0], linked) == Success(false) {
        var rest := Sweep(names[1..], linked);
        assert ([names[0]] + rest.remaining)[1..] == rest.remaining;
      }
    }
  }

  /** The linked snapshot's own files survive the sweep. */
  lemma {:induction false} SweepSparesLinked(index: int, view: int, seqNo: int)
    requires 0 <= index && 0 <= view <= IntMax && 0 <= seqNo <= IntMax
    ensures Doomed(SnapshotFilename(index, view, seqNo), Lsn(view, seqNo)) == Success(false)
  {
    SnapshotNameRoundTrip(index, view, seqNo);
    NameIsBaseName(index, view, seqNo);
  }

  /**
   * With a sequence number beyond the `int` range, the sweep runs into the
   * file it has just linked and fails.
   */
  lemma {:induction false} SweepStopsAtLongSequence(names: seq<string>, index: int, view: int, seqNo: int)
    requires 0 <= index && 0 <= view <= IntMax && IntMax < seqNo <= LongMax
    requires SnapshotFilename(index, view, seqNo) in names
    ensures Sweep(names, Lsn(view, seqNo)).outcome == Fail(NumberFormat)
  {
    LongSequenceUnreadable(index, view, seqNo);
    NameIsBaseName(index, view, seqNo);
    SweepCompletes(names, Lsn(view, seqNo));
    SweepFailsOnNumber(names, Lsn(view, seqNo));
  }

  /** The snapshot files of a map of files, without the names given. */
  function Without(files: map<string, seq<Entry>>, names: seq<string>): (r: map<string, seq<Entry>>)
    ensures forall f :: f in r <==> f in files && f !in names
    ensures forall f :: f in r ==> r[f] == files[f]
  {
    if names == [] then files else Without(files, names[..|names| - 1]) - {names[|names| - 1]}
  }

  // ---------------------------------------------------------------------
  // The database

  class LSMDatabase {
    const name: string
    const id: int
    const numIndices: nat
    /** One tree per index; the list never changes once the database is open. */
    const trees: seq<LSMTree>
    /** `ondiskLSN`; none when a database with no index was loaded from disk. */
    var ondiskLsn: Option<Lsn>
    /** The database directory: its names in listing order and each snapshot file's entries. */
    var listing: seq<string>
    var snapshots: map<string, seq<Entry>>

    ghost predicate Valid()
      reads trees
    {
      |trees| == numIndices
      && (forall i, j :: 0 <= i < j < |trees| ==> trees[i] != trees[j])
      && forall i :: 0 <= i < |trees| ==> trees[i].Valid()
    }

    constructor Assemble(name: string, id: int, trees: seq<LSMTree>, ondiskLsn: Option<Lsn>,
                         listing: seq<string>, snapshots: map<string, seq<Entry>>)
      ensures this.name == name && this.id == id && this.numIndices == |trees| && this.trees == trees
      ensures this.ondiskLsn == ondiskLsn && this.listing == listing && this.snapshots == snapshots
    {
      this.name := name;
      this.id := id;
      this.numIndices := |trees|;
      this.trees := trees;
      this.ondiskLsn := ondiskLsn;
      this.listing := listing;
      this.snapshots := snapshots;
    }

    /**
     * One pass of `loadFromDisk`'s loop: the snapshot file an index's tree
     * is built over (none when the index has no file), and the on-disk LSN
     * that leaves.
     */
    static method PickSnapshot(listing: seq<string>, snapshots: map<string, seq<Entry>>, index: int)
      returns (r: Result<(Option<seq<Entry>>, Lsn), Error>)
      ensures r == LoadFile(listing, snapshots, index)
    {
      var latest := LatestSnapshotLsn(IndexFiles(listing, index));
      if latest.Failure? {
        return Failure(latest.error);
      }
      var maxView, maxSeq := latest.value.viewId, latest.value.sequenceNo;
      if maxView > -1 {
        var file := SnapshotFilename(index, maxView, maxSeq);
        if file !in snapshots {
          return Failure(IoError);
        }
        return Success((Some(snapshots[file]), Lsn(maxView, maxSeq)));
      } else {
        return Success((None, NoDbLsn));
      }
    }

    /** The constructor's loop for a new database: one empty tree per index. */
    static method EmptyTrees(numIndices: nat) returns (ts: seq<LSMTree>)
      ensures |ts| == numIndices && forall j, k :: 0 <= j < k < |ts| ==> ts[j] != ts[k]
      ensures forall j :: 0 <= j < |ts| ==> (fresh(ts[j]) && ts[j].Valid() && ts[j].live == map[] && ts[j].snaps == map[])
    {
      ts := [];
      for i := 0 to numIndices
        invariant |ts| == i
        invariant forall j :: 0 <= j < i ==> (fresh(ts[j]) && ts[j].Valid() && ts[j].live == map[] && ts[j].snaps == map[])
        invariant forall j, k :: 0 <= j < k < i ==> ts[j] != ts[k]
      {
        var t := new LSMTree(None);
        ts := ts + [t];
      }
    }

    /**
     * The snapshot picks of `loadFromDisk`, index by index; the first index
     * that cannot be loaded stops it.
     */
    static method PickSnapshots(listing: seq<string>, snapshots: map<string, seq<Entry>>, numIndices: nat)
      returns (r: Result<seq<(Option<seq<Entry>>, Lsn)>, Error>)
      ensures r == Collect(LoadAll(listing, snapshots, numIndices))
    {
      var picks: seq<(Option<seq<Entry>>, Lsn)> := [];
      ghost var loads := LoadAll(listing, snapshots, numIndices);
      for index := 0 to numIndices
        invariant Collect(loads[..index]) == Success(picks)
      {
        var picked := PickSnapshot(listing, snapshots, index);
        assert loads[..index + 1][..index] == loads[..index];
        if picked.Failure? {
          CollectFailureStays(loads, index + 1);
          return Failure(picked.error);
        }
        picks := picks + [picked.value];
      }
      assert loads[..numIndices] == loads;
      return Success(picks);
    }

    /** `loadFromDisk`'s trees: one over each picked snapshot file, or over nothing. */
    static method TreesOver(picks: seq<(Option<seq<Entry>>, Lsn)>) returns (ts: seq<LSMTree>)
      ensures |ts| == |picks| && forall j, k :: 0 <= j < k < |ts| ==> ts[j] != ts[k]
      ensures forall j :: 0 <= j < |ts| ==> (fresh(ts[j]) && ts[j].Valid() && ts[j].snaps == map[] && ts[j].live == BaseOf(picks[j].0))
    {
      ts := [];
      for i := 0 to |picks|
        invariant |ts| == i
        invariant forall j :: 0 <= j < i ==> (fresh(ts[j]) && ts[j].Valid() && ts[j].snaps == map[] && ts[j].live == BaseOf(picks[j].0))
        invariant forall j, k :: 0 <= j < k < i ==> ts[j] != ts[k]
      {
        var t := new LSMTree(picks[i].0);
        ts := ts + [t];
      }
    }

    /**
     * The constructor: a negative index count fails when the list of trees
     * is created, before anything else; otherwise a new database gets one
     * empty tree per index and the on-disk LSN (0,0), and one read from disk
     * loads each index's latest snapshot.
     */
    static method Open(name: string, id: int, numIndices: int, readFromDisk: bool,
                       listing: seq<string>, snapshots: map<string, seq<Entry>>)
      returns (r: Result<LSMDatabase, Error>)
      ensures numIndices < 0 ==> r == Failure(IllegalArgument)
      ensures r.Success? ==> fresh(r.value) && r.value.Valid() && r.value.numIndices == numIndices
                             && r.value.name == name && r.value.id == id
                             && r.value.listing == listing && r.value.snapshots == snapshots
                             && forall i :: 0 <= i < numIndices ==> fresh(r.value.trees[i]) && r.value.trees[i].snaps == map[]
      ensures 0 <= numIndices && !readFromDisk ==>
                r.Success? && r.value.ondiskLsn == Some(NoDbLsn)
                && forall i :: 0 <= i < numIndices ==> r.value.trees[i].live == map[]
      ensures 0 <= numIndices && readFromDisk ==>
                (r.Success? <==> forall i :: 0 <= i < numIndices ==> LoadFile(listing, snapshots, i).Success?)
      ensures readFromDisk && r.Success? ==>
                (forall i :: 0 <= i < numIndices ==> r.value.trees[i].live == BaseOf(LoadFile(listing, snapshots, i).value.0))
                && r.value.ondiskLsn == (if numIndices == 0 then None else Some(LoadFile(listing, snapshots, numIndices - 1).value.1))
      ensures 0 <= numIndices && readFromDisk && r.Failure? ==>
                exists i :: 0 <= i < numIndices && LoadFile(listing, snapshots, i) == Failure(r.error)
    {
      if numIndices < 0 {
        return Failure(IllegalArgument);
      }
      if !readFromDisk {
        var ts := EmptyTrees(numIndices);
        var db := new LSMDatabase.Assemble(name, id, ts, Some(NoDbLsn), listing, snapshots);
        return Success(db);
      }
      r := LoadFromDisk(name, id, numIndices, listing, snapshots);
    }

    /**
     * `loadFromDisk`: each index's tree is built over the latest snapshot
     * file of that index, and the on-disk LSN is the one the last index
     * picked.
     */
    static method LoadFromDisk(name: string, id: int, numIndices: nat,
                               listing: seq<string>, snapshots: map<string, seq<Entry>>)
      returns (r: Result<LSMDatabase, Error>)
      ensures r.Success? ==> fresh(r.value) && r.value.Valid() && r.value.numIndices == numIndices
                             && r.value.name == name && r.value.id == id
                             && r.value.listing == listing && r.value.snapshots == snapshots
                             && forall i :: 0 <= i < numIndices ==> fresh(r.value.trees[i]) && r.value.trees[i].snaps == map[]
      ensures r.Success? <==> forall i :: 0 <= i < numIndices ==> LoadFile(listing, snapshots, i).Success?
      ensures r.Success? ==>
                (forall i :: 0 <= i < numIndices ==> r.value.trees[i].live == BaseOf(LoadFile(listing, snapshots, i).value.0))
                && r.value.ondiskLsn == (if numIndices == 0 then None else Some(LoadFile(listing, snapshots, numIndices - 1).value.1))
      ensures r.Failure? ==>
                exists i :: 0 <= i < numIndices && LoadFile(listing, snapshots, i) == Failure(r.error)
    {
      var picked := PickSnapshots(listing, snapshots, numIndices);
      PicksAreLoads(listing, snapshots, numIndices);
      if picked.Failure? {
        return Failure(picked.error);
      }
      var db := Build(name, id, picked.value, listing, snapshots);
      return Success(db);
    }

    /** A database over one tree per picked snapshot; the on-disk LSN is the last pick's. */
    static method Build(name: string, id: int, picks: seq<(Option<seq<Entry>>, Lsn)>,
                        listing: seq<string>, snapshots: map<string, seq<Entry>>)
      returns (db: LSMDatabase)
      ensures fresh(db) && db.Valid() && db.numIndices == |picks|
      ensures db.name == name && db.id == id && db.listing == listing && db.snapshots == snapshots
      ensures forall i :: 0 <= i < |picks| ==>
                fresh(db.trees[i]) && db.trees[i].snaps == map[] && db.trees[i].live == BaseOf(picks[i].0)
      ensures db.ondiskLsn == (if |picks| == 0 then None else Some(picks[|picks| - 1].1))
    {
      var ts := TreesOver(picks);
      var ondisk := if |picks| == 0 then None else Some(picks[|picks| - 1].1);
      db := new LSMDatabase.Assemble(name, id, ts, ondisk, listing, snapshots);
    }

    /** `getIndex`: the tree of an index; the list refuses an id outside it. */
    function GetIndex(indexId: int): (r: Result<LSMTree, Error>)
      ensures r.Success? <==> 0 <= indexId < |trees|
      ensures r.Success? ==> r.value == trees[indexId]
      ensures r.Failure? ==> r.error == IndexOutOfBounds
    {
      if 0 <= indexId < |trees| then Success(trees[indexId]) else Failure(IndexOutOfBounds)
    }

    /** `getIndexCount`: the number of trees, which is the number of indices. */
    function GetIndexCount(): (r: nat)
      requires Valid()
      reads trees
      ensures r == numIndices
    {
      |trees|
    }

    /**
     * `getLastestSnapshotFiles`: for each index and each of its files, in
     * listing order, the name of the latest snapshot of that index so far.
     * A name that cannot be read fails the whole listing.
     */
    method LatestSnapshotFiles() returns (r: Result<seq<string>, Error>)
      ensures r == LatestFiles(listing, numIndices)
    {
      var result: seq<string> := [];
      for index := 0 to numIndices
        invariant LatestFiles(listing, index) == Success(result)
      {
        var extended := AppendIndexFiles(index, result);
        LatestFilesStep(listing, index + 1);
        if extended.Failure? {
          LatestFilesStops(listing, index + 1, numIndices);
          return extended;
        }
        result := extended.value;
      }
      return Success(result);
    }

    /**
     * One pass of the outer loop of `getLastestSnapshotFiles`: the names of
     * one index's files are read in turn and, after each, the newest
     * snapshot so far is appended to `result`.
     */
    method AppendIndexFiles(index: int, result: seq<string>) returns (r: Result<seq<string>, Error>)
      ensures r == match IndexNames(listing, index)
                   case Failure(e) => Failure(e)
                   case Success(ns) => Success(result + ns)
    {
      var files := IndexFiles(listing, index);
      ghost var ps := ParseAll(files);
      var names := result;
      var maxView, maxSeq := -1, -1;
      for k := 0 to |files|
        invariant Scan(ps[..k]).Success? && Latest(Scan(ps[..k]).value) == Lsn(maxView, maxSeq)
        invariant names == result + NamesOf(index, Listed(Scan(ps[..k]).value))
      {
        var parsed := LsnOfName(files[k]);
        assert ps[k] == parsed;
        if parsed.Failure? {
          ScanStepFails(ps, k);
          return Failure(parsed.error);
        }
        ScanStep(ps, k);
        var view, seqNo := parsed.value.viewId, parsed.value.sequenceNo;
        if view > maxView {
          maxView := view;
          maxSeq := seqNo;
        } else if view == maxView {
          if seqNo > maxSeq {
            maxSeq := seqNo;
          }
        }
        ListedStep(index, ps, k, result, names);
        if maxView > -1 {
          names := names + [SnapshotFilename(index, maxView, maxSeq)];
        }
      }
      assert ps[..|files|] == ps;
      return Success(names);
    }

    /** `createSnapshot` on one index's tree; the other trees are left alone. */
    method SnapshotIndex(k: int) returns (snapId: int)
      requires Valid() && 0 <= k < |trees|
      modifies trees[k]
      ensures Valid()
      ensures snapId !in old(trees[k].snaps) && trees[k].snaps == old(trees[k].snaps)[snapId := old(trees[k].live)]
      ensures trees[k].live == old(trees[k].live) && Extends(old(trees[k].snaps), trees[k].snaps)
      ensures Lives(trees) == old(Lives(trees))
      ensures Snaps(trees) == old(Snaps(trees))[k := old(trees[k].snaps)[snapId := old(trees[k].live)]]
    {
      ghost var snaps := Snaps(trees);
      ghost var lives := Lives(trees);
      snapId := trees[k].CreateSnapshot();
      forall i | 0 <= i < |trees|
        ensures Snaps(trees)[i] == snaps[k := snaps[k][snapId := lives[k]]][i] && Lives(trees)[i] == lives[i]
      {
        if i != k {
          assert trees[i] != trees[k];
        }
      }
    }

    /**
     * The first `k` trees have each had one snapshot taken, with ids `ids`,
     * holding the contents `lives0` they keep; the other trees are as they were.
     */
    ghost predicate TreesSnapshotted(k: int, lives0: seq<map<Key, Value>>,
                                     snaps0: seq<map<int, map<Key, Value>>>, ids: seq<int>)
      reads this, trees
    {
      Valid() && 0 <= k <= |trees| && |ids| == k && |snaps0| == |trees|
      && Lives(trees) == lives0
      && (forall i :: 0 <= i < k ==> ids[i] !in snaps0[i] && Snaps(trees)[i] == snaps0[i][ids[i] := lives0[i]])
      && (forall i :: k <= i < |trees| ==> Snaps(trees)[i] == snaps0[i])
    }

    /** One turn of `createSnapshot`'s loop: tree `k` gets its snapshot. */
    method SnapshotNext(k: int, ghost lives0: seq<map<Key, Value>>,
                        ghost snaps0: seq<map<int, map<Key, Value>>>, ids: seq<int>)
      returns (ids': seq<int>)
      requires TreesSnapshotted(k, lives0, snaps0, ids) && k < |trees|
      modifies trees[k]
      ensures TreesSnapshotted(k + 1, lives0, snaps0, ids')
    {
      ghost var snaps := Snaps(trees);
      var snapId := SnapshotIndex(k);
      ids' := ids + [snapId];
      assert Snaps(trees) == snaps[k := snaps0[k][snapId := lives0[k]]];
    }

    /**
     * `createSnapshot()`: one snapshot per tree, ids in index order; each
     * snapshot holds its tree's contents at this moment.
     */
    method CreateSnapshot() returns (ids: seq<int>)
      requires Valid()
      modifies trees
      ensures Valid() && |ids| == |trees| && Lives(trees) == old(Lives(trees))
      ensures forall i :: 0 <= i < |trees| ==>
                ids[i] !in old(Snaps(trees))[i] && Snaps(trees)[i] == old(Snaps(trees))[i][ids[i] := old(Lives(trees))[i]]
    {
      ghost var lives0, snaps0 := Lives(trees), Snaps(trees);
      ids := [];
      for index := 0 to |trees|
        invariant TreesSnapshotted(index, lives0, snaps0, ids)
      {
        ids := SnapshotNext(index, lives0, snaps0, ids);
      }
    }

    /**
     * The first `k` listed indices have had their snapshots taken, with ids
     * `taken`; every tree keeps its contents `lives0`.
     */
    ghost predicate SnapshotsTaken(indices: seq<int>, k: int, lives0: seq<map<Key, Value>>,
                                   snaps0: seq<map<int, map<Key, Value>>>, taken: seq<int>)
      reads this, trees
    {
      Valid() && Lives(trees) == lives0 && Taken(indices, k, lives0, snaps0, Snaps(trees), taken)
    }

    /** One pass of `createSnapshot(indices)`: the snapshot of the `k`-th listed index. */
    method SnapshotStep(indices: seq<int>, k: int, ghost lives0: seq<map<Key, Value>>,
                        ghost snaps0: seq<map<int, map<Key, Value>>>, ghost taken: seq<int>)
      returns (snapId: int)
      requires SnapshotsTaken(indices, k, lives0, snaps0, taken) && k < |indices| && 0 <= indices[k] < |trees|
      modifies trees[indices[k]]
      ensures SnapshotsTaken(indices, k + 1, lives0, snaps0, taken + [snapId])
    {
      var K := indices[k];
      ghost var snaps := Snaps(trees);
      snapId := SnapshotIndex(K);
      TakenStep(indices, k, lives0, snaps0, snaps, taken, snapId);
    }

    /**
     * The loop of `createSnapshot(indices)`: snapshots of the listed indices
     * in turn, up to the first one out of range, where `trees.get` throws.
     */
    method SnapshotsUpTo(indices: seq<int>) returns (taken: seq<int>, index: int)
      requires Valid()
      modifies trees
      ensures Valid() && Lives(trees) == old(Lives(trees))
      ensures 0 <= index <= |indices| && (index < |indices| ==> !(0 <= indices[index] < |trees|))
      ensures Taken(indices, index, old(Lives(trees)), old(Snaps(trees)), Snaps(trees), taken)
    {
      ghost var lives0, snaps0 := Lives(trees), Snaps(trees);
      taken := [];
      index := 0;
      while index < |indices| && 0 <= indices[index] < |trees|
        invariant SnapshotsTaken(indices, index, lives0, snaps0, taken)
        decreases |indices| - index
      {
        var snapId := SnapshotStep(indices, index, lives0, snaps0, taken);
        taken := taken + [snapId];
        index := index + 1;
      }
    }

    /**
     * `createSnapshot(indices)`: a snapshot of each listed index, ids aligned
     * with the list. The first listed index out of range, at `stop`, fails
     * there, after the snapshots before it were taken: each tree gains one
     * snapshot of its current contents per time it is listed before `stop`,
     * and no other. The contents of every tree stay as they were.
     */
    method CreateSnapshotOf(indices: seq<int>) returns (r: Result<seq<int>, Error>, ghost stop: int)
      requires Valid()
      modifies trees
      ensures Valid()
      ensures 0 <= stop <= |indices| && forall p :: 0 <= p < stop ==> 0 <= indices[p] < |trees|
      ensures stop < |indices| ==> !(0 <= indices[stop] < |trees|)
      ensures r.Success? <==> stop == |indices|
      ensures r.Failure? ==> r.error == IndexOutOfBounds
      ensures Lives(trees) == old(Lives(trees))
      ensures Grown(indices, stop, old(Lives(trees)), old(Snaps(trees)), Snaps(trees))
      ensures r.Success? ==> |r.value| == |indices|
      ensures r.Success? ==> Taken(indices, |indices|, old(Lives(trees)), old(Snaps(trees)), Snaps(trees), r.value)
    {
      var taken, index := SnapshotsUpTo(indices);
      stop := index;
      if index < |indices| {
        r := Failure(IndexOutOfBounds);
      } else {
        r := Success(taken);
      }
    }

    /**
     * One sweep of `cleanupSnapshot` over the directory, in listing order:
     * each snapshot file older than `linked` is deleted; a name whose numbers
     * cannot be read stops the sweep.
     */
    static method SweepListing(files: seq<string>, snapshots: map<string, seq<Entry>>, linked: Lsn)
      returns (kept: seq<string>, left: map<string, seq<Entry>>, o: Outcome<Error>)
      ensures kept == Sweep(files, linked).remaining
      ensures left == Without(snapshots, Sweep(files, linked).deleted)
      ensures o == Sweep(files, linked).outcome
    {
      ghost var verdicts := Verdicts(files, linked);
      ghost var deleted;
      kept, left, deleted, o := SweepLoop(files, snapshots, linked, verdicts);
      SweepResult(files, linked, snapshots, kept, deleted, left, o);
    }

    /** The loop of the sweep, against the verdicts on the names of the listing. */
    static method SweepLoop(files: seq<string>, snapshots: map<string, seq<Entry>>, linked: Lsn,
                            ghost verdicts: seq<Result<bool, Error>>)
      returns (kept: seq<string>, left: map<string, seq<Entry>>, ghost deleted: seq<string>, o: Outcome<Error>)
      requires verdicts == Verdicts(files, linked)
      ensures SweepFrom(files, verdicts, 0) == Swept(kept, deleted, o) && left == Without(snapshots, deleted)
    {
      kept, left, deleted := [], snapshots, [];
      for k := 0 to |files|
        invariant SweptSoFar(files, verdicts, k, kept, deleted)
        invariant left == Without(snapshots, deleted)
      {
        var halt;
        kept, left, deleted, halt := SweepTurn(files, snapshots, linked, k, verdicts, kept, left, deleted);
        if halt.Some? {
          return kept, left, deleted, Fail(halt.value);
        }
      }
      SweepEnds(files, verdicts, kept, deleted);
      o := Pass;
    }

    /**
     * One turn of the sweep, on the `k`-th name: it is deleted or kept, or,
     * when its numbers cannot be read, the sweep stops there and keeps the
     * rest of the listing.
     */
    static method SweepTurn(files: seq<string>, snapshots: map<string, seq<Entry>>, linked: Lsn, k: int,
                            ghost verdicts: seq<Result<bool, Error>>, kept: seq<string>,
                            left: map<string, seq<Entry>>, ghost deleted: seq<string>)
      returns (kept': seq<string>, left': map<string, seq<Entry>>, ghost deleted': seq<string>, halt: Option<Error>)
      requires verdicts == Verdicts(files, linked) && 0 <= k < |files|
      requires SweptSoFar(files, verdicts, k, kept, deleted) && left == Without(snapshots, deleted)
      ensures halt.None? ==> SweptSoFar(files, verdicts, k + 1, kept', deleted') && left' == Without(snapshots, deleted')
      ensures halt.Some? ==>
                SweepFrom(files, verdicts, 0) == Swept(kept', deleted', Fail(halt.value)) && left' == Without(snapshots, deleted')
    {
      var f := files[k];
      var doomed := Judge(files, linked, k, verdicts);
      if doomed.Failure? {
        SweepHalts(files, verdicts, k, kept, deleted);
        return kept + files[k..], left, deleted, Some(doomed.error);
      }
      SweepAdvance(files, verdicts, k, kept, deleted);
      halt := None;
      if doomed.value {
        WithoutOneMore(snapshots, deleted, f);
        kept', left', deleted' := kept, left - {f}, deleted + [f];
      } else {
        kept', left', deleted' := kept + [f], left, deleted;
      }
    }

    /** The verdict of the sweep on the `k`-th name of the listing. */
    static method Judge(files: seq<string>, linked: Lsn, k: int, ghost verdicts: seq<Result<bool, Error>>)
      returns (doomed: Result<bool, Error>)
      requires verdicts == Verdicts(files, linked) && 0 <= k < |files|
      ensures doomed == verdicts[k]
    {
      VerdictAt(files, linked, k);
      doomed := Doomed(files[k], linked);
    }

    /** A tree linked to the entries of a snapshot file, over the writes it had buffered. */
    static ghost predicate LinkedTo(t: LSMTree, files: map<string, seq<Entry>>, file: string, current: Writes)
      reads t
    {
      file in files && t.snaps == map[] && t.live == Apply(MapOf(files[file]), current)
    }

    method SweepOlder(linked: Lsn) returns (o: Outcome<Error>)
      modifies this
      ensures listing == Sweep(old(listing), linked).remaining
      ensures snapshots == Without(old(snapshots), Sweep(old(listing), linked).deleted)
      ensures o == Sweep(old(listing), linked).outcome
      ensures ondiskLsn == old(ondiskLsn)
    {
      listing, snapshots, o := SweepListing(listing, snapshots, linked);
    }

    /** `linkToSnapshot` on one index's tree; the other trees are left alone. */
    method LinkIndex(k: int, snapshot: seq<Entry>)
      requires Valid() && 0 <= k < |trees|
      modifies trees[k]
      ensures Valid() && trees[k].snaps == map[]
      ensures trees[k].live == Apply(MapOf(snapshot), old(trees[k].current))
    {
      trees[k].LinkToSnapshot(snapshot);
    }

    /**
     * One pass of `cleanupSnapshot`'s loop: the index's tree is linked to
     * its snapshot file of the given LSN, which becomes the on-disk LSN, and
     * the directory is swept of older snapshot files.
     */
    method CleanupIndex(index: int, viewId: int, sequenceNo: int) returns (o: Outcome<Error>)
      requires Valid() && 0 <= index < |trees|
      modifies this, trees[index]
      ensures Valid()
      ensures o.Fail? ==> o.error in {IoError, NumberFormat}
      ensures forall f :: f in snapshots ==> f in old(snapshots) && snapshots[f] == old(snapshots)[f]
      ensures o.Pass? ==>
                SnapshotFilename(index, viewId, sequenceNo) in old(snapshots) && trees[index].snaps == map[]
                && trees[index].live == Apply(MapOf(old(snapshots)[SnapshotFilename(index, viewId, sequenceNo)]), old(trees[index].current))
      ensures o.Pass? ==>
                ondiskLsn == Some(Lsn(viewId, sequenceNo)) && Sweep(old(listing), Lsn(viewId, sequenceNo)).outcome.Pass?
                && listing == Sweep(old(listing), Lsn(viewId, sequenceNo)).remaining
                && snapshots == Without(old(snapshots), Sweep(old(listing), Lsn(viewId, sequenceNo)).deleted)
    {
      var file := SnapshotFilename(index, viewId, sequenceNo);
      if file !in snapshots {
        return Fail(IoError);
      }
      LinkIndex(index, snapshots[file]);
      ondiskLsn := Some(Lsn(viewId, sequenceNo));
      SweepFailsOnNumber(listing, Lsn(viewId, sequenceNo));
      o := SweepOlder(Lsn(viewId, sequenceNo));
    }

    /**
     * The state after `cleanupSnapshot`'s loop has handled indices `0..k`:
     * those trees are linked to their snapshot files of the given LSN over
     * the writes they had buffered (`currents`), the others are untouched,
     * and from the first pass on the on-disk LSN is that LSN and the
     * directory has been swept once.
     */
    ghost predicate CleanedUpTo(k: int, viewId: int, sequenceNo: int, snapshots0: map<string, seq<Entry>>,
                                listing0: seq<string>, ondisk0: Option<Lsn>, currents: seq<Writes>)
      reads this, trees
    {
      Valid() && 0 <= k <= |trees| && |currents| == |trees|
      && (forall f :: f in snapshots ==> f in snapshots0 && snapshots[f] == snapshots0[f])
      && (forall i :: 0 <= i < k ==>
            LinkedTo(trees[i], snapshots0, SnapshotFilename(i, viewId, sequenceNo), currents[i]))
      && (forall i :: k <= i < |trees| ==> trees[i].current == currents[i])
      && (k == 0 ==> ondiskLsn == ondisk0 && listing == listing0 && snapshots == snapshots0)
      && (k > 0 ==>
            ondiskLsn == Some(Lsn(viewId, sequenceNo)) && Sweep(listing0, Lsn(viewId, sequenceNo)).outcome.Pass?
            && listing == Sweep(listing0, Lsn(viewId, sequenceNo)).remaining
            && snapshots == Without(snapshots0, Sweep(listing0, Lsn(viewId, sequenceNo)).deleted))
    }

    /** One pass of `cleanupSnapshot`'s loop, carried from index `index` to the next. */
    method CleanupStep(index: int, viewId: int, sequenceNo: int, ghost snapshots0: map<string, seq<Entry>>,
                       ghost listing0: seq<string>, ghost ondisk0: Option<Lsn>, ghost currents: seq<Writes>)
      returns (o: Outcome<Error>)
      requires CleanedUpTo(index, viewId, sequenceNo, snapshots0, listing0, ondisk0, currents)
      requires index < |trees|
      modifies this, trees[index]
      ensures Valid()
      ensures o.Fail? ==> o.error in {IoError, NumberFormat}
      ensures forall f :: f in snapshots ==> f in snapshots0 && snapshots[f] == snapshots0[f]
      ensures o.Pass? ==> CleanedUpTo(index + 1, viewId, sequenceNo, snapshots0, listing0, ondisk0, currents)
    {
      ghost var linked := Lsn(viewId, sequenceNo);
      ghost var file := SnapshotFilename(index, viewId, sequenceNo);
      ghost var before := snapshots;
      o := CleanupIndex(index, viewId, sequenceNo);
      if o.Fail? {
        return;
      }
      assert LinkedTo(trees[index], snapshots0, file, currents[index]) by {
        assert before[file] == snapshots0[file];
      }
      assert listing == Sweep(listing0, linked).remaining && snapshots == Without(snapshots0, Sweep(listing0, linked).deleted) by {
        if index > 0 {
          SweepIdempotent(listing0, linked);
          assert Without(before, []) == before;
        }
      }
    }

    /**
     * `cleanupSnapshot(viewId, sequenceNo)`: index by index, the tree is
     * linked to its snapshot file of that LSN, the on-disk LSN becomes that
     * LSN and the directory is swept of older snapshot files. Only the first
     * sweep deletes anything.
     */
    method CleanupSnapshot(viewId: int, sequenceNo: int) returns (o: Outcome<Error>)
      requires Valid()
      modifies this, trees
      ensures Valid()
      ensures o.Fail? ==> o.error in {IoError, NumberFormat}
      ensures forall f :: f in snapshots ==> f in old(snapshots) && snapshots[f] == old(snapshots)[f]
      ensures o.Pass? ==>
                forall i :: 0 <= i < |trees| ==>
                  SnapshotFilename(i, viewId, sequenceNo) in old(snapshots) && trees[i].snaps == map[]
                  && trees[i].live == Apply(MapOf(old(snapshots)[SnapshotFilename(i, viewId, sequenceNo)]), old(trees[i].current))
      ensures o.Pass? && |trees| > 0 ==>
                ondiskLsn == Some(Lsn(viewId, sequenceNo))
                && listing == Sweep(old(listing), Lsn(viewId, sequenceNo)).remaining
                && snapshots == Without(old(snapshots), Sweep(old(listing), Lsn(viewId, sequenceNo)).deleted)
      ensures |trees| == 0 ==> o.Pass? && ondiskLsn == old(ondiskLsn) && listing == old(listing) && snapshots == old(snapshots)
    {
      ghost var currents := seq(|trees|, i requires 0 <= i < |trees| reads trees => trees[i].current);
      for index := 0 to |trees|
        invariant CleanedUpTo(index, viewId, sequenceNo, old(snapshots), old(listing), old(ondiskLsn), currents)
      {
        o := CleanupStep(index, viewId, sequenceNo, old(snapshots), old(listing), old(ondiskLsn), currents);
        if o.Fail? {
          return;
        }
      }
      return Pass;
    }
  }
}
