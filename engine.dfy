/**
 * The engine, `BabuDB`: the LSN the databases agree on at startup, the
 * replay of the write-ahead log into the databases' indices, the LSN the
 * logger continues from, `reset`, the replay-only `insert`,
 * `hiddenLookup`, and the worker that serves a database.
 */
module Engine {
  import opened Wrappers
  import opened Keys
  import opened Lsns
  import opened Decimal
  import opened LogNames
  import opened Overlays
  import opened Groups
  import opened Databases
  import opened Workers

  // ---------------------------------------------------------------------
  // The LSN the databases agree on

  /**
   * The startup loop over the databases' on-disk LSNs. Until a database
   * reports one, the reference is whatever the next database reports;
   * from then on a database reporting another LSN, or none, is the
   * "databases have different LSNs" failure.
   */
  function CommonOndiskLsn(ls: seq<Option<Lsn>>): Result<Option<Lsn>, Error>
    decreases |ls|
  {
    if ls == [] then Success(None)
    else
      match CommonOndiskLsn(ls[..|ls| - 1])
      case Failure(e) => Failure(e)
      case Success(None) => Success(ls[|ls| - 1])
      case Success(Some(l)) => if ls[|ls| - 1] == Some(l) then Success(Some(l)) else Failure(DifferentLsns)
  }

  /** Once a database reports an LSN, every later database reports the same one. */
  predicate Agree(ls: seq<Option<Lsn>>) {
    forall i, j :: 0 <= i < j < |ls| && ls[i].Some? ==> ls[j] == ls[i]
  }

  /**
   * The loop succeeds exactly when the databases agree, and then yields the
   * LSN every database that reports one reports, or none when none does.
   */
  lemma {:induction false} CommonOndiskLsnAgrees(ls: seq<Option<Lsn>>)
    ensures CommonOndiskLsn(ls).Success? <==> Agree(ls)
    ensures CommonOndiskLsn(ls).Failure? ==> CommonOndiskLsn(ls).error == DifferentLsns
    ensures CommonOndiskLsn(ls).Success? ==>
              forall i :: 0 <= i < |ls| && ls[i].Some? ==> ls[i] == CommonOndiskLsn(ls).value
    ensures CommonOndiskLsn(ls).Success? && CommonOndiskLsn(ls).value.Some? ==> CommonOndiskLsn(ls).value in ls
    decreases |ls|
  {
    if ls != [] {
      var init := ls[..|ls| - 1];
      var last := ls[|ls| - 1];
      CommonOndiskLsnAgrees(init);
      assert forall i :: 0 <= i < |init| ==> init[i] == ls[i];
      var r := CommonOndiskLsn(init);
      if r.Success? && r.value.Some? && last != r.value {
        var i :| 0 <= i < |init| && init[i] == r.value;
        assert ls[i].Some? && ls[|ls| - 1] != ls[i];
      }
    }
  }

  /** A failure of the loop is not undone by the databases after it. */
  lemma {:induction false} CommonOndiskLsnStops(ls: seq<Option<Lsn>>, m: nat)
    requires m <= |ls| && CommonOndiskLsn(ls[..m]).Failure?
    ensures CommonOndiskLsn(ls) == CommonOndiskLsn(ls[..m])
    decreases |ls| - m
  {
    if m < |ls| {
      assert ls[..m + 1][..m] == ls[..m];
      CommonOndiskLsnStops(ls, m + 1);
    } else {
      assert ls[..m] == ls;
    }
  }

  /** The LSN after the common on-disk one; `(0,0)` when no database reports one. */
  function DiskNextLsn(o: Option<Lsn>): Lsn {
    match o
    case None => Lsn(0, 0)
    case Some(l) => Next(l)
  }

  /** `nextLSN`: the replay result, unless the LSN after the on-disk one comes later. */
  function ChooseLsn(dbLsn: Lsn, replayed: Lsn): (r: Lsn)
    ensures r == dbLsn || r == replayed
    ensures !Before(r, dbLsn) && !Before(r, replayed)
  {
    if CompareTo(dbLsn, replayed) > 0 then dbLsn else replayed
  }

  /** The LSN chosen at startup comes after everything the databases hold on disk. */
  lemma {:induction false} ChosenAfterOndisk(ondisk: Lsn, replayed: Lsn)
    ensures Before(ondisk, ChooseLsn(DiskNextLsn(Some(ondisk)), replayed))
  {
    var d := DiskNextLsn(Some(ondisk));
    BeforeStrictTotalOrder(ondisk, d, ChooseLsn(d, replayed));
  }

  // ---------------------------------------------------------------------
  // The ordered log list

  /** The log directory's listing through the filter that keeps names ending in `.dbl`. */
  function LogNamesIn(listing: seq<string>): (r: seq<string>)
    ensures forall n :: n in r <==> n in listing && EndsWith(n, LogSuffix)
    decreases |listing|
  {
    if listing == [] then []
    else
      var rest := LogNamesIn(listing[..|listing| - 1]);
      var n := listing[|listing| - 1];
      assert listing == listing[..|listing| - 1] + [n];
      if EndsWith(n, LogSuffix) then rest + [n] else rest
  }

  /** Each name's LSN as `Integer.valueOf` reads it, or why it cannot be read. */
  function ParsedLogs(names: seq<string>): (r: seq<Result<Lsn, Error>>)
    ensures |r| == |names| && forall i :: 0 <= i < |names| ==> r[i] == LogLsnOfName(names[i])
  {
    seq(|names|, i requires 0 <= i < |names| => LogLsnOfName(names[i]))
  }

  /**
   * The `TreeSet` of LSNs, filled in order. A name whose LSN cannot be read
   * throws out of the loop, and the replay reports that as an internal
   * error.
   */
  function SortedSet(ps: seq<Result<Lsn, Error>>): (r: Result<seq<Lsn>, Error>)
    ensures r.Success? ==> Ascending(r.value)
    ensures r.Failure? ==> r.error == InternalError
    decreases |ps|
  {
    if ps == [] then Success([])
    else
      match SortedSet(ps[..|ps| - 1])
      case Failure(e) => Failure(e)
      case Success(s) =>
        match ps[|ps| - 1]
        case Failure(_) => Failure(InternalError)
        case Success(l) => Success(AddSorted(s, l))
  }

  /** The ordered list of log LSNs that replay walks. */
  function OrderedLogs(names: seq<string>): Result<seq<Lsn>, Error> {
    SortedSet(ParsedLogs(names))
  }

  /** The set is built exactly when every LSN was read, and then holds each of them once, ascending. */
  lemma {:induction false} SortedSetExact(ps: seq<Result<Lsn, Error>>)
    ensures SortedSet(ps).Success? <==> forall i :: 0 <= i < |ps| ==> ps[i].Success?
    ensures SortedSet(ps).Success? ==> forall l :: l in SortedSet(ps).value <==> Success(l) in ps
    decreases |ps|
  {
    if ps != [] {
      var init := ps[..|ps| - 1];
      SortedSetExact(init);
      assert ps == init + [ps[|ps| - 1]];
      if !SortedSet(ps).Success? && SortedSet(init).Failure? {
        var i :| 0 <= i < |init| && init[i].Failure?;
        assert ps[i].Failure?;
      }
    }
  }

  /** Once an LSN cannot be read, the names after it change nothing. */
  lemma {:induction false} SortedSetStops(ps: seq<Result<Lsn, Error>>, m: nat)
    requires m <= |ps| && SortedSet(ps[..m]).Failure?
    ensures SortedSet(ps) == SortedSet(ps[..m])
    decreases |ps| - m
  {
    if m < |ps| {
      assert ps[..m + 1][..m] == ps[..m];
      SortedSetStops(ps, m + 1);
    } else {
      assert ps[..m] == ps;
    }
  }

  /**
   * The list is built exactly when every name holds an LSN, and then holds
   * each of those LSNs once, in ascending order.
   */
  lemma {:induction false} OrderedLogsExact(names: seq<string>)
    ensures OrderedLogs(names).Success? <==> forall i :: 0 <= i < |names| ==> LogLsnOfName(names[i]).Success?
    ensures OrderedLogs(names).Success? ==>
              forall l :: l in OrderedLogs(names).value <==> exists i :: 0 <= i < |names| && LogLsnOfName(names[i]) == Success(l)
  {
    var ps := ParsedLogs(names);
    SortedSetExact(ps);
    forall l ensures Success(l) in ps <==> exists i :: 0 <= i < |names| && LogLsnOfName(names[i]) == Success(l) {
      if Success(l) in ps {
        var i :| 0 <= i < |ps| && ps[i] == Success(l);
        assert LogLsnOfName(names[i]) == Success(l);
      }
    }
  }

  /** The replay order does not depend on the order the directory lists its files in. */
  lemma {:induction false} OrderedLogsOrderFree(a: seq<string>, b: seq<string>)
    requires forall n :: n in a <==> n in b
    ensures OrderedLogs(a) == OrderedLogs(b)
  {
    OrderedLogsExact(a);
    OrderedLogsExact(b);
    assert forall i :: 0 <= i < |a| ==> a[i] in b;
    assert forall i :: 0 <= i < |b| ==> b[i] in a;
    if OrderedLogs(a).Success? && OrderedLogs(b).Success? {
      forall l ensures l in OrderedLogs(a).value <==> l in OrderedLogs(b).value {
        if l in OrderedLogs(a).value {
          var i :| 0 <= i < |a| && LogLsnOfName(a[i]) == Success(l);
          assert a[i] in b;
        }
        if l in OrderedLogs(b).value {
          var i :| 0 <= i < |b| && LogLsnOfName(b[i]) == Success(l);
          assert b[i] in a;
        }
      }
      AscendingUnique(OrderedLogs(a).value, OrderedLogs(b).value);
    }
  }

  // ---------------------------------------------------------------------
  // Replay, on the contents of the databases' indices

  /** The position of the first element equal to `x`: the registry's lookup by id or by name. */
  function FirstIndex<T(==)>(s: seq<T>, x: T): (r: Option<nat>)
    ensures r.Some? ==> r.value < |s| && s[r.value] == x && forall j :: 0 <= j < r.value ==> s[j] != x
    ensures r.None? ==> x !in s
    decreases |s|
  {
    if s == [] then None
    else if s[0] == x then Some(0)
    else
      match FirstIndex(s[1..], x)
      case None => None
      case Some(k) => Some(k + 1)
  }

  /** The contents of every index of every database, database by database. */
  type Contents = seq<seq<map<Key, Value>>>

  /**
   * `insert`, used only by replay: the database is looked up by id and
   * dereferenced before anything else, so a group for a database that is
   * not there fails with `NullPointerException`; otherwise its records go
   * to the database's indices in order, and a record naming a missing
   * index stops the group with `IndexOutOfBoundsException`.
   */
  function InsertGroupInto(world: Contents, ids: seq<int>, g: InsertGroup): (r: (Contents, Outcome<Error>))
    requires |world| == |ids|
    ensures |r.0| == |world|
  {
    match FirstIndex(ids, g.dbId)
    case None => (world, Fail(NullPointer))
    case Some(k) =>
      var applied := ApplyRecords(world[k], g.records);
      (world[k := applied.0], if applied.1 then Pass else Fail(IndexOutOfBounds))
  }

  /**
   * What a replayed group does: it fails and changes nothing for a
   * database that is not there; otherwise only that database's indices
   * change, the group goes through exactly when all its records name
   * existing indices, and then each key holds the value the group last
   * wrote to it, or what it held before.
   */
  lemma {:induction false} InsertGroupEffect(world: Contents, ids: seq<int>, g: InsertGroup)
    requires |world| == |ids|
    ensures g.dbId !in ids ==> InsertGroupInto(world, ids, g) == (world, Fail(NullPointer))
    ensures g.dbId in ids ==>
              var k := FirstIndex(ids, g.dbId).value;
              var r := InsertGroupInto(world, ids, g);
              (forall j :: 0 <= j < |world| && j != k ==> r.0[j] == world[j])
              && (r.1.Pass? <==> AllInRange(g.records, |world[k]|))
              && (r.1.Fail? ==> r.1.error == IndexOutOfBounds)
              && (r.1.Pass? ==>
                    forall i, key :: 0 <= i < |world[k]| ==>
                      Get(r.0[k][i], key)
                      == match LastWrite(WritesTo(g.records, i), key) case None => Get(world[k][i], key) case Some(v) => v)
  {
    if g.dbId in ids {
      var k := FirstIndex(ids, g.dbId).value;
      ApplyRecordsReplays(world[k], g.records);
      if AllInRange(g.records, |world[k]|) {
        forall i, key | 0 <= i < |world[k]|
          ensures Get(InsertGroupInto(world, ids, g).0[k][i], key)
                  == match LastWrite(WritesTo(g.records, i), key) case None => Get(world[k][i], key) case Some(v) => v
        {
          LastRecordWins(world[k], g.records, i, key);
        }
      }
    }
  }

  /**
   * A log entry's payload: empty, an insert group (type 0), a snapshot
   * configuration for a database (type 1; none when it cannot be
   * deserialised), or another type, which the switch skips.
   */
  datatype Payload =
    | NoBytes
    | InsertPayload(group: InsertGroup)
    | SnapshotPayload(dbId: Option<int>)
    | OtherPayload(payloadType: int)

  datatype LogEntry = LogEntry(viewId: int, sequenceNo: int, payload: Payload)

  /** A log file: the entries that can be read, and whether the file ends after them rather than in a damaged entry. */
  datatype LogFile = LogFile(entries: seq<LogEntry>, intact: bool)

  /**
   * Where replay stands: the contents of the indices, the databases whose
   * snapshot configuration it handed to the snapshot manager, the LSN after
   * the last entry of the last file that had entries, and whether it has
   * failed.
   */
  datatype Progress = Progress(world: Contents, restored: seq<int>, next: Option<Lsn>, outcome: Outcome<Error>)

  /** One log entry; after a failure nothing happens any more. */
  function ReplayEntry(p: Progress, ids: seq<int>, e: LogEntry): (r: Progress)
    requires |p.world| == |ids|
    ensures |r.world| == |ids| && r.next == p.next
  {
    if p.outcome.Fail? then p
    else
      match e.payload
      case NoBytes => p
      case InsertPayload(g) =>
        var (world, o) := InsertGroupInto(p.world, ids, g);
        p.(world := world, outcome := if o.Pass? then Pass else Fail(InternalError))
      case SnapshotPayload(dbId) =>
        if dbId.None? || FirstIndex(ids, dbId.value).None? then p.(outcome := Fail(InternalError))
        else p.(restored := p.restored + [dbId.value])
      case OtherPayload(_) => p
  }

  function ReplayEntries(p: Progress, ids: seq<int>, es: seq<LogEntry>): (r: Progress)
    requires |p.world| == |ids|
    ensures |r.world| == |ids| && r.next == p.next
    decreases |es|
  {
    if es == [] then p else ReplayEntry(ReplayEntries(p, ids, es[..|es| - 1]), ids, es[|es| - 1])
  }

  /** The LSN after the last of the entries, or `d` when there is none. */
  function NextAfter(es: seq<LogEntry>, d: Option<Lsn>): Option<Lsn> {
    if es == [] then d else Some(Next(Lsn(es[|es| - 1].viewId, es[|es| - 1].sequenceNo)))
  }

  /**
   * One log file: a file that cannot be opened, or that ends in a damaged
   * entry, is an I/O error; otherwise its entries are replayed and, when it
   * had any, the next LSN becomes the one after its last entry.
   */
  function ReplayFile(p: Progress, ids: seq<int>, dir: map<Lsn, LogFile>, l: Lsn): (r: Progress)
    requires |p.world| == |ids|
    ensures |r.world| == |ids|
  {
    if p.outcome.Fail? then p
    else if l !in dir then p.(outcome := Fail(IoError))
    else
      var f := dir[l];
      var q := ReplayEntries(p, ids, f.entries);
      if q.outcome.Fail? then q
      else if !f.intact then q.(outcome := Fail(IoError))
      else q.(next := NextAfter(f.entries, q.next))
  }

  function ReplayFiles(p: Progress, ids: seq<int>, dir: map<Lsn, LogFile>, ordered: seq<Lsn>): (r: Progress)
    requires |p.world| == |ids|
    ensures |r.world| == |ids|
    decreases |ordered|
  {
    if ordered == [] then p
    else ReplayFile(ReplayFiles(p, ids, dir, ordered[..|ordered| - 1]), ids, dir, ordered[|ordered| - 1])
  }

  /**
   * `replayLogs`: with no database, or no readable log directory, nothing
   * is replayed; otherwise the files named `<view>.<seq>.dbl` are replayed
   * in ascending LSN order.
   */
  function ReplayLog(world: Contents, ids: seq<int>, listing: Option<seq<string>>, dir: map<Lsn, LogFile>): (r: Progress)
    requires |world| == |ids|
    ensures |r.world| == |ids|
  {
    var start := Progress(world, [], None, Pass);
    if ids == [] || listing.None? then start
    else
      match OrderedLogs(LogNamesIn(listing.value))
      case Failure(e) => start.(outcome := Fail(e))
      case Success(ordered) => ReplayFiles(start, ids, dir, ordered)
  }

  /** The LSN `replayLogs` returns, `(1,1)` when no entry was replayed, or its failure. */
  function ReplayResult(p: Progress): Result<Lsn, Error> {
    match p.outcome
    case Fail(e) => Failure(e)
    case Pass => Success(if p.next.Some? then p.next.value else Lsn(1, 1))
  }

  /** After a failure, the entries that follow change nothing. */
  lemma {:induction false} ReplayEntriesStops(p: Progress, ids: seq<int>, es: seq<LogEntry>, m: nat)
    requires |p.world| == |ids| && m <= |es| && ReplayEntries(p, ids, es[..m]).outcome.Fail?
    ensures ReplayEntries(p, ids, es) == ReplayEntries(p, ids, es[..m])
    decreases |es| - m
  {
    if m < |es| {
      assert es[..m + 1][..m] == es[..m];
      ReplayEntriesStops(p, ids, es, m + 1);
    } else {
      assert es[..m] == es;
    }
  }

  /** After a failure, the files that follow change nothing. */
  lemma {:induction false} ReplayFilesStops(p: Progress, ids: seq<int>, dir: map<Lsn, LogFile>, ordered: seq<Lsn>, m: nat)
    requires |p.world| == |ids| && m <= |ordered| && ReplayFiles(p, ids, dir, ordered[..m]).outcome.Fail?
    ensures ReplayFiles(p, ids, dir, ordered) == ReplayFiles(p, ids, dir, ordered[..m])
    decreases |ordered| - m
  {
    if m < |ordered| {
      assert ordered[..m + 1][..m] == ordered[..m];
      ReplayFilesStops(p, ids, dir, ordered, m + 1);
    } else {
      assert ordered[..m] == ordered;
    }
  }

  /** Replaying two runs of entries one after the other is replaying them joined. */
  lemma {:induction false} ReplayEntriesConcat(p: Progress, ids: seq<int>, a: seq<LogEntry>, b: seq<LogEntry>)
    requires |p.world| == |ids|
    ensures ReplayEntries(p, ids, a + b) == ReplayEntries(ReplayEntries(p, ids, a), ids, b)
    decreases |b|
  {
    if b == [] {
      assert a + b == a;
    } else {
      assert (a + b)[..|a + b| - 1] == a + b[..|b| - 1];
      ReplayEntriesConcat(p, ids, a, b[..|b| - 1]);
    }
  }

  /** The entries of the ordered files, one file after the other. */
  function EntriesOf(dir: map<Lsn, LogFile>, ordered: seq<Lsn>): seq<LogEntry>
    decreases |ordered|
  {
    if ordered == [] then []
    else
      var l := ordered[|ordered| - 1];
      EntriesOf(dir, ordered[..|ordered| - 1]) + (if l in dir then dir[l].entries else [])
  }

  /**
   * A replay that goes through found every file, undamaged, and is the
   * replay of all their entries in order; its next LSN is the one after the
   * very last entry, or the one it started with when there was none.
   */
  lemma {:induction false} ReplayFilesFlat(p: Progress, ids: seq<int>, dir: map<Lsn, LogFile>, ordered: seq<Lsn>)
    requires |p.world| == |ids| && p.outcome.Pass?
    ensures var r := ReplayFiles(p, ids, dir, ordered);
            var es := EntriesOf(dir, ordered);
            r.outcome.Pass? ==>
              (forall l :: l in ordered ==> l in dir && dir[l].intact)
              && r == ReplayEntries(p, ids, es).(next := NextAfter(es, p.next))
    decreases |ordered|
  {
    if ordered != [] {
      var init := ordered[..|ordered| - 1];
      var l := ordered[|ordered| - 1];
      var q := ReplayFiles(p, ids, dir, init);
      var r := ReplayFiles(p, ids, dir, ordered);
      if r.outcome.Pass? {
        assert r == ReplayFile(q, ids, dir, l);
        assert q.outcome.Pass? && l in dir && dir[l].intact;
        var f := dir[l];
        var es0 := EntriesOf(dir, init);
        var es := EntriesOf(dir, ordered);
        var n0 := NextAfter(es0, p.next);
        assert (forall l' :: l' in init ==> l' in dir && dir[l'].intact)
               && q == ReplayEntries(p, ids, es0).(next := n0) by {
          ReplayFilesFlat(p, ids, dir, init);
        }
        assert es == es0 + f.entries;
        assert ReplayEntries(q, ids, f.entries) == ReplayEntries(p, ids, es).(next := n0) by {
          ReplayEntriesConcat(p, ids, es0, f.entries);
          ReplayEntriesNextFree(ReplayEntries(p, ids, es0), n0, ids, f.entries);
        }
        assert NextAfter(f.entries, n0) == NextAfter(es, p.next) by {
          if f.entries == [] {
            assert es == es0;
          }
        }
        assert forall l' :: l' in ordered ==> l' in init || l' == l by {
          assert ordered == init + [l];
        }
      }
    }
  }

  /** Entries do not read or change the next LSN carried along. */
  lemma {:induction false} ReplayEntriesNextFree(p: Progress, next: Option<Lsn>, ids: seq<int>, es: seq<LogEntry>)
    requires |p.world| == |ids|
    ensures ReplayEntries(p.(next := next), ids, es) == ReplayEntries(p, ids, es).(next := next)
    decreases |es|
  {
    if es != [] {
      ReplayEntriesNextFree(p, next, ids, es[..|es| - 1]);
    }
  }

  // ---------------------------------------------------------------------
  // The databases as the engine holds them

  /** Every tree of every database. */
  function Forest(dbs: seq<LSMDatabase>): (r: seq<LSMTree>)
    ensures forall i, a :: 0 <= i < |dbs| && 0 <= a < |dbs[i].trees| ==> dbs[i].trees[a] in r
    decreases |dbs|
  {
    if dbs == [] then [] else dbs[0].trees + Forest(dbs[1..])
  }

  /** The registry's ids and names, in order. */
  function Ids(dbs: seq<LSMDatabase>): (r: seq<int>)
    ensures |r| == |dbs| && forall i :: 0 <= i < |dbs| ==> r[i] == dbs[i].id
  {
    seq(|dbs|, i requires 0 <= i < |dbs| => dbs[i].id)
  }

  function Names(dbs: seq<LSMDatabase>): (r: seq<string>)
    ensures |r| == |dbs| && forall i :: 0 <= i < |dbs| ==> r[i] == dbs[i].name
  {
    seq(|dbs|, i requires 0 <= i < |dbs| => dbs[i].name)
  }

  /** No two databases share a tree. */
  predicate Apart(dbs: seq<LSMDatabase>) {
    forall i, j, a, b :: 0 <= i < |dbs| && 0 <= j < |dbs| && i != j && 0 <= a < |dbs[i].trees| && 0 <= b < |dbs[j].trees|
      ==> dbs[i].trees[a] != dbs[j].trees[b]
  }

  /** Every database is valid and no two share a tree. */
  ghost predicate AllReady(dbs: seq<LSMDatabase>)
    reads Forest(dbs)
  {
    Apart(dbs) && forall i :: 0 <= i < |dbs| ==> dbs[i].Valid()
  }

  /** The live contents of every index of every database. */
  ghost function World(dbs: seq<LSMDatabase>): (r: Contents)
    reads Forest(dbs)
    ensures |r| == |dbs| && forall i :: 0 <= i < |dbs| ==> r[i] == Lives(dbs[i].trees)
  {
    seq(|dbs|, i reads Forest(dbs) => if 0 <= i < |dbs| then Lives(dbs[i].trees) else [])
  }

  /** The on-disk LSN each database reports. */
  function OndiskLsns(dbs: seq<LSMDatabase>): (r: seq<Option<Lsn>>)
    reads dbs
    ensures |r| == |dbs| && forall i :: 0 <= i < |dbs| ==> r[i] == dbs[i].ondiskLsn
  {
    seq(|dbs|, i reads dbs => if 0 <= i < |dbs| then dbs[i].ondiskLsn else None)
  }

  /** The group's records applied to the trees of database `k`; no other database changes. */
  method ApplyToDatabase(dbs: seq<LSMDatabase>, k: int, recs: seq<InsertRecord>) returns (ok: bool)
    requires AllReady(dbs) && 0 <= k < |dbs|
    modifies dbs[k].trees
    ensures AllReady(dbs)
    ensures World(dbs) == old(World(dbs))[k := ApplyRecords(old(World(dbs))[k], recs).0]
    ensures ok == ApplyRecords(old(World(dbs))[k], recs).1
  {
    ghost var before := World(dbs);
    ok := ApplyGroup(dbs[k].trees, recs);
    forall j | 0 <= j < |dbs| && j != k
      ensures Lives(dbs[j].trees) == before[j] && dbs[j].Valid()
    {
      forall a | 0 <= a < |dbs[j].trees| ensures unchanged(dbs[j].trees[a]) {
        assert forall b :: 0 <= b < |dbs[k].trees| ==> dbs[k].trees[b] != dbs[j].trees[a];
      }
    }
  }

  /**
   * `insert`: the group reaches the indices of its database, record by
   * record; a group for a database that is not there fails before any
   * index changes.
   */
  method Insert(dbs: seq<LSMDatabase>, g: InsertGroup) returns (o: Outcome<Error>)
    requires AllReady(dbs)
    modifies Forest(dbs)
    ensures AllReady(dbs)
    ensures (World(dbs), o) == InsertGroupInto(old(World(dbs)), Ids(dbs), g)
  {
    var k := FirstIndex(Ids(dbs), g.dbId);
    if k.None? {
      return Fail(NullPointer);
    }
    var ok := ApplyToDatabase(dbs, k.value, g.records);
    o := if ok then Pass else Fail(IndexOutOfBounds);
  }

  // ---------------------------------------------------------------------
  // Replay on the databases

  /**
   * One entry of the replay loop: an insert group goes to `insert`, a
   * snapshot configuration to the snapshot manager for the database it
   * names; either failing ends the replay.
   */
  method ReplayEntryInto(dbs: seq<LSMDatabase>, e: LogEntry, restored: seq<int>, ghost next: Option<Lsn>)
    returns (restored': seq<int>, o: Outcome<Error>)
    requires AllReady(dbs)
    modifies Forest(dbs)
    ensures AllReady(dbs)
    ensures ReplayEntry(Progress(old(World(dbs)), restored, next, Pass), Ids(dbs), e) == Progress(World(dbs), restored', next, o)
  {
    restored' := restored;
    o := Pass;
    match e.payload
    case NoBytes =>
    case InsertPayload(g) =>
      var inserted := Insert(dbs, g);
      if inserted.Fail? {
        o := Fail(InternalError);
      }
    case SnapshotPayload(dbId) =>
      if dbId.None? || FirstIndex(Ids(dbs), dbId.value).None? {
        o := Fail(InternalError);
      } else {
        restored' := restored + [dbId.value];
      }
    case OtherPayload(_) =>
  }

  /** One log file: its entries while it has more, then the LSN after the last one. */
  method ReplayFileInto(dbs: seq<LSMDatabase>, dir: map<Lsn, LogFile>, l: Lsn, restored: seq<int>, next: Option<Lsn>)
    returns (restored': seq<int>, next': Option<Lsn>, o: Outcome<Error>)
    requires AllReady(dbs)
    modifies Forest(dbs)
    ensures AllReady(dbs)
    ensures ReplayFile(Progress(old(World(dbs)), restored, next, Pass), Ids(dbs), dir, l) == Progress(World(dbs), restored', next', o)
  {
    ghost var start := Progress(World(dbs), restored, next, Pass);
    if l !in dir {
      return restored, next, Fail(IoError);
    }
    var f := dir[l];
    restored' := restored;
    var k := 0;
    while k < |f.entries|
      invariant 0 <= k <= |f.entries| && AllReady(dbs)
      invariant ReplayEntries(start, Ids(dbs), f.entries[..k]) == Progress(World(dbs), restored', next, Pass)
    {
      assert f.entries[..k + 1][..k] == f.entries[..k];
      var entryOutcome;
      restored', entryOutcome := ReplayEntryInto(dbs, f.entries[k], restored', next);
      if entryOutcome.Fail? {
        ReplayEntriesStops(start, Ids(dbs), f.entries, k + 1);
        return restored', next, entryOutcome;
      }
      k := k + 1;
    }
    assert f.entries[..k] == f.entries;
    if !f.intact {
      return restored', next, Fail(IoError);
    }
    if |f.entries| > 0 {
      var last := f.entries[|f.entries| - 1];
      next' := Some(Lsn(last.viewId, last.sequenceNo + 1));
    } else {
      next' := next;
    }
    o := Pass;
  }

  /** The loop that fills the `TreeSet` with the LSNs the log names hold. */
  method OrderLogs(names: seq<string>) returns (r: Result<seq<Lsn>, Error>)
    ensures r == OrderedLogs(names)
  {
    ghost var ps := ParsedLogs(names);
    var ordered: seq<Lsn> := [];
    for k := 0 to |names|
      invariant SortedSet(ps[..k]) == Success(ordered)
    {
      assert ps[..k + 1][..k] == ps[..k];
      var parsed := LogLsnOfName(names[k]);
      if parsed.Failure? {
        SortedSetStops(ps, k + 1);
        return Failure(InternalError);
      }
      ordered := AddSorted(ordered, parsed.value);
    }
    assert ps[..|names|] == ps;
    return Success(ordered);
  }

  /** `replayLogs` on the databases: the files in LSN order, each entry applied as it is read. */
  method ReplayLogs(dbs: seq<LSMDatabase>, listing: Option<seq<string>>, dir: map<Lsn, LogFile>)
    returns (r: Result<Lsn, Error>, restored: seq<int>)
    requires AllReady(dbs)
    modifies Forest(dbs)
    ensures AllReady(dbs)
    ensures var p := ReplayLog(old(World(dbs)), Ids(dbs), listing, dir);
            World(dbs) == p.world && restored == p.restored && r == ReplayResult(p)
  {
    ghost var p := ReplayLog(World(dbs), Ids(dbs), listing, dir);
    restored := [];
    if |dbs| == 0 || listing.None? {
      return Success(Lsn(1, 1)), [];
    }
    var ordered := OrderLogs(LogNamesIn(listing.value));
    if ordered.Failure? {
      assert p.outcome == Fail(InternalError);
      return Failure(ordered.error), [];
    }
    assert World(dbs) == old(World(dbs));
    assert p == ReplayFiles(Progress(World(dbs), [], None, Pass), Ids(dbs), dir, ordered.value);
    var next, o;
    restored, next, o := ReplayOrdered(dbs, dir, ordered.value);
    r := if o.Fail? then Failure(o.error) else if next.Some? then Success(next.value) else Success(Lsn(1, 1));
  }

  /** The loop over the ordered log files; a failing file ends it. */
  method ReplayOrdered(dbs: seq<LSMDatabase>, dir: map<Lsn, LogFile>, ordered: seq<Lsn>)
    returns (restored: seq<int>, next: Option<Lsn>, o: Outcome<Error>)
    requires AllReady(dbs)
    modifies Forest(dbs)
    ensures AllReady(dbs)
    ensures ReplayFiles(Progress(old(World(dbs)), [], None, Pass), Ids(dbs), dir, ordered) == Progress(World(dbs), restored, next, o)
  {
    ghost var start := Progress(World(dbs), [], None, Pass);
    restored, next := [], None;
    for k := 0 to |ordered|
      invariant AllReady(dbs)
      invariant ReplayFiles(start, Ids(dbs), dir, ordered[..k]) == Progress(World(dbs), restored, next, Pass)
    {
      assert ordered[..k + 1][..k] == ordered[..k];
      restored, next, o := ReplayFileInto(dbs, dir, ordered[k], restored, next);
      if o.Fail? {
        ReplayFilesStops(start, Ids(dbs), dir, ordered, k + 1);
        return;
      }
    }
    assert ordered[..|ordered|] == ordered;
    o := Pass;
  }

  // ---------------------------------------------------------------------
  // Startup and reset

  /** The startup loop over the databases: the on-disk LSN they agree on. */
  method DetermineDbLsn(dbs: seq<LSMDatabase>) returns (r: Result<Option<Lsn>, Error>)
    ensures r == CommonOndiskLsn(OndiskLsns(dbs))
  {
    ghost var ls := OndiskLsns(dbs);
    var dbLsn: Option<Lsn> := None;
    for k := 0 to |dbs|
      invariant CommonOndiskLsn(ls[..k]) == Success(dbLsn)
    {
      assert ls[..k + 1][..k] == ls[..k];
      var ondisk := dbs[k].ondiskLsn;
      if dbLsn.None? {
        dbLsn := ondisk;
      } else if ondisk != dbLsn {
        CommonOndiskLsnStops(ls, k + 1);
        return Failure(DifferentLsns);
      }
    }
    assert ls[..|dbs|] == ls;
    return Success(dbLsn);
  }

  /**
   * The LSN the next operation receives, as startup and `reset` settle it:
   * the databases must agree, the replay must go through, and the later of
   * the replay result and the LSN after the on-disk one wins.
   */
  function StartLsn(ondisk: seq<Option<Lsn>>, p: Progress): Result<Lsn, Error> {
    match CommonOndiskLsn(ondisk)
    case Failure(e) => Failure(e)
    case Success(o) =>
      match ReplayResult(p)
      case Failure(e) => Failure(e)
      case Success(replayed) => Success(ChooseLsn(DiskNextLsn(o), replayed))
  }

  /**
   * Startup succeeds exactly when the databases agree and the replay goes
   * through; the LSN it settles on comes after every on-disk LSN and is
   * never before the replay result.
   */
  lemma {:induction false} StartLsnAfterEverything(ondisk: seq<Option<Lsn>>, p: Progress)
    ensures StartLsn(ondisk, p).Success? <==> Agree(ondisk) && p.outcome.Pass?
    ensures StartLsn(ondisk, p).Success? ==>
              (forall i :: 0 <= i < |ondisk| && ondisk[i].Some? ==> Before(ondisk[i].value, StartLsn(ondisk, p).value))
              && !Before(StartLsn(ondisk, p).value, ReplayResult(p).value)
  {
    CommonOndiskLsnAgrees(ondisk);
    var c := CommonOndiskLsn(ondisk);
    if c.Success? && c.value.Some? && p.outcome.Pass? {
      ChosenAfterOndisk(c.value.value, ReplayResult(p).value);
    }
  }

  /** The part startup and `reset` share: the common on-disk LSN, then the replay, then the choice. */
  method Recover(dbs: seq<LSMDatabase>, listing: Option<seq<string>>, dir: map<Lsn, LogFile>)
    returns (r: Result<Lsn, Error>, restored: seq<int>)
    requires AllReady(dbs)
    modifies Forest(dbs)
    ensures AllReady(dbs)
    ensures var p := ReplayLog(old(World(dbs)), Ids(dbs), listing, dir);
            r == StartLsn(old(OndiskLsns(dbs)), p)
            && (CommonOndiskLsn(old(OndiskLsns(dbs))).Success? ==> World(dbs) == p.world && restored == p.restored)
            && (CommonOndiskLsn(old(OndiskLsns(dbs))).Failure? ==> World(dbs) == old(World(dbs)) && restored == [])
  {
    ghost var ondisk := OndiskLsns(dbs);
    ghost var p := ReplayLog(World(dbs), Ids(dbs), listing, dir);
    var common := DetermineDbLsn(dbs);
    assert World(dbs) == old(World(dbs));
    if common.Failure? {
      return Failure(common.error), [];
    }
    var dbLsn := DiskNextLsn(common.value);
    var replayed;
    replayed, restored := ReplayLogs(dbs, listing, dir);
    assert replayed == ReplayResult(p) && World(dbs) == p.world && restored == p.restored;
    assert OndiskLsns(dbs) == ondisk;
    if replayed.Failure? {
      return Failure(replayed.error), restored;
    }
    r := Success(ChooseLsn(dbLsn, replayed.value));
  }

  /** Dafny's remainder is the one remainder in `[0, n)` of a division by `n`. */
  lemma {:induction false} EuclidUnique(a: int, n: int, q: int, c: int)
    requires n > 0 && 0 <= c < n && a == n * q + c
    ensures a % n == c
  {
    assert n * (a / n - q) == c - a % n by {
      assert a == n * (a / n) + a % n;
    }
    MulBound(n, a / n - q);
  }

  lemma MulBound(n: int, k: int)
    requires n > 0 && -n < n * k < n
    ensures k == 0
  {
  }

  /**
   * Java's `%`: the remainder of truncating division, which takes the sign
   * of the dividend; it is Dafny's remainder or that minus `n`.
   */
  function JavaRem(a: int, n: int): (r: int)
    requires n > 0
    ensures -n < r < n && (a > 0 ==> r >= 0) && (a < 0 ==> r <= 0)
    ensures r == a % n || r == a % n - n
  {
    if a >= 0 then a % n
    else
      var x := -a;
      var m := x % n;
      assert x == n * (x / n) + m;
      if m == 0 then
        EuclidUnique(a, n, -(x / n), 0);
        -m
      else
        assert a == n * (-(x / n) - 1) + (n - m);
        EuclidUnique(a, n, -(x / n) - 1, n - m);
        -m
  }

  /**
   * `getWorker`'s index, `dbId % worker.length`: without workers the
   * remainder divides by zero, and a negative id that is not a multiple of
   * the count indexes before the array.
   */
  function WorkerSlot(dbId: int, count: nat): (r: Result<nat, Error>)
    ensures r.Success? <==> count > 0 && (dbId >= 0 || dbId % count == 0)
    ensures r.Success? ==> r.value == dbId % count
    ensures r.Failure? ==> r.error == if count == 0 then Arithmetic else IndexOutOfBounds
  {
    if count == 0 then Failure(Arithmetic)
    else
      var s := JavaRem(dbId, count);
      if s < 0 then Failure(IndexOutOfBounds) else Success(s)
  }

  /** Freshly started workers with empty queues and no log entries. */
  ghost predicate Idle(ws: seq<LSMDBWorker>, pseudoSync: bool, maxQ: int)
    reads ws
  {
    forall i :: 0 <= i < |ws| ==>
      ws[i].Valid() && ws[i].pseudoSync == pseudoSync && ws[i].maxQ == maxQ
      && ws[i].requests == [] && ws[i].unsynced == map[] && ws[i].appended == 0 && ws[i].notices == []
  }

  /** The loop that creates one worker per thread. */
  method SpawnWorkers(n: nat, pseudoSync: bool, maxQ: int) returns (ws: seq<LSMDBWorker>)
    ensures |ws| == n && Idle(ws, pseudoSync, maxQ)
    ensures forall i :: 0 <= i < |ws| ==> fresh(ws[i])
  {
    ws := [];
    for i := 0 to n
      invariant |ws| == i && Idle(ws, pseudoSync, maxQ)
      invariant forall j :: 0 <= j < |ws| ==> fresh(ws[j])
    {
      var w := new LSMDBWorker(pseudoSync, maxQ);
      ws := ws + [w];
    }
  }

  /**
   * What a restart leaves behind, given the contents and on-disk LSNs
   * before it: the LSN `StartLsn` settles on and, when it settles, the
   * contents and snapshot list that log replay produced.
   */
  predicate Restarted(before: Contents, ondisk: seq<Option<Lsn>>, ids: seq<int>, listing: Option<seq<string>>,
                      dir: map<Lsn, LogFile>, r: Result<Lsn, Error>, after: Contents, restored: seq<int>)
  {
    |before| == |ids| &&
    var p := ReplayLog(before, ids, listing, dir);
    r == StartLsn(ondisk, p) && (r.Success? ==> after == p.world && restored == p.restored)
  }

  /**
   * What startup and `reset` share: settle the LSN and, when that
   * succeeds, start one worker per thread.
   */
  method Relaunch(dbs: seq<LSMDatabase>, listing: Option<seq<string>>, dir: map<Lsn, LogFile>,
                  n: nat, pseudoSync: bool, maxQ: int)
    returns (r: Result<Lsn, Error>, restored: seq<int>, ws: seq<LSMDBWorker>)
    requires AllReady(dbs)
    modifies Forest(dbs)
    ensures AllReady(dbs)
    ensures Restarted(old(World(dbs)), old(OndiskLsns(dbs)), Ids(dbs), listing, dir, r, World(dbs), restored)
    ensures r.Failure? ==> ws == []
    ensures r.Success? ==> |ws| == n && Idle(ws, pseudoSync, maxQ) && (forall i :: 0 <= i < n ==> fresh(ws[i]))
  {
    ws := [];
    r, restored := Recover(dbs, listing, dir);
    if r.Success? {
      ws := SpawnWorkers(n, pseudoSync, maxQ);
    }
  }

  class BabuDB {
    /** The configuration's `pseudoSyncWait`, `maxQueueLength` and `numThreads`. */
    const pseudoSyncWait: int
    const maxQueueLength: int
    const numThreads: nat
    var databases: seq<LSMDatabase>
    var workers: seq<LSMDBWorker>
    /** The LSN replay settled on. */
    var nextLsn: Lsn
    /** The view and sequence number the disk logger was started with. */
    var loggerLsn: Lsn
    /** The databases whose snapshot configurations the last replay handed to the snapshot manager. */
    var restored: seq<int>

    constructor Running(pseudoSyncWait: int, maxQueueLength: int, numThreads: nat, databases: seq<LSMDatabase>,
                        workers: seq<LSMDBWorker>, nextLsn: Lsn, loggerLsn: Lsn, restored: seq<int>)
      ensures this.pseudoSyncWait == pseudoSyncWait && this.maxQueueLength == maxQueueLength && this.numThreads == numThreads
      ensures this.databases == databases && this.workers == workers
      ensures this.nextLsn == nextLsn && this.loggerLsn == loggerLsn && this.restored == restored
    {
      this.pseudoSyncWait := pseudoSyncWait;
      this.maxQueueLength := maxQueueLength;
      this.numThreads := numThreads;
      this.databases := databases;
      this.workers := workers;
      this.nextLsn := nextLsn;
      this.loggerLsn := loggerLsn;
      this.restored := restored;
    }

    /**
     * The constructor: settle the LSN, start the logger at it and one
     * worker per thread, in pseudo-sync mode when `pseudoSyncWait` is
     * positive.
     */
    static method Start(pseudoSyncWait: int, maxQueueLength: int, numThreads: nat, dbs: seq<LSMDatabase>,
                        listing: Option<seq<string>>, dir: map<Lsn, LogFile>) returns (r: Result<BabuDB, Error>)
      requires AllReady(dbs)
      modifies Forest(dbs)
      ensures AllReady(dbs)
      ensures var p := ReplayLog(old(World(dbs)), Ids(dbs), listing, dir);
              var lsn := StartLsn(old(OndiskLsns(dbs)), p);
              (r.Success? <==> lsn.Success?) && (r.Failure? ==> r.error == lsn.error)
              && (r.Success? ==>
                    fresh(r.value) && r.value.databases == dbs && World(dbs) == p.world && r.value.restored == p.restored
                    && r.value.nextLsn == lsn.value && r.value.loggerLsn == lsn.value
                    && |r.value.workers| == numThreads && Idle(r.value.workers, pseudoSyncWait > 0, maxQueueLength)
                    && (forall i :: 0 <= i < numThreads ==> fresh(r.value.workers[i])))
    {
      var lsn, restored, ws := Relaunch(dbs, listing, dir, numThreads, pseudoSyncWait > 0, maxQueueLength);
      if lsn.Failure? {
        return Failure(lsn.error);
      }
      var b := new BabuDB.Running(pseudoSyncWait, maxQueueLength, numThreads, dbs, ws, lsn.value, lsn.value, restored);
      return Success(b);
    }

    /**
     * `reset`: the workers and the logger are stopped, the databases are
     * loaded anew (`dbs`), and the LSN is settled again; the new logger
     * starts one sequence number after it. The settled LSN is returned.
     */
    method Reset(dbs: seq<LSMDatabase>, listing: Option<seq<string>>, dir: map<Lsn, LogFile>) returns (r: Result<Lsn, Error>)
      requires AllReady(dbs)
      modifies this, Forest(dbs)
      ensures AllReady(dbs) && databases == dbs
      ensures Restarted(old(World(dbs)), old(OndiskLsns(dbs)), Ids(dbs), listing, dir, r, World(dbs), restored)
      ensures r.Failure? ==> workers == []
      ensures r.Success? ==>
                nextLsn == r.value && loggerLsn == Lsn(r.value.viewId, r.value.sequenceNo + 1)
                && |workers| == numThreads && Idle(workers, pseudoSyncWait > 0, maxQueueLength)
                && (forall i :: 0 <= i < numThreads ==> fresh(workers[i]))
    {
      var lsn, replayedFor, ws := Relaunch(dbs, listing, dir, numThreads, pseudoSyncWait > 0, maxQueueLength);
      ghost var world := World(dbs);
      Install(dbs, ws, lsn, replayedFor);
      assert World(dbs) == world;
      return lsn;
    }

    /** The fields `reset` sets once the LSN is settled (or has failed to settle). */
    method Install(dbs: seq<LSMDatabase>, ws: seq<LSMDBWorker>, lsn: Result<Lsn, Error>, replayedFor: seq<int>)
      modifies this
      ensures databases == dbs && workers == ws
      ensures lsn.Success? ==>
                nextLsn == lsn.value && restored == replayedFor && loggerLsn == Lsn(lsn.value.viewId, lsn.value.sequenceNo + 1)
    {
      databases := dbs;
      workers := ws;
      if lsn.Success? {
        nextLsn := lsn.value;
        restored := replayedFor;
        loggerLsn := Lsn(lsn.value.viewId, lsn.value.sequenceNo + 1);
      }
    }

    /**
     * `hiddenLookup`: `NO_SUCH_DB` for a database that is not there,
     * `NO_SUCH_INDEX` for an index outside it, otherwise what the index
     * holds under the key.
     */
    function HiddenLookup(dbName: string, indexId: int, key: Key): (r: Result<Option<Value>, Error>)
      requires AllReady(databases)
      reads this, Forest(databases)
      ensures r == Failure(NoSuchDb) <==> dbName !in Names(databases)
      ensures dbName in Names(databases) ==>
                var k := FirstIndex(Names(databases), dbName).value;
                (r == Failure(NoSuchIndex) <==> !(0 <= indexId < databases[k].numIndices))
                && (r.Success? ==> r.value == Get(World(databases)[k][indexId], key))
      ensures dbName in Names(databases) && 0 <= indexId < databases[FirstIndex(Names(databases), dbName).value].numIndices ==>
                r.Success?
    {
      match FirstIndex(Names(databases), dbName)
      case None => Failure(NoSuchDb)
      case Some(k) =>
        var db := databases[k];
        if indexId >= db.GetIndexCount() || indexId < 0 then Failure(NoSuchIndex)
        else Success(db.trees[indexId].Lookup(key))
    }

    /** `getWorker`: the worker that serves every request for a database. */
    function GetWorker(dbId: int): (r: Result<LSMDBWorker, Error>)
      reads this
      ensures r.Success? <==> WorkerSlot(dbId, |workers|).Success?
      ensures r.Success? ==> r.value == workers[WorkerSlot(dbId, |workers|).value]
      ensures r.Failure? ==> r.error == WorkerSlot(dbId, |workers|).error
    {
      match WorkerSlot(dbId, |workers|)
      case Failure(e) => Failure(e)
      case Success(i) => Success(workers[i])
    }
  }
}
