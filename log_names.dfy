/**
 * The names of the write-ahead log files, `<view>.<seq>.dbl`, and the
 * ordered set of LSNs that log replay builds from them (`TreeSet<LSN>`).
 */
module LogNames {
  import opened Wrappers
  import opened Lsns
  import opened Decimal
  import opened SnapshotNames

  /** The name suffix that selects log files in the log directory. */
  const LogSuffix: string := ".dbl"

  /**
   * The whole-string match of `(\d+)\.(\d+)\.dbl`: the view and sequence
   * groups. A `.` follows each group, so the greedy reading is the only one.
   */
  function MatchLog(name: string): (r: Option<(string, string)>)
    ensures r.Some? ==> r.value.0 != [] && AllDigits(r.value.0) && r.value.1 != [] && AllDigits(r.value.1)
    ensures r.Some? ==> name == r.value.0 + ("." + (r.value.1 + LogSuffix))
  {
    match Digits(name)
    case None => None
    case Some((view, tail)) =>
      match Chop(tail, ".")
      case None => None
      case Some(rest) =>
        match Digits(rest)
        case None => None
        case Some((seqNo, suffix)) => if suffix == LogSuffix then Some((view, seqNo)) else None
  }

  /**
   * The LSN a log file name holds, read with `Integer.valueOf`. Reading the
   * groups of a name that does not match is an `IllegalStateException`.
   */
  function LogLsnOfName(name: string): (r: Result<Lsn, Error>)
    ensures r.Failure? ==> r.error in {IllegalState, NumberFormat}
    ensures r.Failure? && r.error == IllegalState <==> MatchLog(name).None?
  {
    match MatchLog(name)
    case None => Failure(IllegalState)
    case Some((view, seqNo)) =>
      match ParseInt(view)
      case Failure(e) => Failure(e)
      case Success(v) =>
        match ParseInt(seqNo)
        case Failure(e) => Failure(e)
        case Success(s) => Success(Lsn(v, s))
  }

  /** The name of the log file that starts at a view and sequence number. */
  function LogFilename(view: nat, seqNo: nat): string {
    NatToDecimal(view) + ("." + (NatToDecimal(seqNo) + LogSuffix))
  }

  /** A log file name is read back as the LSN it was made from, when both numbers fit an `int`. */
  lemma {:induction false} LogNameRoundTrip(view: nat, seqNo: nat)
    requires view <= IntMax && seqNo <= IntMax
    ensures LogLsnOfName(LogFilename(view, seqNo)) == Success(Lsn(view, seqNo))
  {
    var v, s := NatToDecimal(view), NatToDecimal(seqNo);
    var r2 := s + LogSuffix;
    var r1 := "." + r2;
    DigitsConcat(v, r1);
    ChopConcat(".", r2);
    DigitsConcat(s, LogSuffix);
    assert MatchLog(LogFilename(view, seqNo)) == Some((v, s));
    DecimalRoundTrip(view);
    DecimalRoundTrip(seqNo);
  }

  // ---------------------------------------------------------------------
  // The ordered log list

  /** Strictly ascending, hence without repeats. */
  predicate Ascending(s: seq<Lsn>) {
    forall i, j :: 0 <= i < j < |s| ==> Before(s[i], s[j])
  }

  /** `TreeSet.add`: the LSN placed in order, unless it is already there. */
  function AddSorted(s: seq<Lsn>, l: Lsn): (r: seq<Lsn>)
    requires Ascending(s)
    ensures Ascending(r)
    ensures forall m :: m in r <==> m in s || m == l
    decreases |s|
  {
    if s == [] then [l]
    else if Before(l, s[0]) then
      BeforeTransitive(l, s);
      [l] + s
    else if l == s[0] then s
    else
      var rest := AddSorted(s[1..], l);
      AscendingHead(s, rest);
      [s[0]] + rest
  }

  lemma {:induction false} BeforeTransitive(l: Lsn, s: seq<Lsn>)
    requires Ascending(s) && s != [] && Before(l, s[0])
    ensures Ascending([l] + s)
  {
    forall j | 0 <= j < |s| ensures Before(l, s[j]) {
      if j > 0 {
        BeforeStrictTotalOrder(l, s[0], s[j]);
      }
    }
  }

  lemma {:induction false} AscendingHead(s: seq<Lsn>, rest: seq<Lsn>)
    requires Ascending(s) && s != [] && Ascending(rest)
    requires forall m :: m in rest ==> m in s[1..] || Before(s[0], m)
    ensures Ascending([s[0]] + rest)
  {
    forall j | 0 <= j < |rest| ensures Before(s[0], rest[j]) {
      if rest[j] in s[1..] {
        var k :| 0 <= k < |s[1..]| && s[1..][k] == rest[j];
        assert s[k + 1] == rest[j];
      }
    }
  }

  /** An ascending list is the only ordering of its elements. */
  lemma {:induction false} AscendingUnique(a: seq<Lsn>, b: seq<Lsn>)
    requires Ascending(a) && Ascending(b)
    requires forall m :: m in a <==> m in b
    ensures a == b
    decreases |a|
  {
    if a != [] && b != [] {
      assert a[0] in b && b[0] in a;
      LeastFirst(a);
      LeastFirst(b);
      BeforeStrictTotalOrder(a[0], b[0], a[0]);
      assert a[0] == b[0];
      forall m ensures m in a[1..] <==> m in b[1..] {
        DropFirst(a, m);
        DropFirst(b, m);
      }
      AscendingUnique(a[1..], b[1..]);
      assert a == [a[0]] + a[1..];
      assert b == [b[0]] + b[1..];
    } else {
      FirstIsMember(a);
      FirstIsMember(b);
    }
  }

  lemma {:induction false} FirstIsMember(s: seq<Lsn>)
    ensures s == [] || s[0] in s
  {
  }

  lemma {:induction false} LeastFirst(s: seq<Lsn>)
    requires Ascending(s) && s != []
    ensures forall m :: m in s && m != s[0] ==> Before(s[0], m)
  {
  }

  lemma {:induction false} DropFirst(s: seq<Lsn>, m: Lsn)
    requires Ascending(s) && s != []
    ensures m in s[1..] <==> m in s && m != s[0]
  {
    if m in s && m != s[0] {
      var k :| 0 <= k < |s| && s[k] == m;
      assert s[1..][k - 1] == m;
    }
    if m in s[1..] {
      var k :| 0 <= k < |s[1..]| && s[1..][k] == m;
      assert Before(s[0], s[k + 1]);
    }
  }
}
