/**
 * Names of on-disk index snapshots: `IX<index>V<view>SEQ<seq>.idx`, built
 * by string concatenation and recognised by the regular expression
 * `IX(\d+)V(\d+)SEQ(\d+)\.idx` matched against the whole base name.
 */
module SnapshotNames {
  import opened Wrappers
  import opened Decimal
  import opened Lsns

  function SnapshotFilename(index: int, view: int, seqNo: int): string {
    "IX" + (IntToDecimal(index) + ("V" + (IntToDecimal(view) + ("SEQ" + (IntToDecimal(seqNo) + ".idx")))))
  }

  /** The three digit groups of a matching name. */
  datatype Groups = Groups(index: string, view: string, seqNo: string)

  predicate WellFormed(g: Groups) {
    g.index != [] && AllDigits(g.index) && g.view != [] && AllDigits(g.view)
    && g.seqNo != [] && AllDigits(g.seqNo)
  }

  function Compose(g: Groups): string {
    "IX" + (g.index + ("V" + (g.view + ("SEQ" + (g.seqNo + ".idx")))))
  }

  /** What follows the literal `lit` at the start of `s`. */
  function Chop(s: string, lit: string): (r: Option<string>)
    ensures r.Some? ==> s == lit + r.value
  {
    if StartsWith(s, lit) then Some(s[|lit|..]) else None
  }

  lemma {:induction false} ChopConcat(lit: string, rest: string)
    ensures Chop(lit + rest, lit) == Some(rest)
  {
    assert (lit + rest)[..|lit|] == lit;
  }

  /** A `\d+` group at the start of `s`, taken greedily, and what follows it. */
  function Digits(s: string): (r: Option<(string, string)>)
    ensures r.Some? ==> r.value.0 != [] && AllDigits(r.value.0) && s == r.value.0 + r.value.1
  {
    var n := DigitRun(s);
    if n == 0 then None else Some((s[..n], s[n..]))
  }

  lemma {:induction false} DigitsConcat(d: string, rest: string)
    requires d != [] && AllDigits(d)
    requires rest == [] || !IsDigit(rest[0])
    ensures Digits(d + rest) == Some((d, rest))
  {
    DigitRunOfDigits(d, rest);
    assert (d + rest)[..|d|] == d;
    assert (d + rest)[|d|..] == rest;
  }

  /** The `SEQ(\d+)\.idx` tail of the pattern: the sequence group. */
  function MatchSeq(s: string): (r: Option<string>)
    ensures r.Some? ==> r.value != [] && AllDigits(r.value) && s == "SEQ" + (r.value + ".idx")
  {
    match Chop(s, "SEQ")
    case None => None
    case Some(rest) =>
      match Digits(rest)
      case None => None
      case Some((seqNo, tail)) => if tail == ".idx" then Some(seqNo) else None
  }

  /** The `V(\d+)SEQ(\d+)\.idx` tail of the pattern: the view and sequence groups. */
  function MatchView(s: string): (r: Option<(string, string)>)
    ensures r.Some? ==> r.value.0 != [] && AllDigits(r.value.0) && r.value.1 != [] && AllDigits(r.value.1)
    ensures r.Some? ==> s == "V" + (r.value.0 + ("SEQ" + (r.value.1 + ".idx")))
  {
    match Chop(s, "V")
    case None => None
    case Some(rest) =>
      match Digits(rest)
      case None => None
      case Some((view, tail)) =>
        match MatchSeq(tail)
        case None => None
        case Some(seqNo) => Some((view, seqNo))
  }

  /**
   * The whole-string match of the snapshot pattern. The literals after each
   * group are not digits, so the greedy reading of each group is the only one.
   */
  function Match(name: string): (r: Option<Groups>)
    ensures r.Some? ==> WellFormed(r.value) && name == Compose(r.value)
  {
    match Chop(name, "IX")
    case None => None
    case Some(rest) =>
      match Digits(rest)
      case None => None
      case Some((index, tail)) =>
        match MatchView(tail)
        case None => None
        case Some((view, seqNo)) => Some(Groups(index, view, seqNo))
  }

  /** Every well-formed composition matches, with exactly its groups. */
  lemma {:induction false} MatchComplete(g: Groups)
    requires WellFormed(g)
    ensures Match(Compose(g)) == Some(g)
  {
    var r5 := g.seqNo + ".idx";
    var r4 := "SEQ" + r5;
    var r3 := g.view + r4;
    var r2 := "V" + r3;
    var r1 := g.index + r2;
    ChopConcat("SEQ", r5);
    DigitsConcat(g.seqNo, ".idx");
    assert MatchSeq(r4) == Some(g.seqNo);
    ChopConcat("V", r3);
    DigitsConcat(g.view, r4);
    assert MatchView(r2) == Some((g.view, g.seqNo));
    ChopConcat("IX", r1);
    DigitsConcat(g.index, r2);
  }

  /** `isSnapshotFilename`: the base name matches the pattern. */
  predicate IsSnapshotFilename(path: string) {
    Match(BaseName(path)).Some?
  }

  /** A path is recognised exactly when its base name is a well-formed composition. */
  lemma {:induction false} IsSnapshotFilenameExact(path: string)
    ensures IsSnapshotFilename(path) <==> exists g :: WellFormed(g) && BaseName(path) == Compose(g)
  {
    if g :| WellFormed(g) && BaseName(path) == Compose(g) {
      MatchComplete(g);
    }
  }

  /**
   * The LSN in a base name: the view and sequence groups read with
   * `Integer.valueOf`. Reading the groups of a name that does not match is
   * an `IllegalStateException`.
   */
  function LsnOfName(name: string): (r: Result<Lsn, Error>)
    ensures r.Failure? && r.error == IllegalState <==> Match(name).None?
    ensures r.Success? <==> Match(name).Some? && DigitsValue(Match(name).value.view) <= IntMax
                            && DigitsValue(Match(name).value.seqNo) <= IntMax
    ensures r.Success? ==> r.value == Lsn(DigitsValue(Match(name).value.view), DigitsValue(Match(name).value.seqNo))
    ensures r.Failure? ==> r.error in {IllegalState, NumberFormat}
  {
    match Match(name)
    case None => Failure(IllegalState)
    case Some(g) =>
      match ParseInt(g.view)
      case Failure(e) => Failure(e)
      case Success(v) =>
        match ParseInt(g.seqNo)
        case Failure(e) => Failure(e)
        case Success(s) => Success(Lsn(v, s))
  }

  /** `getSnapshotLSNbyFilename`. */
  function GetSnapshotLsnByFilename(path: string): Result<Lsn, Error> {
    LsnOfName(BaseName(path))
  }

  lemma {:induction false} NameOfNats(index: nat, view: nat, seqNo: nat)
    ensures SnapshotFilename(index, view, seqNo) == Compose(Groups(NatToDecimal(index), NatToDecimal(view), NatToDecimal(seqNo)))
    ensures WellFormed(Groups(NatToDecimal(index), NatToDecimal(view), NatToDecimal(seqNo)))
  {
  }

  lemma {:induction false} NotInDigits(s: string, c: char)
    requires AllDigits(s) && !IsDigit(c)
    ensures c !in s
  {
    forall k | 0 <= k < |s| ensures s[k] != c {
      assert IsDigit(s[k]);
    }
  }

  /** Decimal text holds digits and a sign only. */
  lemma {:induction false} NotInDecimal(i: int, c: char)
    requires !IsDigit(c) && c != '-'
    ensures c !in IntToDecimal(i)
  {
    if i < 0 {
      NotInDigits(NatToDecimal(-i), c);
    } else {
      NotInDigits(NatToDecimal(i), c);
    }
  }

  /** `/` never occurs in a snapshot name, so a name is its own base name. */
  lemma {:induction false} NameIsBaseName(index: int, view: int, seqNo: int)
    ensures BaseName(SnapshotFilename(index, view, seqNo)) == SnapshotFilename(index, view, seqNo)
  {
    NotInDecimal(index, '/');
    NotInDecimal(view, '/');
    NotInDecimal(seqNo, '/');
    var t4 := IntToDecimal(seqNo) + ".idx";
    var t3 := "SEQ" + t4;
    var t2 := IntToDecimal(view) + t3;
    var t1 := "V" + t2;
    var t0 := IntToDecimal(index) + t1;
    assert '/' !in t4;
    assert '/' !in t3;
    assert '/' !in t2;
    assert '/' !in t1;
    assert '/' !in t0;
    assert '/' !in "IX" + t0;
  }

  /** A name built from `int` components is recognised and reads back its LSN. */
  lemma {:induction false} SnapshotNameRoundTrip(index: int, view: int, seqNo: int)
    requires 0 <= index && 0 <= view <= IntMax && 0 <= seqNo <= IntMax
    ensures IsSnapshotFilename(SnapshotFilename(index, view, seqNo))
    ensures GetSnapshotLsnByFilename(SnapshotFilename(index, view, seqNo)) == Success(Lsn(view, seqNo))
  {
    var name := SnapshotFilename(index, view, seqNo);
    NameOfNats(index, view, seqNo);
    MatchComplete(Groups(NatToDecimal(index), NatToDecimal(view), NatToDecimal(seqNo)));
    DecimalRoundTrip(view);
    DecimalRoundTrip(seqNo);
    NameIsBaseName(index, view, seqNo);
  }

  /**
   * The sequence number is written as a `long` but read back as an `int`:
   * a name whose sequence number exceeds 2^31 - 1 is recognised as a
   * snapshot yet its LSN cannot be read.
   */
  lemma {:induction false} LongSequenceUnreadable(index: int, view: int, seqNo: int)
    requires 0 <= index && 0 <= view <= IntMax && IntMax < seqNo <= LongMax
    ensures IsSnapshotFilename(SnapshotFilename(index, view, seqNo))
    ensures GetSnapshotLsnByFilename(SnapshotFilename(index, view, seqNo)) == Failure(NumberFormat)
  {
    var name := SnapshotFilename(index, view, seqNo);
    NameOfNats(index, view, seqNo);
    MatchComplete(Groups(NatToDecimal(index), NatToDecimal(view), NatToDecimal(seqNo)));
    DecimalRoundTrip(view);
    DecimalRoundTrip(seqNo);
    NameIsBaseName(index, view, seqNo);
  }

  /** A composition holds no `-`. */
  lemma {:induction false} NoDashInCompose(g: Groups)
    requires WellFormed(g)
    ensures '-' !in Compose(g)
  {
    var c := '-';
    NotInDigits(g.index, c);
    NotInDigits(g.view, c);
    NotInDigits(g.seqNo, c);
    var t4 := g.seqNo + ".idx";
    var t3 := "SEQ" + t4;
    var t2 := g.view + t3;
    var t1 := "V" + t2;
    var t0 := g.index + t1;
    assert c !in t4;
    assert c !in t3;
    assert c !in t2;
    assert c !in t1;
    assert c !in t0;
    assert c !in "IX" + t0;
  }

  /** A negative component puts a `-` in the name, which the pattern refuses. */
  lemma {:induction false} NegativeNotRecognised(index: int, view: int, seqNo: int)
    requires index < 0 || view < 0 || seqNo < 0
    ensures !IsSnapshotFilename(SnapshotFilename(index, view, seqNo))
  {
    var name := SnapshotFilename(index, view, seqNo);
    NameIsBaseName(index, view, seqNo);
    var di, dv, ds := IntToDecimal(index), IntToDecimal(view), IntToDecimal(seqNo);
    var t4 := ds + ".idx";
    var t3 := "SEQ" + t4;
    var t2 := dv + t3;
    var t1 := "V" + t2;
    var t0 := di + t1;
    if index < 0 {
      assert di[0] == '-';
      assert '-' in t0;
    } else if view < 0 {
      assert dv[0] == '-';
      assert '-' in t2;
      assert '-' in t0;
    } else {
      assert ds[0] == '-';
      assert '-' in t4;
      assert '-' in t2;
      assert '-' in t0;
    }
    assert '-' in name;
    var m := Match(name);
    if m.Some? {
      NoDashInCompose(m.value);
    }
  }

  /** The prefix `IX<index>V` by which the loader picks one index's files. */
  function IndexPrefix(index: int): string {
    "IX" + (IntToDecimal(index) + "V")
  }

  lemma {:induction false} StartsWithCommon(c: string, a: string, b: string)
    ensures StartsWith(c + a, c + b) <==> StartsWith(a, b)
  {
    if |b| <= |a| {
      assert (c + a)[..|c + b|] == c + a[..|b|];
      if (c + a)[..|c + b|] == c + b {
        assert a[..|b|] == (c + a[..|b|])[|c|..] == (c + b)[|c|..] == b;
      }
    }
  }

  /** Two digit runs each followed by `V`: one starts the other only if they are equal. */
  lemma {:induction false} DigitsBeforeV(di: string, dj: string, rest: string)
    requires AllDigits(di) && AllDigits(dj) && rest != [] && rest[0] == 'V'
    ensures StartsWith(di + rest, dj + "V") ==> di == dj
  {
    var name, p := di + rest, dj + "V";
    if |di| < |dj| {
      var k := |di|;
      assert name[k] == 'V' && IsDigit(dj[k]) && p[k] == dj[k];
      assert !StartsWith(name, p) by {
        if |p| <= |name| { assert name[..|p|][k] != p[k]; }
      }
    } else if |dj| < |di| {
      var k := |dj|;
      assert p[k] == 'V' && IsDigit(di[k]) && name[k] == di[k];
      assert !StartsWith(name, p) by {
        if |p| <= |name| { assert name[..|p|][k] != p[k]; }
      }
    } else if StartsWith(name, p) {
      assert di == name[..|di|] == p[..|dj|] == dj;
    }
  }

  /** The prefix of one index never selects another index's snapshot names. */
  lemma {:induction false} IndexPrefixSelects(i: nat, j: nat, view: int, seqNo: int)
    ensures StartsWith(SnapshotFilename(i, view, seqNo), IndexPrefix(j)) <==> i == j
  {
    var di, dj := NatToDecimal(i), NatToDecimal(j);
    var rest := "V" + (IntToDecimal(view) + ("SEQ" + (IntToDecimal(seqNo) + ".idx")));
    assert SnapshotFilename(i, view, seqNo) == "IX" + (di + rest);
    assert IndexPrefix(j) == "IX" + (dj + "V");
    StartsWithCommon("IX", di + rest, dj + "V");
    if i == j {
      assert (di + rest)[..|dj + "V"|] == dj + "V";
    } else {
      DigitsBeforeV(di, dj, rest);
      DecimalRoundTrip(i);
      DecimalRoundTrip(j);
    }
  }
}
