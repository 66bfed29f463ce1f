/**
 * Insert record groups and how they reach a database's indices. A group
 * holds records for several indices of one database; each record stores a
 * value under a key, or deletes the key when it has no value. Both the
 * worker (`insertIntoIndex`) and log replay (`BabuDB.insert`) walk the
 * records in order and stop at the first record naming an index the
 * database does not have.
 */
module Groups {
  import opened Wrappers
  import opened Keys
  import opened Overlays

  /** `InsertRecord`: one key of one index and its new value; no value deletes the key. */
  datatype InsertRecord = InsertRecord(indexId: int, key: Key, value: Option<Value>)

  /** `InsertRecordGroup`: the records of one database, in the order they were added. */
  datatype InsertGroup = InsertGroup(dbId: int, records: seq<InsertRecord>)

  /**
   * The records applied in order to the contents of the indices, up to the
   * first record whose index does not exist; the flag is whether every
   * record was applied.
   */
  function ApplyRecords(lives: seq<map<Key, Value>>, recs: seq<InsertRecord>): (r: (seq<map<Key, Value>>, bool))
    ensures |r.0| == |lives|
    decreases |recs|
  {
    if recs == [] then (lives, true)
    else
      var prev := ApplyRecords(lives, recs[..|recs| - 1]);
      var rec := recs[|recs| - 1];
      if !prev.1 || !(0 <= rec.indexId < |prev.0|) then (prev.0, false)
      else (prev.0[rec.indexId := Put(prev.0[rec.indexId], rec.key, rec.value)], true)
  }

  /** Every record names an index among the first `n`. */
  predicate AllInRange(recs: seq<InsertRecord>, n: int) {
    forall i :: 0 <= i < |recs| ==> 0 <= recs[i].indexId < n
  }

  /** The writes the records make to one index, in record order. */
  function WritesTo(recs: seq<InsertRecord>, index: int): seq<Write>
    decreases |recs|
  {
    if recs == [] then []
    else
      var rec := recs[|recs| - 1];
      WritesTo(recs[..|recs| - 1], index) + (if rec.indexId == index then [Write(rec.key, rec.value)] else [])
  }

  /** A group is applied in full exactly when all its records name existing indices. */
  lemma {:induction false} ApplyRecordsComplete(lives: seq<map<Key, Value>>, recs: seq<InsertRecord>)
    ensures ApplyRecords(lives, recs).1 <==> AllInRange(recs, |lives|)
    decreases |recs|
  {
    if recs != [] {
      var init := recs[..|recs| - 1];
      ApplyRecordsComplete(lives, init);
      assert AllInRange(recs, |lives|) <==> AllInRange(init, |lives|) && 0 <= recs[|recs| - 1].indexId < |lives| by {
        assert forall j :: 0 <= j < |init| ==> init[j] == recs[j];
      }
    }
  }

  /** Under a fully applied group, index `i` receives its own records' writes, in order. */
  lemma {:induction false} ApplyRecordsAt(lives: seq<map<Key, Value>>, recs: seq<InsertRecord>, i: int)
    requires AllInRange(recs, |lives|) && 0 <= i < |lives|
    ensures ApplyRecords(lives, recs).0[i] == Replay(lives[i], WritesTo(recs, i))
    decreases |recs|
  {
    if recs != [] {
      var init := recs[..|recs| - 1];
      var rec := recs[|recs| - 1];
      assert AllInRange(init, |lives|) by {
        assert forall j :: 0 <= j < |init| ==> init[j] == recs[j];
      }
      ApplyRecordsAt(lives, init, i);
      assert ApplyRecords(lives, init).1 by {
        ApplyRecordsComplete(lives, init);
      }
      if rec.indexId == i {
        var ws := WritesTo(recs, i);
        assert ws[..|ws| - 1] == WritesTo(init, i);
      } else {
        assert WritesTo(recs, i) == WritesTo(init, i);
      }
    }
  }

  /**
   * A group whose records all name existing indices is applied in full,
   * and each index receives its own records' writes, in order.
   */
  lemma {:induction false} ApplyRecordsReplays(lives: seq<map<Key, Value>>, recs: seq<InsertRecord>)
    ensures ApplyRecords(lives, recs).1 <==> AllInRange(recs, |lives|)
    ensures AllInRange(recs, |lives|) ==>
              forall i :: 0 <= i < |lives| ==> ApplyRecords(lives, recs).0[i] == Replay(lives[i], WritesTo(recs, i))
  {
    ApplyRecordsComplete(lives, recs);
    if AllInRange(recs, |lives|) {
      forall i | 0 <= i < |lives|
        ensures ApplyRecords(lives, recs).0[i] == Replay(lives[i], WritesTo(recs, i))
      {
        ApplyRecordsAt(lives, recs, i);
      }
    }
  }

  /** Once a record fails, the records after it change nothing. */
  lemma {:induction false} ApplyRecordsFailureStays(lives: seq<map<Key, Value>>, recs: seq<InsertRecord>, m: nat)
    requires m <= |recs| && !ApplyRecords(lives, recs[..m]).1
    ensures ApplyRecords(lives, recs) == ApplyRecords(lives, recs[..m])
    decreases |recs| - m
  {
    if m < |recs| {
      assert recs[..m + 1][..m] == recs[..m];
      ApplyRecordsFailureStays(lives, recs, m + 1);
    } else {
      assert recs[..m] == recs;
    }
  }

  /**
   * A lookup after a fully applied group: the key holds the value the
   * group last wrote to it in that index, or what it held before.
   */
  lemma {:induction false} LastRecordWins(lives: seq<map<Key, Value>>, recs: seq<InsertRecord>, index: int, k: Key)
    requires AllInRange(recs, |lives|) && 0 <= index < |lives|
    ensures Get(ApplyRecords(lives, recs).0[index], k)
            == match LastWrite(WritesTo(recs, index), k) case None => Get(lives[index], k) case Some(v) => v
  {
    ApplyRecordsReplays(lives, recs);
    LastWriteWins(lives[index], WritesTo(recs, index), k);
  }

  // ---------------------------------------------------------------------
  // The trees of one database

  /** One tree per index, no tree twice. */
  predicate Distinct(trees: seq<LSMTree>) {
    forall i, j :: 0 <= i < j < |trees| ==> trees[i] != trees[j]
  }

  ghost predicate AllValid(trees: seq<LSMTree>)
    reads trees
  {
    forall i :: 0 <= i < |trees| ==> trees[i].Valid()
  }

  /** The live contents of each tree. */
  ghost function Lives(trees: seq<LSMTree>): (r: seq<map<Key, Value>>)
    reads trees
    ensures |r| == |trees| && forall i :: 0 <= i < |trees| ==> r[i] == trees[i].live
  {
    seq(|trees|, i reads trees => if 0 <= i < |trees| then trees[i].live else map[])
  }

  /** The snapshots each tree holds. */
  ghost function Snaps(trees: seq<LSMTree>): (r: seq<map<int, map<Key, Value>>>)
    reads trees
    ensures |r| == |trees| && forall i :: 0 <= i < |trees| ==> r[i] == trees[i].snaps
  {
    seq(|trees|, i reads trees => if 0 <= i < |trees| then trees[i].snaps else map[])
  }

  /** One record: `insert` when it has a value, `delete` when it has none, on the tree of its index. */
  method ApplyRecord(trees: seq<LSMTree>, index: int, key: Key, value: Option<Value>)
    requires Distinct(trees) && AllValid(trees) && 0 <= index < |trees|
    modifies trees[index]
    ensures AllValid(trees)
    ensures Lives(trees) == old(Lives(trees))[index := Put(old(trees[index].live), key, value)]
    ensures Snaps(trees) == old(Snaps(trees))
  {
    ghost var lives := Lives(trees);
    ghost var snaps := Snaps(trees);
    var tree := trees[index];
    if value.Some? {
      tree.Insert(key, value);
    } else {
      tree.Delete(key);
    }
    assert forall j :: 0 <= j < |trees| && j != index ==> trees[j] != tree;
    assert forall j :: 0 <= j < |trees| ==> Lives(trees)[j] == lives[index := tree.live][j];
    assert forall j :: 0 <= j < |trees| ==> Snaps(trees)[j] == snaps[j];
  }

  /**
   * The loop over a group's records, applied one by one until a record
   * names an index outside the trees. Snapshots are not affected.
   */
  method ApplyGroup(trees: seq<LSMTree>, recs: seq<InsertRecord>) returns (ok: bool)
    requires Distinct(trees) && AllValid(trees)
    modifies trees
    ensures AllValid(trees)
    ensures (Lives(trees), ok) == ApplyRecords(old(Lives(trees)), recs)
    ensures Snaps(trees) == old(Snaps(trees))
  {
    ghost var start := Lives(trees);
    for k := 0 to |recs|
      invariant AllValid(trees)
      invariant ApplyRecords(start, recs[..k]) == (Lives(trees), true)
      invariant Snaps(trees) == old(Snaps(trees))
    {
      assert recs[..k + 1][..k] == recs[..k];
      var rec := recs[k];
      if !(0 <= rec.indexId < |trees|) {
        ApplyRecordsFailureStays(start, recs, k + 1);
        return false;
      }
      ApplyRecord(trees, rec.indexId, rec.key, rec.value);
    }
    assert recs[..|recs|] == recs;
    return true;
  }
}
