/**
 * `LSMDBWorker`: a thread that takes requests from its queue in FIFO order
 * and serves them against the request's database. An insert is appended
 * to the write-ahead log and reaches the indices either at once (pseudo-sync
 * mode) or when the logger reports the entry synced. Listeners learn the
 * outcome through `finished` and `failed`; the model records those calls,
 * in order, as notices.
 */
module Workers {
  import opened Wrappers
  import opened Keys
  import opened Overlays
  import opened Groups
  import opened Databases

  /** What a request asks for (`RequestOperation` with its arguments). */
  datatype Operation =
    | InsertOp(group: InsertGroup)
    | LookupOp(indexId: int, key: Key)
    | PrefixLookupOp(indexId: int, prefix: Key)

  /** `LSMDBRequest`: the listener to tell, the database to work on and the operation. */
  datatype Request = Request(listener: int, db: LSMDatabase, op: Operation)

  /** What `finished` hands a listener. */
  datatype Answer = Done | Found(value: Option<Value>) | Scanned(entries: seq<Entry>)

  /** One call on a listener. */
  datatype Notice = Finished(listener: int, answer: Answer) | Failed(listener: int, error: Error)

  /** What `insertIntoIndex` tells the listener: twice `NO_SUCH_INDEX` when a record names a missing index. */
  function GroupNotices(listener: int, ok: bool): seq<Notice> {
    if ok then [] else [Failed(listener, NoSuchIndex), Failed(listener, NoSuchIndex)]
  }

  /** `finish`: what the listener of an insert is told once its group is applied. */
  function FinishNotice(r: Request): (n: Notice)
    ensures n.Finished? && n.listener == r.listener && n.answer == Done
  {
    Finished(r.listener, Done)
  }

  /**
   * The bookkeeping of log entries: every entry logged is an insert, and
   * every appended entry reaches the indices exactly once, at once in
   * pseudo-sync mode and otherwise once it is synced (never, if the logger
   * fails it).
   */
  ghost predicate Ledger(pseudoSync: bool, unsynced: map<nat, Request>, appended: nat, applied: seq<nat>, lost: set<nat>) {
    (forall t :: t in unsynced ==> t < appended && unsynced[t].op.InsertOp?)
    && (forall t :: t in lost ==> t < appended && t !in unsynced)
    && (forall i :: 0 <= i < |applied| ==> applied[i] < appended)
    && forall t: nat :: t < appended ==>
         multiset(applied)[t] == if pseudoSync || (t !in unsynced && t !in lost) then 1 else 0
  }

  /** `doInsert` logs a new entry; in pseudo-sync mode its group is applied at once. */
  lemma {:induction false} InsertKeepsLedger(pseudoSync: bool, unsynced: map<nat, Request>, appended: nat,
                                             applied: seq<nat>, lost: set<nat>, r: Request)
    requires Ledger(pseudoSync, unsynced, appended, applied, lost) && r.op.InsertOp?
    ensures var applied' := if pseudoSync then applied + [appended] else applied;
            Ledger(pseudoSync, unsynced[appended := r], appended + 1, applied', lost)
            && multiset(applied')[appended] == if pseudoSync then 1 else 0
  {
    var applied' := if pseudoSync then applied + [appended] else applied;
    forall t: nat | t < appended + 1
      ensures multiset(applied')[t]
              == if pseudoSync || (t !in unsynced[appended := r] && t !in lost) then 1 else 0
    {
    }
    forall i | 0 <= i < |applied'| ensures applied'[i] < appended + 1 {
      if i < |applied| {
        assert applied'[i] == applied[i];
      }
    }
  }

  /** `synced` applies a logged group outside pseudo-sync mode and releases the entry. */
  lemma {:induction false} SyncedKeepsLedger(pseudoSync: bool, unsynced: map<nat, Request>, appended: nat,
                                             applied: seq<nat>, lost: set<nat>, entry: nat)
    requires Ledger(pseudoSync, unsynced, appended, applied, lost) && entry in unsynced
    ensures var applied' := if pseudoSync then applied else applied + [entry];
            Ledger(pseudoSync, unsynced - {entry}, appended, applied', lost)
            && multiset(applied')[entry] == 1
  {
    var applied' := if pseudoSync then applied else applied + [entry];
    forall t: nat | t < appended
      ensures multiset(applied')[t]
              == if pseudoSync || (t !in unsynced - {entry} && t !in lost) then 1 else 0
    {
    }
    forall i | 0 <= i < |applied'| ensures applied'[i] < appended {
      if i < |applied| {
        assert applied'[i] == applied[i];
      }
    }
  }

  /** `failed` releases an entry that will never be applied unless it already was. */
  lemma {:induction false} FailedKeepsLedger(pseudoSync: bool, unsynced: map<nat, Request>, appended: nat,
                                             applied: seq<nat>, lost: set<nat>, entry: nat)
    requires Ledger(pseudoSync, unsynced, appended, applied, lost) && entry in unsynced
    ensures Ledger(pseudoSync, unsynced - {entry}, appended, applied, lost + {entry})
    ensures multiset(applied)[entry] == if pseudoSync then 1 else 0
  {
  }

  class LSMDBWorker {
    const pseudoSync: bool
    /** The queue bound; zero or less means unbounded. */
    const maxQ: int
    var requests: seq<Request>
    /** Log entries this worker appended that the logger has neither synced nor failed, by entry number. */
    var unsynced: map<nat, Request>
    /** How many entries this worker has appended; the next entry's number. */
    var appended: nat
    /** The calls made on listeners, in order. */
    var notices: seq<Notice>
    /** The entries whose records were handed to the indices, in order. */
    ghost var applied: seq<nat>
    /** The entries the logger reported failed. */
    ghost var lost: set<nat>

    /** The queue respects its bound, and the entries' bookkeeping holds. */
    ghost predicate Valid()
      reads this
    {
      (maxQ > 0 ==> |requests| <= maxQ) && Ledger(pseudoSync, unsynced, appended, applied, lost)
    }

    /** The constructor: an empty queue, bounded by `maxQ` when it is positive. */
    constructor (pseudoSync: bool, maxQ: int)
      ensures Valid() && this.pseudoSync == pseudoSync && this.maxQ == maxQ
      ensures requests == [] && unsynced == map[] && appended == 0 && notices == []
    {
      this.pseudoSync := pseudoSync;
      this.maxQ := maxQ;
      requests := [];
      unsynced := map[];
      appended := 0;
      notices := [];
      applied := [];
      lost := {};
    }

    /**
     * `addRequest`: the request joins the back of the queue, unless a
     * bounded queue is full (where `put` waits for room).
     */
    method AddRequest(r: Request) returns (accepted: bool)
      requires Valid()
      modifies this
      ensures Valid()
      ensures accepted <==> maxQ <= 0 || |old(requests)| < maxQ
      ensures requests == if accepted then old(requests) + [r] else old(requests)
      ensures unsynced == old(unsynced) && appended == old(appended) && notices == old(notices)
      ensures applied == old(applied) && lost == old(lost)
    {
      accepted := maxQ <= 0 || |requests| < maxQ;
      if accepted {
        requests := requests + [r];
      }
    }

    /**
     * `insertIntoIndex`: the group's records go to the database's trees in
     * order. A record naming a missing index is reported as `NO_SUCH_INDEX`;
     * reading that index then throws, which is caught and reported again,
     * and the records after it are dropped.
     */
    method InsertIntoIndex(r: Request, entry: nat)
      requires r.op.InsertOp? && r.db.Valid()
      modifies this, r.db.trees
      ensures r.db.Valid()
      ensures Lives(r.db.trees) == ApplyRecords(old(Lives(r.db.trees)), r.op.group.records).0
      ensures notices == old(notices) + GroupNotices(r.listener, ApplyRecords(old(Lives(r.db.trees)), r.op.group.records).1)
      ensures Snaps(r.db.trees) == old(Snaps(r.db.trees))
      ensures applied == old(applied) + [entry]
      ensures requests == old(requests) && unsynced == old(unsynced) && appended == old(appended) && lost == old(lost)
    {
      var ok := ApplyGroup(r.db.trees, r.op.group.records);
      applied := applied + [entry];
      if !ok {
        notices := notices + [Failed(r.listener, NoSuchIndex), Failed(r.listener, NoSuchIndex)];
      }
      assert notices == old(notices) + GroupNotices(r.listener, ok);
    }

    /** `insertIntoIndex` followed by `finish`: the group is applied, then the listener told. */
    method ApplyAndFinish(r: Request, entry: nat)
      requires r.op.InsertOp? && r.db.Valid()
      modifies this, r.db.trees
      ensures r.db.Valid()
      ensures Lives(r.db.trees) == ApplyRecords(old(Lives(r.db.trees)), r.op.group.records).0
      ensures notices == old(notices) + GroupNotices(r.listener, ApplyRecords(old(Lives(r.db.trees)), r.op.group.records).1)
                                      + [FinishNotice(r)]
      ensures Snaps(r.db.trees) == old(Snaps(r.db.trees))
      ensures applied == old(applied) + [entry]
      ensures requests == old(requests) && unsynced == old(unsynced) && appended == old(appended) && lost == old(lost)
    {
      InsertIntoIndex(r, entry);
      notices := notices + [FinishNotice(r)];
    }

    /**
     * `doInsert`: the group is appended to the log as a new entry. In
     * pseudo-sync mode it is applied and finished right away; otherwise
     * that waits for `synced`.
     */
    method DoInsert(r: Request)
      requires Valid() && r.op.InsertOp? && r.db.Valid()
      modifies this, r.db.trees
      ensures Valid() && r.db.Valid()
      ensures appended == old(appended) + 1 && unsynced == old(unsynced)[old(appended) := r]
      ensures pseudoSync ==> multiset(applied)[old(appended)] == 1
      ensures !pseudoSync ==> multiset(applied)[old(appended)] == 0
      ensures pseudoSync ==> Lives(r.db.trees) == ApplyRecords(old(Lives(r.db.trees)), r.op.group.records).0
      ensures pseudoSync ==>
                notices == old(notices) + GroupNotices(r.listener, ApplyRecords(old(Lives(r.db.trees)), r.op.group.records).1)
                                        + [FinishNotice(r)]
      ensures !pseudoSync ==> Lives(r.db.trees) == old(Lives(r.db.trees)) && notices == old(notices)
      ensures Snaps(r.db.trees) == old(Snaps(r.db.trees))
      ensures requests == old(requests) && lost == old(lost)
    {
      InsertKeepsLedger(pseudoSync, unsynced, appended, applied, lost, r);
      var entry := appended;
      if pseudoSync {
        ApplyAndFinish(r, entry);
      }
      unsynced := unsynced[entry := r];
      appended := appended + 1;
    }

    /**
     * `doLookup`: the value the index holds under the key, or `NO_SUCH_INDEX`
     * when the index does not exist.
     */
    method DoLookup(r: Request)
      requires r.op.LookupOp? && r.db.Valid()
      modifies this
      ensures |notices| == |old(notices)| + 1 && notices[..|old(notices)|] == old(notices)
      ensures var n := notices[|notices| - 1];
              n.listener == r.listener
              && (n.Finished? <==> 0 <= r.op.indexId < r.db.numIndices)
              && (n.Finished? ==> n.answer == Found(Get(r.db.trees[r.op.indexId].live, r.op.key)))
              && (n.Failed? ==> n.error == NoSuchIndex)
      ensures requests == old(requests) && unsynced == old(unsynced) && appended == old(appended)
      ensures applied == old(applied) && lost == old(lost)
    {
      var numIndices := r.db.GetIndexCount();
      if r.op.indexId >= numIndices || r.op.indexId < 0 {
        notices := notices + [Failed(r.listener, NoSuchIndex)];
      } else {
        var value := r.db.trees[r.op.indexId].Lookup(r.op.key);
        notices := notices + [Finished(r.listener, Found(value))];
      }
    }

    /**
     * `doPrefixLookup`: the index's entries whose keys start with the
     * prefix, in key order, or `NO_SUCH_INDEX` when the index does not exist.
     */
    method DoPrefixLookup(r: Request)
      requires r.op.PrefixLookupOp? && r.db.Valid()
      modifies this
      ensures |notices| == |old(notices)| + 1 && notices[..|old(notices)|] == old(notices)
      ensures var n := notices[|notices| - 1];
              n.listener == r.listener
              && (n.Finished? <==> 0 <= r.op.indexId < r.db.numIndices)
              && (n.Finished? ==> n.answer == Scanned(PrefixScan(r.db.trees[r.op.indexId].live, r.op.prefix, true)))
              && (n.Failed? ==> n.error == NoSuchIndex)
      ensures requests == old(requests) && unsynced == old(unsynced) && appended == old(appended)
      ensures applied == old(applied) && lost == old(lost)
    {
      var numIndices := r.db.GetIndexCount();
      if r.op.indexId >= numIndices || r.op.indexId < 0 {
        notices := notices + [Failed(r.listener, NoSuchIndex)];
      } else {
        var entries := r.db.trees[r.op.indexId].PrefixLookup(r.op.prefix, true);
        notices := notices + [Finished(r.listener, Scanned(entries))];
      }
    }

    /**
     * One pass of `run`'s loop: the request at the head of the queue is
     * taken and dispatched on its operation.
     */
    method Step()
      requires Valid() && requests != [] && requests[0].db.Valid()
      modifies this, requests[0].db.trees
      ensures Valid() && old(requests[0]).db.Valid()
      ensures requests == old(requests[1..])
      ensures old(requests[0]).op.InsertOp? ==> appended == old(appended) + 1 && unsynced == old(unsynced)[old(appended) := old(requests[0])]
      ensures !old(requests[0]).op.InsertOp? ==>
                appended == old(appended) && unsynced == old(unsynced) && |notices| == |old(notices)| + 1
                && Lives(old(requests[0]).db.trees) == old(Lives(requests[0].db.trees))
      ensures Snaps(old(requests[0]).db.trees) == old(Snaps(requests[0].db.trees)) && lost == old(lost)
      // an insert, as `DoInsert` states it
      ensures var r := old(requests[0]);
              r.op.InsertOp? && pseudoSync ==>
                multiset(applied)[old(appended)] == 1
                && Lives(r.db.trees) == ApplyRecords(old(Lives(requests[0].db.trees)), r.op.group.records).0
                && notices == old(notices) + GroupNotices(r.listener, ApplyRecords(old(Lives(requests[0].db.trees)), r.op.group.records).1)
                                           + [FinishNotice(r)]
      ensures var r := old(requests[0]);
              r.op.InsertOp? && !pseudoSync ==>
                multiset(applied)[old(appended)] == 0 && notices == old(notices)
                && Lives(r.db.trees) == old(Lives(requests[0].db.trees))
      // a lookup or a prefix lookup, as `DoLookup` and `DoPrefixLookup` state them
      ensures !old(requests[0]).op.InsertOp? ==>
                applied == old(applied) && notices[..|old(notices)|] == old(notices)
      ensures var r := old(requests[0]);
              !r.op.InsertOp? ==>
                var n := notices[|notices| - 1];
                n.listener == r.listener
                && (n.Finished? <==> 0 <= r.op.indexId < r.db.numIndices)
                && (n.Failed? ==> n.error == NoSuchIndex)
      ensures var r := old(requests[0]);
              r.op.LookupOp? && 0 <= r.op.indexId < r.db.numIndices ==>
                notices[|notices| - 1].answer == Found(Get(r.db.trees[r.op.indexId].live, r.op.key))
      ensures var r := old(requests[0]);
              r.op.PrefixLookupOp? && 0 <= r.op.indexId < r.db.numIndices ==>
                notices[|notices| - 1].answer == Scanned(PrefixScan(r.db.trees[r.op.indexId].live, r.op.prefix, true))
    {
      var r := requests[0];
      requests := requests[1..];
      match r.op
      case InsertOp(_) => DoInsert(r);
      case LookupOp(_, _) => DoLookup(r);
      case PrefixLookupOp(_, _) => DoPrefixLookup(r);
    }

    /**
     * `synced`: the logger has made an entry durable. Outside pseudo-sync
     * mode its group is applied now and the listener told; in both modes
     * the entry is released.
     */
    method Synced(entry: nat, r: Request)
      requires Valid() && entry in unsynced && unsynced[entry] == r && r.db.Valid()
      modifies this, r.db.trees
      ensures Valid() && r.db.Valid()
      ensures unsynced == old(unsynced) - {entry} && appended == old(appended)
      ensures multiset(applied)[entry] == 1
      ensures !pseudoSync ==> Lives(r.db.trees) == ApplyRecords(old(Lives(r.db.trees)), r.op.group.records).0
      ensures !pseudoSync ==>
                notices == old(notices) + GroupNotices(r.listener, ApplyRecords(old(Lives(r.db.trees)), r.op.group.records).1)
                                        + [FinishNotice(r)]
      ensures pseudoSync ==> Lives(r.db.trees) == old(Lives(r.db.trees)) && notices == old(notices)
      ensures requests == old(requests) && lost == old(lost)
    {
      SyncedKeepsLedger(pseudoSync, unsynced, appended, applied, lost, entry);
      if !pseudoSync {
        ApplyAndFinish(r, entry);
      }
      unsynced := unsynced - {entry};
    }

    /** `failed`: the logger could not write an entry; its listener is told `IO_ERROR`. */
    method LogFailed(entry: nat, r: Request)
      requires Valid() && entry in unsynced && unsynced[entry] == r
      modifies this
      ensures Valid()
      ensures notices == old(notices) + [Failed(r.listener, IoError)]
      ensures unsynced == old(unsynced) - {entry} && lost == old(lost) + {entry}
      ensures multiset(applied)[entry] == if pseudoSync then 1 else 0
      ensures requests == old(requests) && appended == old(appended) && applied == old(applied)
    {
      FailedKeepsLedger(pseudoSync, unsynced, appended, applied, lost, entry);
      notices := notices + [Failed(r.listener, IoError)];
      unsynced := unsynced - {entry};
      lost := lost + {entry};
    }
  }
}
