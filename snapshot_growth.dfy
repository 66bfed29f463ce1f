/**
 * What taking snapshots does to a database's trees, as values: each tree's
 * snapshots (id to contents) before and after, and the contents they hold.
 */
module SnapshotGrowth {
  import opened Keys

  /** How many of the first `k` positions of `indices` name index `i`. */
  function TimesListed(indices: seq<int>, k: int, i: int): (c: nat)
    requires 0 <= k <= |indices|
    ensures c == 0 <==> forall p :: 0 <= p < k ==> indices[p] != i
    ensures c <= k
  {
    if k == 0 then 0 else TimesListed(indices, k - 1, i) + (if indices[k - 1] == i then 1 else 0)
  }

  /** Every snapshot of `a` is still in `b`, as it was. */
  ghost predicate Extends(a: map<int, map<Key, Value>>, b: map<int, map<Key, Value>>) {
    forall s :: s in a ==> s in b && b[s] == a[s]
  }

  /**
   * Snapshots of the first `k` listed indices have turned each tree's
   * snapshots `snaps0[i]` into `snaps[i]`: a tree gains one snapshot of its
   * contents `lives0[i]` per time it is listed among the first `k`, and
   * no other.
   */
  ghost predicate Grown(indices: seq<int>, k: int, lives0: seq<map<Key, Value>>,
                        snaps0: seq<map<int, map<Key, Value>>>, snaps: seq<map<int, map<Key, Value>>>)
  {
    0 <= k <= |indices| && |lives0| == |snaps| && |snaps0| == |snaps|
    && (forall p :: 0 <= p < k ==> 0 <= indices[p] < |snaps|)
    && (forall i :: 0 <= i < |snaps| ==> Extends(snaps0[i], snaps[i]))
    && (forall i :: 0 <= i < |snaps| ==> |snaps[i]| == |snaps0[i]| + TimesListed(indices, k, i))
    && (forall i :: 0 <= i < |snaps| && TimesListed(indices, k, i) == 0 ==> snaps[i] == snaps0[i])
    && (forall i, s :: 0 <= i < |snaps| && s in snaps[i] && s !in snaps0[i] ==> snaps[i][s] == lives0[i])
  }

  /** As `Grown`, with `taken[p]` the id of the new snapshot of the `p`-th listed index. */
  ghost predicate Taken(indices: seq<int>, k: int, lives0: seq<map<Key, Value>>,
                        snaps0: seq<map<int, map<Key, Value>>>, snaps: seq<map<int, map<Key, Value>>>,
                        taken: seq<int>)
  {
    Grown(indices, k, lives0, snaps0, snaps) && |taken| == k
    && (forall p :: 0 <= p < k ==>
          taken[p] in snaps[indices[p]] && taken[p] !in snaps0[indices[p]]
          && snaps[indices[p]][taken[p]] == lives0[indices[p]])
  }

  /** Taking a fresh snapshot of the `k`-th listed index extends what was taken by one. */
  lemma {:induction false} TakenStep(indices: seq<int>, k: int, lives0: seq<map<Key, Value>>,
                                     snaps0: seq<map<int, map<Key, Value>>>, snaps: seq<map<int, map<Key, Value>>>,
                                     taken: seq<int>, snapId: int)
    requires Taken(indices, k, lives0, snaps0, snaps, taken) && k < |indices| && 0 <= indices[k] < |snaps|
    requires snapId !in snaps[indices[k]]
    ensures Taken(indices, k + 1, lives0, snaps0, snaps[indices[k] := snaps[indices[k]][snapId := lives0[indices[k]]]],
                  taken + [snapId])
  {
    var K := indices[k];
    var snaps' := snaps[K := snaps[K][snapId := lives0[K]]];
    var taken' := taken + [snapId];
    ExtendsTrans(snaps0[K], snaps[K], snaps'[K]);
    forall i | 0 <= i < |snaps|
      ensures TimesListed(indices, k + 1, i) == TimesListed(indices, k, i) + (if i == K then 1 else 0)
    {
    }
    forall i, s | 0 <= i < |snaps| && s in snaps'[i] && s !in snaps0[i]
      ensures snaps'[i][s] == lives0[i]
    {
      if i == K && s != snapId {
        assert s in snaps[K];
      }
    }
    forall p | 0 <= p < k + 1
      ensures taken'[p] in snaps'[indices[p]] && taken'[p] !in snaps0[indices[p]]
              && snaps'[indices[p]][taken'[p]] == lives0[indices[p]]
    {
      if p < k {
        assert taken'[p] == taken[p];
        if indices[p] == K {
          assert taken[p] in snaps[K];
        }
      } else {
        assert snapId !in snaps0[K];
      }
    }
  }

  lemma {:induction false} ExtendsTrans(a: map<int, map<Key, Value>>, b: map<int, map<Key, Value>>, c: map<int, map<Key, Value>>)
    requires Extends(a, b) && Extends(b, c)
    ensures Extends(a, c)
  {
  }
}
