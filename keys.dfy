/**
 * Keys and values are byte strings ordered by the default byte-range
 * comparator: unsigned, byte by byte, a proper prefix before its extensions.
 * This module also holds the comparator's prefix-to-range conversion and the
 * sorted entry sequences that lookups return.
 */
module Keys {
  import opened Wrappers

  newtype byte = b: int | 0 <= b < 256

  type Key = seq<byte>
  type Value = seq<byte>

  datatype Entry = Entry(key: Key, value: Value)

  /** Unsigned lexicographic order: `a` sorts strictly before `b`. */
  predicate Less(a: Key, b: Key)
    decreases |a|
  {
    |b| > 0 && (|a| == 0 || a[0] < b[0] || (a[0] == b[0] && Less(a[1..], b[1..])))
  }

  predicate LessEq(a: Key, b: Key) {
    a == b || Less(a, b)
  }

  lemma {:induction false} LessIrreflexive(a: Key)
    ensures !Less(a, a)
    decreases |a|
  {
    if |a| > 0 {
      LessIrreflexive(a[1..]);
    }
  }

  lemma {:induction false} LessTransitive(a: Key, b: Key, c: Key)
    requires Less(a, b) && Less(b, c)
    ensures Less(a, c)
    decreases |a|
  {
    if |a| > 0 && a[0] == b[0] && b[0] == c[0] {
      LessTransitive(a[1..], b[1..], c[1..]);
    }
  }

  lemma {:induction false} LessTotal(a: Key, b: Key)
    ensures a == b || Less(a, b) || Less(b, a)
    decreases |a|
  {
    if |a| > 0 && |b| > 0 && a[0] == b[0] {
      LessTotal(a[1..], b[1..]);
      if a[1..] == b[1..] {
        assert a == [a[0]] + a[1..] && b == [b[0]] + b[1..];
      }
    }
  }

  lemma {:induction false} LessAsymmetric(a: Key, b: Key)
    requires Less(a, b)
    ensures !Less(b, a)
  {
    if Less(b, a) {
      LessTransitive(a, b, a);
      LessIrreflexive(a);
    }
  }

  lemma {:induction false} LessEqTransitive(a: Key, b: Key, c: Key)
    requires LessEq(a, b) && LessEq(b, c)
    ensures LessEq(a, c)
  {
    if a != b && b != c {
      LessTransitive(a, b, c);
    }
  }

  lemma {:induction false} LessEqLessTransitive(a: Key, b: Key, c: Key)
    requires (LessEq(a, b) && Less(b, c)) || (Less(a, b) && LessEq(b, c))
    ensures Less(a, c)
  {
    if a != b && b != c {
      LessTransitive(a, b, c);
    }
  }

  /** `p` is a prefix of `k`. */
  predicate IsPrefix(p: Key, k: Key) {
    |p| <= |k| && k[..|p|] == p
  }

  /** A key lies in the half-open range [from, to); a missing bound is unbounded. */
  predicate InRange(k: Key, from: Option<Key>, to: Option<Key>) {
    (from.None? || LessEq(from.value, k)) && (to.None? || Less(k, to.value))
  }

  /**
   * The least key above every extension of `p`: drop the trailing 0xFF bytes
   * and increment the last remaining one. A prefix made only of 0xFF bytes
   * (or the empty prefix) has no such key: the range is unbounded above.
   */
  function Successor(p: Key): Option<Key>
    decreases |p|
  {
    if p == [] then None
    else match Successor(p[1..])
      case Some(s) => Some([p[0]] + s)
      case None => if p[0] == 255 then None else Some([p[0] + 1])
  }

  /** The comparator's prefix-to-range conversion: [prefix, Successor(prefix)). */
  function PrefixToRange(prefix: Key): (Option<Key>, Option<Key>) {
    (Some(prefix), Successor(prefix))
  }

  lemma {:induction false} PrefixIsLessEq(p: Key, k: Key)
    requires IsPrefix(p, k)
    ensures LessEq(p, k)
    decreases |p|
  {
    if |p| > 0 {
      assert k[1..][..|p| - 1] == p[1..];
      PrefixIsLessEq(p[1..], k[1..]);
      if p[1..] == k[1..] {
        assert p == [p[0]] + p[1..] && k == [k[0]] + k[1..];
      }
    }
  }

  /** The range of a prefix holds exactly the keys that extend the prefix. */
  lemma {:induction false} PrefixRangeExact(p: Key, k: Key)
    ensures InRange(k, PrefixToRange(p).0, PrefixToRange(p).1) <==> IsPrefix(p, k)
    decreases |p|
  {
    if p == [] {
      assert LessEq([], k);
    } else {
      var to := Successor(p);
      if IsPrefix(p, k) {
        PrefixIsLessEq(p, k);
        assert IsPrefix(p[1..], k[1..]) by { assert k[1..][..|p| - 1] == p[1..]; }
        PrefixRangeExact(p[1..], k[1..]);
        if Successor(p[1..]).Some? {
          assert Less(k[1..], Successor(p[1..]).value);
        }
      }
      if InRange(k, Some(p), to) {
        assert |k| > 0;
        assert p[0] <= k[0] by {
          if p != k {
            assert Less(p, k);
          }
        }
        assert k[0] <= p[0] by {
          match Successor(p[1..])
          case Some(s) =>
            assert to == Some([p[0]] + s);
            assert Less(k, [p[0]] + s);
            assert ([p[0]] + s)[0] == p[0];
          case None =>
            if p[0] != 255 {
              assert to == Some([p[0] + 1]);
              assert Less(k, [p[0] + 1]);
              var up := [p[0] + 1];
              assert up[1..] == [];
              assert !Less(k[1..], up[1..]);
              assert k[0] < p[0] + 1;
            } else {
              assert k[0] as int < 256;
            }
        }
        assert LessEq(p[1..], k[1..]) by {
          if p != k {
            assert Less(p, k);
          } else {
            assert p[1..] == k[1..];
          }
        }
        PrefixRangeExact(p[1..], k[1..]);
        match Successor(p[1..])
        case Some(s) => {
          assert Less(k, [p[0]] + s);
          assert Less(k[1..], s);
        }
        case None =>
        assert IsPrefix(p[1..], k[1..]);
        assert k[..|p|] == [k[0]] + k[1..][..|p| - 1];
        assert p == [p[0]] + p[1..];
      }
    }
  }

  /** Keys strictly ascending. */
  predicate Sorted(s: seq<Entry>) {
    forall i, j :: 0 <= i < j < |s| ==> Less(s[i].key, s[j].key)
  }

  /** Keys strictly descending. */
  predicate SortedDescending(s: seq<Entry>) {
    forall i, j :: 0 <= i < j < |s| ==> Less(s[j].key, s[i].key)
  }

  /** The entries of `s` whose keys lie in [from, to), in the order of `s`. */
  function Filter(s: seq<Entry>, from: Option<Key>, to: Option<Key>): (r: seq<Entry>)
    ensures |r| <= |s|
  {
    if s == [] then []
    else (if InRange(s[0].key, from, to) then [s[0]] else []) + Filter(s[1..], from, to)
  }

  /** Filtering keeps exactly the entries whose keys lie in range. */
  lemma {:induction false} FilterMember(s: seq<Entry>, from: Option<Key>, to: Option<Key>, e: Entry)
    ensures e in Filter(s, from, to) <==> e in s && InRange(e.key, from, to)
  {
    if s != [] {
      FilterMember(s[1..], from, to, e);
      assert e in s <==> e == s[0] || e in s[1..];
    }
  }

  lemma {:induction false} FilterSorted(s: seq<Entry>, from: Option<Key>, to: Option<Key>)
    requires Sorted(s)
    ensures Sorted(Filter(s, from, to))
  {
    if s != [] {
      FilterSorted(s[1..], from, to);
      var rest := Filter(s[1..], from, to);
      forall j | 0 <= j < |rest| ensures Less(s[0].key, rest[j].key) {
        FilterMember(s[1..], from, to, rest[j]);
        assert rest[j] in s[1..];
      }
    }
  }

  lemma {:induction false} FilterHead(s: seq<Entry>, from: Option<Key>, to: Option<Key>)
    requires s != []
    ensures Filter(s, from, to) == (if InRange(s[0].key, from, to) then [s[0]] else []) + Filter(s[1..], from, to)
  {
  }

  lemma SeqAssociative<T>(x: seq<T>, y: seq<T>, z: seq<T>)
    ensures x + (y + z) == (x + y) + z
  {
  }

  lemma {:induction false} FilterConcat(a: seq<Entry>, b: seq<Entry>, from: Option<Key>, to: Option<Key>)
    ensures Filter(a + b, from, to) == Filter(a, from, to) + Filter(b, from, to)
  {
    if a == [] {
      assert a + b == b;
    } else {
      var ab := a + b;
      assert ab[0] == a[0] && ab[1..] == a[1..] + b;
      FilterHead(ab, from, to);
      FilterHead(a, from, to);
      FilterConcat(a[1..], b, from, to);
      SeqAssociative(if InRange(a[0].key, from, to) then [a[0]] else [], Filter(a[1..], from, to), Filter(b, from, to));
    }
  }

  /** The elements of `s` in the opposite order. */
  function Reverse<T>(s: seq<T>): (r: seq<T>)
    ensures |r| == |s|
  {
    if s == [] then [] else Reverse(s[1..]) + [s[0]]
  }

  lemma {:induction false} ReverseIndex<T>(s: seq<T>)
    ensures forall i :: 0 <= i < |s| ==> Reverse(s)[i] == s[|s| - 1 - i]
  {
    if s != [] {
      ReverseIndex(s[1..]);
    }
  }

  lemma {:induction false} ReverseConcat<T>(a: seq<T>, b: seq<T>)
    ensures Reverse(a + b) == Reverse(b) + Reverse(a)
  {
    if a == [] {
      assert a + b == b;
    } else {
      assert (a + b)[1..] == a[1..] + b;
      ReverseConcat(a[1..], b);
    }
  }

  lemma {:induction false} ReverseSorted(s: seq<Entry>)
    requires Sorted(s)
    ensures SortedDescending(Reverse(s))
  {
    ReverseIndex(s);
  }

  /** The smallest key of a non-empty finite set of keys. */
  function MinKey(keys: set<Key>): (k: Key)
    requires keys != {}
    ensures k in keys && forall j :: j in keys ==> LessEq(k, j)
  {
    MinExists(keys);
    LessAntisymmetric();
    var k :| k in keys && forall j :: j in keys ==> LessEq(k, j);
    k
  }

  lemma {:induction false} LessAntisymmetric()
    ensures forall a, b :: LessEq(a, b) && LessEq(b, a) ==> a == b
  {
    forall a, b | LessEq(a, b) && LessEq(b, a) ensures a == b {
      if a != b {
        LessAsymmetric(a, b);
      }
    }
  }

  lemma {:induction false} MinExists(keys: set<Key>)
    requires keys != {}
    ensures exists k :: k in keys && forall j :: j in keys ==> LessEq(k, j)
    decreases |keys|
  {
    var x :| x in keys;
    var rest := keys - {x};
    if rest == {} {
      assert keys == {x};
      assert LessEq(x, x);
    } else {
      MinExists(rest);
      var m :| m in rest && forall j :: j in rest ==> LessEq(m, j);
      LessTotal(x, m);
      if Less(x, m) {
        forall j | j in keys ensures LessEq(x, j) {
          if j != x {
            LessEqLessTransitive(x, m, j);
          }
        }
      } else {
        forall j | j in keys ensures LessEq(m, j) {
          if j == x {
          }
        }
      }
    }
  }

  /** The entries of a map in ascending key order. */
  function Entries(m: map<Key, Value>): (r: seq<Entry>)
    ensures Sorted(r)
    ensures forall e :: e in r <==> e.key in m && m[e.key] == e.value
    ensures |r| == |m|
    decreases |m|
  {
    if m == map[] then []
    else
      var k := MinKey(m.Keys);
      RemoveMin(m, k);
      var tail := Entries(m - {k});
      ConsSorted(Entry(k, m[k]), tail);
      [Entry(k, m[k])] + tail
  }

  lemma {:induction false} RemoveMin(m: map<Key, Value>, k: Key)
    requires k in m && forall j :: j in m ==> LessEq(k, j)
    ensures |m - {k}| == |m| - 1
    ensures forall j :: j in m - {k} ==> Less(k, j)
  {
    assert (m - {k}).Keys == m.Keys - {k};
  }

  lemma {:induction false} ConsSorted(e: Entry, tail: seq<Entry>)
    requires Sorted(tail) && forall x :: x in tail ==> Less(e.key, x.key)
    ensures Sorted([e] + tail)
  {
    forall i, j | 0 <= i < j < |[e] + tail| ensures Less(([e] + tail)[i].key, ([e] + tail)[j].key) {
      if i == 0 {
        assert ([e] + tail)[j] in tail;
      }
    }
  }
}
