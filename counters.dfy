/**
 * Python's `Counter`/`dict` as the program uses them: a sequence of
 * (key, count) entries with distinct keys, in insertion order, read by
 * key with 0 for a missing key.
 */
module Counters {

  datatype Entry<K> = Entry(key: K, count: nat)

  type Table<K> = seq<Entry<K>>

  predicate DistinctKeys<K(==)>(t: Table<K>)
  {
    forall i, j :: 0 <= i < j < |t| ==> t[i].key != t[j].key
  }

  predicate HasKey<K(==)>(t: Table<K>, k: K)
  {
    exists i :: 0 <= i < |t| && t[i].key == k
  }

  function KeySet<K(==)>(t: Table<K>): set<K>
  {
    set e | e in t :: e.key
  }

  /** `counter[k]`: the summed count of the entries with key `k` (0 when there is none). */
  function CountOf<K(==)>(t: Table<K>, k: K): nat
  {
    if t == [] then 0
    else CountOf(t[..|t| - 1], k) + (if t[|t| - 1].key == k then t[|t| - 1].count else 0)
  }

  /** `sum(counter.values())`. */
  function Total<K(==)>(t: Table<K>): nat
  {
    if t == [] then 0 else Total(t[..|t| - 1]) + t[|t| - 1].count
  }

  lemma {:induction false} CountOfAbsent<K>(t: Table<K>, k: K)
    requires !HasKey(t, k)
    ensures CountOf(t, k) == 0
  {
    if t != [] {
      var prefix := t[..|t| - 1];
      assert !HasKey(prefix, k) by {
        forall i | 0 <= i < |prefix| ensures prefix[i].key != k {
          assert prefix[i] == t[i];
        }
      }
      CountOfAbsent(prefix, k);
    }
  }

  /** With distinct keys, the count of a key is the count of its one entry. */
  lemma {:induction false} CountOfEntry<K>(t: Table<K>, i: nat)
    requires DistinctKeys(t) && i < |t|
    ensures CountOf(t, t[i].key) == t[i].count
  {
    var n := |t| - 1;
    var prefix := t[..n];
    if i == n {
      assert !HasKey(prefix, t[i].key) by {
        forall j | 0 <= j < n ensures prefix[j].key != t[i].key {
          assert prefix[j] == t[j];
        }
      }
      CountOfAbsent(prefix, t[i].key);
    } else {
      assert prefix[i] == t[i];
      assert DistinctKeys(prefix) by {
        forall a, b | 0 <= a < b < n ensures prefix[a].key != prefix[b].key {
          assert prefix[a] == t[a] && prefix[b] == t[b];
        }
      }
      CountOfEntry(prefix, i);
    }
  }

  /** Replacing one entry changes the count of its key (or keys) by the difference. */
  lemma {:induction false} CountOfUpdate<K>(t: Table<K>, i: nat, e: Entry<K>, k: K)
    requires i < |t|
    ensures CountOf(t[i := e], k) + (if t[i].key == k then t[i].count else 0)
            == CountOf(t, k) + (if e.key == k then e.count else 0)
    decreases |t|
  {
    var n := |t| - 1;
    var u := t[i := e];
    if i < n {
      assert u[..n] == t[..n][i := e];
      CountOfUpdate(t[..n], i, e, k);
    } else {
      assert u[..n] == t[..n];
    }
  }

  lemma {:induction false} TotalUpdate<K>(t: Table<K>, i: nat, e: Entry<K>)
    requires i < |t|
    ensures Total(t[i := e]) + t[i].count == Total(t) + e.count
    decreases |t|
  {
    var n := |t| - 1;
    var u := t[i := e];
    if i < n {
      assert u[..n] == t[..n][i := e];
      TotalUpdate(t[..n], i, e);
    } else {
      assert u[..n] == t[..n];
    }
  }

  /** The position of the entry with key `k`. */
  function IndexOf<K(==)>(t: Table<K>, k: K): (i: nat)
    requires HasKey(t, k)
    ensures i < |t| && t[i].key == k
    ensures forall j :: 0 <= j < i ==> t[j].key != k
  {
    if t[0].key == k then 0
    else
      assert HasKey(t[1..], k) by {
        var j :| 0 <= j < |t| && t[j].key == k;
        assert t[1..][j - 1] == t[j];
      }
      1 + IndexOf(t[1..], k)
  }

  /**
   * `counter[k] += n`: the entry of `k` grows by `n`, or a new entry is
   * appended; no other count changes and the order of entries is kept.
   */
  function Add<K(==,!new)>(t: Table<K>, k: K, n: nat): (r: Table<K>)
    requires DistinctKeys(t)
    ensures DistinctKeys(r)
    ensures forall k' :: CountOf(r, k') == CountOf(t, k') + (if k' == k then n else 0)
    ensures Total(r) == Total(t) + n
    ensures KeySet(r) == KeySet(t) + {k}
    ensures HasKey(t, k) ==> |r| == |t| && forall j :: 0 <= j < |t| ==> r[j].key == t[j].key
    ensures !HasKey(t, k) ==> r == t + [Entry(k, n)]
    ensures forall j :: 0 <= j < |t| ==> r[j].key == t[j].key && r[j].count >= t[j].count
  {
    if HasKey(t, k) then
      var i := IndexOf(t, k);
      AddExisting(t, i, n);
      t[i := Entry(k, t[i].count + n)]
    else
      AddNew(t, k, n);
      t + [Entry(k, n)]
  }

  /** Growing the entry at `i` by `n`: the counts, total, keys and order `Add` promises. */
  lemma AddExisting<K(!new)>(t: Table<K>, i: nat, n: nat)
    requires DistinctKeys(t) && i < |t|
    ensures var e := Entry(t[i].key, t[i].count + n);
            var r := t[i := e];
            DistinctKeys(r)
            && (forall k' :: CountOf(r, k') == CountOf(t, k') + (if k' == t[i].key then n else 0))
            && Total(r) == Total(t) + n
            && KeySet(r) == KeySet(t)
  {
    var e := Entry(t[i].key, t[i].count + n);
    var r := t[i := e];
    forall k' ensures CountOf(r, k') == CountOf(t, k') + (if k' == t[i].key then n else 0) {
      CountOfUpdate(t, i, e, k');
    }
    TotalUpdate(t, i, e);
    assert KeySet(r) == KeySet(t) by {
      forall x | x in KeySet(r) ensures x in KeySet(t) {
        var f :| f in r && f.key == x;
        if f == e { assert t[i] in t; } else { var j :| 0 <= j < |r| && r[j] == f; assert j != i; assert t[j] == f; }
      }
      forall x | x in KeySet(t) ensures x in KeySet(r) {
        var f :| f in t && f.key == x;
        var j :| 0 <= j < |t| && t[j] == f;
        if j == i { assert r[i] == e; } else { assert r[j] == f; }
      }
    }
  }

  /** Appending a new key: the counts, total and keys `Add` promises. */
  lemma AddNew<K(!new)>(t: Table<K>, k: K, n: nat)
    requires DistinctKeys(t) && !HasKey(t, k)
    ensures var r := t + [Entry(k, n)];
            DistinctKeys(r)
            && (forall k' :: CountOf(r, k') == CountOf(t, k') + (if k' == k then n else 0))
            && Total(r) == Total(t) + n
            && KeySet(r) == KeySet(t) + {k}
  {
    var r := t + [Entry(k, n)];
    assert r[..|t|] == t;
    assert forall k' :: CountOf(r, k') == CountOf(t, k') + (if k' == k then n else 0);
    assert Total(r) == Total(t) + n;
    assert KeySet(r) == KeySet(t) + {k} by {
      forall x | x in KeySet(r) ensures x in KeySet(t) + {k} {
        var f :| f in r && f.key == x;
        var j :| 0 <= j < |r| && r[j] == f;
        if j < |t| { assert t[j] == f; }
      }
      assert r[|t|] in r;
      forall x | x in KeySet(t) ensures x in KeySet(r) {
        var f :| f in t && f.key == x;
        var j :| 0 <= j < |t| && t[j] == f;
        assert r[j] == f;
      }
    }
  }

  /** Occurrences of `k` in `ks`. */
  function Occurrences<K(==)>(ks: seq<K>, k: K): nat
  {
    if ks == [] then 0 else Occurrences(ks[..|ks| - 1], k) + (if ks[|ks| - 1] == k then 1 else 0)
  }

  /** `Counter()` incremented once per key of `ks`, in order. */
  function Tally<K(==,!new)>(ks: seq<K>): (r: Table<K>)
    ensures DistinctKeys(r)
    ensures forall k :: CountOf(r, k) == Occurrences(ks, k)
    ensures Total(r) == |ks|
    ensures KeySet(r) == set k | k in ks
  {
    if ks == [] then []
    else
      var init := ks[..|ks| - 1];
      var prev := Tally(init);
      var r := Add(prev, ks[|ks| - 1], 1);
      assert (set k | k in ks) == (set k | k in init) + {ks[|ks| - 1]} by {
        assert ks == init + [ks[|ks| - 1]];
      }
      r
  }

  lemma TallySnoc<K(!new)>(ks: seq<K>, k: K)
    ensures Tally(ks + [k]) == Add(Tally(ks), k, 1)
  {
    assert (ks + [k])[..|ks|] == ks;
  }

  lemma {:induction false} TallyPositive<K(!new)>(ks: seq<K>)
    ensures forall j :: 0 <= j < |Tally(ks)| ==> Tally(ks)[j].count >= 1
  {
    if ks != [] {
      var prev := Tally(ks[..|ks| - 1]);
      TallyPositive(ks[..|ks| - 1]);
    }
  }

  predicate SortedDesc<K>(t: Table<K>)
  {
    forall i, j :: 0 <= i < j < |t| ==> t[i].count >= t[j].count
  }

  /** Entries in the order Python's stable `sorted(..., key=count, reverse=True)` would give. */
  function SortByCountDesc<K>(t: Table<K>): (r: Table<K>)
    ensures multiset(r) == multiset(t) && |r| == |t|
    ensures SortedDesc(r)
  {
    if t == [] then []
    else
      assert t == [t[0]] + t[1..];
      InsertDesc(t[0], SortByCountDesc(t[1..]))
  }

  /** An entry no smaller than the head of a descending table can go in front of it. */
  lemma SortedDescCons<K>(e: Entry<K>, s: Table<K>)
    requires SortedDesc(s) && (s == [] || e.count >= s[0].count)
    ensures SortedDesc([e] + s)
  {
    var r := [e] + s;
    forall i, j | 0 <= i < j < |r| ensures r[i].count >= r[j].count {
      assert r[j] == s[j - 1];
      if i > 0 {
        assert r[i] == s[i - 1];
      } else if j > 1 {
        assert s[0].count >= s[j - 1].count;
      }
    }
  }

  /** Inserts `e` before the first entry that it does not fall behind. */
  function InsertDesc<K>(e: Entry<K>, s: Table<K>): (r: Table<K>)
    requires SortedDesc(s)
    ensures multiset(r) == multiset(s) + multiset{e} && |r| == |s| + 1
    ensures r[0] == e || (s != [] && r[0] == s[0])
    ensures SortedDesc(r)
  {
    if s == [] || e.count >= s[0].count then
      SortedDescCons(e, s);
      [e] + s
    else
      SortedDescTail(s);
      var tail := InsertDesc(e, s[1..]);
      InsertDescCons(s[0], e, s[1..], tail);
      [s[0]] + tail
  }

  /** Putting the head back in front of the insertion into the rest keeps the order and the contents. */
  lemma InsertDescCons<K>(h: Entry<K>, e: Entry<K>, rest: Table<K>, tail: Table<K>)
    requires e.count < h.count && (rest != [] ==> rest[0].count <= h.count)
    requires SortedDesc(tail) && tail != [] && (tail[0] == e || (rest != [] && tail[0] == rest[0]))
    requires multiset(tail) == multiset(rest) + multiset{e}
    ensures SortedDesc([h] + tail)
    ensures multiset([h] + tail) == multiset([h] + rest) + multiset{e}
  {
    SortedDescCons(h, tail);
  }

  lemma SortedDescTail<K>(s: Table<K>)
    requires SortedDesc(s) && s != []
    ensures s == [s[0]] + s[1..] && SortedDesc(s[1..])
  {
    forall i, j | 0 <= i < j < |s[1..]| ensures s[1..][i].count >= s[1..][j].count {
      assert s[1..][i] == s[i + 1] && s[1..][j] == s[j + 1];
    }
  }

  /** Python's slice `s[:n]`, including a negative `n`. */
  function Take<T>(s: seq<T>, n: int): (r: seq<T>)
    ensures r <= s
    ensures 0 <= n ==> |r| == if n < |s| then n else |s|
    ensures n < 0 ==> |r| == if |s| + n > 0 then |s| + n else 0
  {
    if n >= 0 then (if n < |s| then s[..n] else s)
    else (if |s| + n > 0 then s[..|s| + n] else [])
  }

  /** Entries whose count is at least `threshold`, in order. */
  function AtLeast<K(==,!new)>(t: Table<K>, threshold: int): (r: Table<K>)
    ensures |r| <= |t|
    ensures forall e :: e in r <==> e in t && e.count >= threshold
    ensures forall i :: 0 <= i < |r| ==> r[i].count >= threshold
  {
    if t == [] then []
    else
      var init := t[..|t| - 1];
      var last := t[|t| - 1];
      assert t == init + [last];
      AtLeast(init, threshold) + (if last.count >= threshold then [last] else [])
  }

  /** Filtering keeps the entries in their order: the result is a subsequence. */
  lemma {:induction false} AtLeastDistinct<K(!new)>(t: Table<K>, threshold: int)
    requires DistinctKeys(t)
    ensures DistinctKeys(AtLeast(t, threshold))
    ensures KeySet(AtLeast(t, threshold)) <= KeySet(t)
  {
    if t != [] {
      var init := t[..|t| - 1];
      var last := t[|t| - 1];
      assert DistinctKeys(init) by {
        forall a, b | 0 <= a < b < |init| ensures init[a].key != init[b].key {
          assert init[a] == t[a] && init[b] == t[b];
        }
      }
      AtLeastDistinct(init, threshold);
      var prev := AtLeast(init, threshold);
      var r := AtLeast(t, threshold);
      assert KeySet(r) <= KeySet(t);
      if last.count >= threshold {
        assert r == prev + [last];
        assert !(last.key in KeySet(prev)) by {
          forall e | e in prev ensures e.key != last.key {
            var j :| 0 <= j < |init| && init[j] == e;
            assert t[j] == e;
          }
        }
        forall a, b | 0 <= a < b < |r| ensures r[a].key != r[b].key {
          if b == |r| - 1 {
            assert r[a] in prev;
          }
        }
      }
    }
  }

  /** With distinct keys, the filtered count of a key is its count if that reaches the threshold, else 0. */
  lemma {:induction false} AtLeastCounts<K(!new)>(t: Table<K>, threshold: int, k: K)
    requires DistinctKeys(t)
    ensures CountOf(AtLeast(t, threshold), k) == if CountOf(t, k) >= threshold then CountOf(t, k) else 0
  {
    AtLeastDistinct(t, threshold);
    var r := AtLeast(t, threshold);
    if HasKey(t, k) {
      var i := IndexOf(t, k);
      CountOfEntry(t, i);
      if t[i].count >= threshold {
        assert t[i] in r;
        var j :| 0 <= j < |r| && r[j] == t[i];
        CountOfEntry(r, j);
      } else {
        forall j | 0 <= j < |r| ensures r[j].key != k {
          assert r[j] in t && r[j].count >= threshold;
        }
        CountOfAbsent(r, k);
      }
    } else {
      CountOfAbsent(t, k);
      forall j | 0 <= j < |r| ensures r[j].key != k {
        assert r[j] in t;
      }
      CountOfAbsent(r, k);
    }
  }

  /** Filtering twice by the same threshold is filtering once. */
  lemma {:induction false} AtLeastIdempotent<K(!new)>(t: Table<K>, threshold: int)
    ensures AtLeast(AtLeast(t, threshold), threshold) == AtLeast(t, threshold)
  {
    var r := AtLeast(t, threshold);
    AtLeastSelf(r, threshold);
  }

  lemma {:induction false} AtLeastSelf<K(!new)>(t: Table<K>, threshold: int)
    requires forall i :: 0 <= i < |t| ==> t[i].count >= threshold
    ensures AtLeast(t, threshold) == t
  {
    if t != [] {
      var init := t[..|t| - 1];
      var last := t[|t| - 1];
      assert forall i :: 0 <= i < |init| ==> init[i] == t[i];
      AtLeastSelf(init, threshold);
      InitLast(t);
      AtLeastSnoc(init, last, threshold);
    }
  }

  lemma InitLast<T>(s: seq<T>)
    requires s != []
    ensures s == s[..|s| - 1] + [s[|s| - 1]]
  {
  }

  lemma AtLeastSnoc<K(!new)>(init: Table<K>, last: Entry<K>, threshold: int)
    ensures AtLeast(init + [last], threshold) == AtLeast(init, threshold) + (if last.count >= threshold then [last] else [])
  {
    assert (init + [last])[..|init|] == init;
  }

  /**
   * `Counter.update` one item at a time: each entry's count is added to the
   * entry of its key, first occurrences appended in order.
   */
  function Accumulate<K(==,!new)>(items: seq<Entry<K>>): (r: Table<K>)
    ensures DistinctKeys(r)
    ensures forall k :: CountOf(r, k) == CountOf(items, k)
    ensures Total(r) == Total(items)
    ensures KeySet(r) == KeySet(items)
  {
    if items == [] then []
    else
      var init := items[..|items| - 1];
      var last := items[|items| - 1];
      assert items == init + [last];
      assert KeySet(items) == KeySet(init) + {last.key} by {
        forall x | x in KeySet(items) ensures x in KeySet(init) + {last.key} {
          var f :| f in items && f.key == x;
          if f != last { assert f in init; }
        }
        assert last in items;
        forall x | x in KeySet(init) ensures x in KeySet(items) {
          var f :| f in init && f.key == x;
          assert f in items;
        }
      }
      Add(Accumulate(init), last.key, last.count)
  }

  lemma AccumulateSnoc<K(!new)>(items: seq<Entry<K>>, e: Entry<K>)
    ensures Accumulate(items + [e]) == Add(Accumulate(items), e.key, e.count)
  {
    assert (items + [e])[..|items|] == items;
  }

  /** A table with distinct keys holds each entry at most once. */
  lemma {:induction false} DistinctKeysMultiplicity<K>(t: Table<K>)
    requires DistinctKeys(t)
    ensures forall e :: multiset(t)[e] <= 1
  {
    if t != [] {
      var init := t[..|t| - 1];
      var last := t[|t| - 1];
      assert t == init + [last];
      DistinctKeysInit(t);
      DistinctKeysMultiplicity(init);
      assert last !in init by {
        assert forall e :: e in init ==> e.key in KeySet(init);
      }
    }
  }

  /** A rearrangement of a table with distinct keys still has distinct keys. */
  lemma PermutationDistinctKeys<K>(a: Table<K>, b: Table<K>)
    requires multiset(a) == multiset(b) && DistinctKeys(a)
    ensures DistinctKeys(b)
  {
    DistinctKeysMultiplicity(a);
    forall i, j | 0 <= i < j < |b| ensures b[i].key != b[j].key {
      assert b == b[..j] + b[j..];
      assert b[i] in b[..j] && b[j] in b[j..];
      assert multiset(b)[b[j]] == multiset(b[..j])[b[j]] + multiset(b[j..])[b[j]];
      assert b[i] != b[j];
      assert b[i] in multiset(a) && b[j] in multiset(a);
      var x :| 0 <= x < |a| && a[x] == b[i];
      var y :| 0 <= y < |a| && a[y] == b[j];
    }
  }

  /** A prefix of a descending table is descending and holds only entries of the table. */
  lemma TakeSortedDesc<K>(s: Table<K>, n: int)
    requires SortedDesc(s)
    ensures SortedDesc(Take(s, n))
    ensures forall e :: e in Take(s, n) ==> e in s
    ensures DistinctKeys(s) ==> DistinctKeys(Take(s, n))
  {
    var r := Take(s, n);
    forall i, j | 0 <= i < j < |r| ensures r[i].key == s[i].key && r[j].key == s[j].key {
    }
    forall i, j | 0 <= i < j < |r| ensures r[i].count >= r[j].count {
      assert r[i] == s[i] && r[j] == s[j];
    }
    forall e | e in r ensures e in s {
      var i :| 0 <= i < |r| && r[i] == e;
      assert s[i] == e;
    }
  }


  /**
   * The first `n` entries of the descending order are the top ones: every
   * entry left out has a count no larger than any entry kept.
   */
  lemma TopEntries<K>(t: Table<K>, n: int)
    ensures var r := Take(SortByCountDesc(t), n);
            multiset(r) <= multiset(t) &&
            (forall e :: e in r ==> e in t) &&
            (forall e, f :: e in t && e !in r && f in r ==> e.count <= f.count)
  {
    var u := SortByCountDesc(t);
    var r := Take(u, n);
    assert u == r + u[|r|..];
    assert multiset(u) == multiset(r) + multiset(u[|r|..]);
    forall e | e in r ensures e in t {
      assert e in multiset(u);
    }
    forall e, f | e in t && e !in r && f in r ensures e.count <= f.count {
      assert e in multiset(u);
      var j :| 0 <= j < |u| && u[j] == e;
      var i :| 0 <= i < |r| && r[i] == f;
      assert u[i] == f;
      assert j >= |r|;
    }
  }

  lemma {:induction false} CountOfConcat<K>(a: Table<K>, b: Table<K>, k: K)
    ensures CountOf(a + b, k) == CountOf(a, k) + CountOf(b, k)
    decreases |b|
  {
    if b == [] {
      assert a + b == a;
    } else {
      var init := b[..|b| - 1];
      assert (a + b)[..|a + b| - 1] == a + init;
      CountOfConcat(a, init, k);
    }
  }

  lemma {:induction false} KeySetConcat<K>(a: Table<K>, b: Table<K>)
    ensures KeySet(a + b) == KeySet(a) + KeySet(b)
  {
    forall x | x in KeySet(a + b) ensures x in KeySet(a) + KeySet(b) {
      var e :| e in a + b && e.key == x;
      assert e in a || e in b;
    }
    forall x | x in KeySet(a) + KeySet(b) ensures x in KeySet(a + b) {
      if x in KeySet(a) {
        var e :| e in a && e.key == x;
        assert e in a + b;
      } else {
        var e :| e in b && e.key == x;
        assert e in a + b;
      }
    }
  }

  /** Dropping the last entry keeps the keys distinct, and the dropped key is new. */
  lemma DistinctKeysInit<K>(t: Table<K>)
    requires DistinctKeys(t) && t != []
    ensures DistinctKeys(t[..|t| - 1]) && t[|t| - 1].key !in KeySet(t[..|t| - 1])
  {
    var init := t[..|t| - 1];
    forall a, b | 0 <= a < b < |init| ensures init[a].key != init[b].key {
      assert init[a] == t[a] && init[b] == t[b];
    }
    forall e | e in init ensures e.key != t[|t| - 1].key {
      var a :| 0 <= a < |init| && init[a] == e;
      assert t[a] == e;
    }
  }

  /** A table with distinct keys has one entry per key. */
  lemma {:induction false} DistinctKeysSize<K>(t: Table<K>)
    requires DistinctKeys(t)
    ensures |KeySet(t)| == |t|
  {
    if t != [] {
      var init := t[..|t| - 1];
      var last := t[|t| - 1];
      var ks := KeySet(init);
      assert KeySet(t) == ks + {last.key} by {
        assert t == init + [last];
        KeySetConcat(init, [last]);
        assert KeySet([last]) == {last.key};
      }
      assert last.key !in ks && |ks| == |init| by {
        DistinctKeysInit(t);
        DistinctKeysSize(init);
      }
      assert |ks + {last.key}| == |ks| + 1;
    }
  }
}
