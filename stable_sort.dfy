/**
 * The descending, stable sort used by the aggregation engine.
 *
 * utils/data_processor.py sorts with a key and `reverse=True`, which orders
 * entries from the largest key to the smallest and keeps entries with equal
 * keys in the order they had before the sort. `SortDesc` is the reference definition of that sort
 * (an insertion sort on sequences); `SortDescInPlace` is the in-place sort of a
 * list, proved to leave exactly `SortDesc` of the old contents in the array.
 */
module StableSort {

  /** Keys never increase from left to right. */
  ghost predicate SortedDesc<T>(s: seq<T>, key: T -> real)
  {
    forall i, j :: 0 <= i < j < |s| ==> key(s[i]) >= key(s[j])
  }

  /** No element occurs twice. */
  ghost predicate NoDup<T>(s: seq<T>)
  {
    forall i, j :: 0 <= i < j < |s| ==> s[i] != s[j]
  }

  /** The subsequence of the entries of `s` whose key is `v`, in the order of `s`. */
  function WithKey<T>(s: seq<T>, key: T -> real, v: real): seq<T>
  {
    if s == [] then []
    else (if key(s[0]) == v then [s[0]] else []) + WithKey(s[1..], key, v)
  }

  /**
   * Inserts `x` into a descending sequence after every entry whose key is at
   * least `key(x)`, so that `x` comes after the entries it ties with.
   */
  function InsertDesc<T>(s: seq<T>, x: T, key: T -> real): (r: seq<T>)
    ensures |r| == |s| + 1
    ensures multiset(r) == multiset(s) + multiset{x}
  {
    if s == [] then [x]
    else if key(s[0]) >= key(x) then
      assert s == [s[0]] + s[1..];
      [s[0]] + InsertDesc(s[1..], x, key)
    else
      [x] + s
  }

  /** Every entry of the result of an insertion is `x` or an entry of `s`. */
  lemma InsertDescFrom<T>(s: seq<T>, x: T, key: T -> real, k: nat)
    requires k < |s| + 1
    ensures InsertDesc(s, x, key)[k] == x || InsertDesc(s, x, key)[k] in s
  {
    var r := InsertDesc(s, x, key);
    assert r[k] in multiset(r);
  }

  lemma {:induction false} InsertDescSorted<T>(s: seq<T>, x: T, key: T -> real)
    requires SortedDesc(s, key)
    ensures SortedDesc(InsertDesc(s, x, key), key)
  {
    if s != [] && key(s[0]) >= key(x) {
      var rest := InsertDesc(s[1..], x, key);
      SortedDescTail(s, key);
      InsertDescSorted(s[1..], x, key);
      forall k | 0 <= k < |rest| ensures key(s[0]) >= key(rest[k]) {
        InsertDescFrom(s[1..], x, key, k);
        if rest[k] != x {
          var m :| 0 <= m < |s[1..]| && s[1..][m] == rest[k];
          assert s[m + 1] == rest[k];
        }
      }
      SortedDescCons(s[0], rest, key);
    } else if s != [] {
      forall k | 0 <= k < |s| ensures key(x) >= key(s[k]) {
        assert key(s[0]) >= key(s[k]) || k == 0;
      }
      SortedDescCons(x, s, key);
    }
  }

  /** A descending sequence stays descending behind a head whose key is at least all of its keys. */
  lemma SortedDescCons<T>(h: T, t: seq<T>, key: T -> real)
    requires SortedDesc(t, key)
    requires forall k :: 0 <= k < |t| ==> key(h) >= key(t[k])
    ensures SortedDesc([h] + t, key)
  {
    var r := [h] + t;
    forall i, j | 0 <= i < j < |r| ensures key(r[i]) >= key(r[j]) {
      assert r[j] == t[j - 1];
      if i > 0 {
        assert r[i] == t[i - 1];
      }
    }
  }

  lemma {:induction false} InsertDescNoDup<T>(s: seq<T>, x: T, key: T -> real)
    requires NoDup(s) && x !in s
    ensures NoDup(InsertDesc(s, x, key))
  {
    var r := InsertDesc(s, x, key);
    if s != [] && key(s[0]) >= key(x) {
      var rest := InsertDesc(s[1..], x, key);
      InsertDescNoDup(s[1..], x, key);
      assert r == [s[0]] + rest;
      forall k | 0 <= k < |rest| ensures rest[k] != s[0] {
        InsertDescFrom(s[1..], x, key, k);
        if rest[k] != x {
          var m :| 0 <= m < |s[1..]| && s[1..][m] == rest[k];
          assert s[m + 1] == rest[k];
        }
      }
      forall i, j | 0 <= i < j < |r| ensures r[i] != r[j] {
        assert r[j] == rest[j - 1];
        if i > 0 {
          assert r[i] == rest[i - 1];
        }
      }
    } else if s != [] {
      assert r == [x] + s;
      forall i, j | 0 <= i < j < |r| ensures r[i] != r[j] {
        assert r[j] == s[j - 1];
        if i > 0 {
          assert r[i] == s[i - 1];
        }
      }
    }
  }

  /** The stable descending sort: entries of the input inserted one at a time, from the first. */
  function SortDesc<T>(s: seq<T>, key: T -> real): (r: seq<T>)
    ensures |r| == |s|
    ensures multiset(r) == multiset(s)
    ensures SortedDesc(r, key)
    decreases |s|
  {
    if s == [] then []
    else
      var init, x := s[..|s| - 1], s[|s| - 1];
      assert s == init + [x];
      InsertDescSorted(SortDesc(init, key), x, key);
      InsertDesc(SortDesc(init, key), x, key)
  }

  /** Sorting a sequence without repetitions gives one without repetitions. */
  lemma {:induction false} SortDescNoDup<T>(s: seq<T>, key: T -> real)
    requires NoDup(s)
    ensures NoDup(SortDesc(s, key))
    decreases |s|
  {
    if s != [] {
      var init, x := s[..|s| - 1], s[|s| - 1];
      assert s == init + [x];
      SortDescNoDup(init, key);
      assert x !in multiset(init) by {
        assert forall k :: 0 <= k < |init| ==> init[k] == s[k];
      }
      assert x !in SortDesc(init, key) by {
        assert x !in multiset(SortDesc(init, key));
      }
      InsertDescNoDup(SortDesc(init, key), x, key);
    }
  }

  /** The sorted sequence holds exactly the entries of the input. */
  lemma SortDescMembers<T>(s: seq<T>, key: T -> real)
    ensures forall x :: x in SortDesc(s, key) <==> x in s
  {
    var r := SortDesc(s, key);
    forall x ensures x in r <==> x in s {
      assert x in r <==> x in multiset(r);
    }
  }

  /** Entries that differ in `id` still differ in `id` after the sort. */
  lemma SortDescDistinctBy<T, U>(s: seq<T>, key: T -> real, id: T -> U)
    requires forall i, j :: 0 <= i < j < |s| ==> id(s[i]) != id(s[j])
    ensures forall i, j :: 0 <= i < j < |SortDesc(s, key)| ==> id(SortDesc(s, key)[i]) != id(SortDesc(s, key)[j])
  {
    var r := SortDesc(s, key);
    assert NoDup(s);
    SortDescNoDup(s, key);
    forall i, j | 0 <= i < j < |r| ensures id(r[i]) != id(r[j]) {
      assert r[i] in multiset(s) && r[j] in multiset(s);
      var a :| 0 <= a < |s| && s[a] == r[i];
      var b :| 0 <= b < |s| && s[b] == r[j];
      assert r[i] != r[j];
      assert a != b;
      assert id(s[a]) != id(s[b]);
    }
  }

  /** Every entry left out of the first `m` sorted entries has a key no larger than theirs. */
  lemma SortDescCutoff<T>(s: seq<T>, key: T -> real, m: nat)
    requires m <= |s|
    ensures forall x, y :: x in s && x !in SortDesc(s, key)[..m] && y in SortDesc(s, key)[..m] ==> key(y) >= key(x)
  {
    var r := SortDesc(s, key);
    SortDescMembers(s, key);
    forall x, y | x in s && x !in r[..m] && y in r[..m] ensures key(y) >= key(x) {
      assert x in r;
      var j :| 0 <= j < |r| && r[j] == x;
      var i :| 0 <= i < m && r[..m][i] == y;
      assert j >= m;
      assert r[i] == y;
    }
  }

  /** The sum of `f` over the entries of `s`. */
  function SumBy<T>(s: seq<T>, f: T -> real): real
  {
    if s == [] then 0.0 else f(s[0]) + SumBy(s[1..], f)
  }

  lemma {:induction false} SumByAppend<T>(a: seq<T>, b: seq<T>, f: T -> real)
    ensures SumBy(a + b, f) == SumBy(a, f) + SumBy(b, f)
  {
    if a == [] {
      assert a + b == b;
    } else {
      assert (a + b)[0] == a[0];
      assert (a + b)[1..] == a[1..] + b;
      SumByAppend(a[1..], b, f);
    }
  }

  lemma {:induction false} InsertDescSum<T>(s: seq<T>, x: T, key: T -> real, f: T -> real)
    ensures SumBy(InsertDesc(s, x, key), f) == SumBy(s, f) + f(x)
  {
    var r := InsertDesc(s, x, key);
    if s == [] {
      assert r[1..] == [];
    } else if key(s[0]) >= key(x) {
      assert r[0] == s[0] && r[1..] == InsertDesc(s[1..], x, key);
      InsertDescSum(s[1..], x, key, f);
    } else {
      assert r[0] == x && r[1..] == s;
    }
  }

  /** Sorting does not change a sum over the entries. */
  lemma {:induction false} SortDescSum<T>(s: seq<T>, key: T -> real, f: T -> real)
    ensures SumBy(SortDesc(s, key), f) == SumBy(s, f)
    decreases |s|
  {
    if s != [] {
      var init, x := s[..|s| - 1], s[|s| - 1];
      assert s == init + [x];
      SortDescSum(init, key, f);
      InsertDescSum(SortDesc(init, key), x, key, f);
      SumByAppend(init, [x], f);
      assert SumBy([x], f) == f(x) by {
        assert [x][1..] == [];
      }
    }
  }

  lemma {:induction false} WithKeyAppend<T>(a: seq<T>, b: seq<T>, key: T -> real, v: real)
    ensures WithKey(a + b, key, v) == WithKey(a, key, v) + WithKey(b, key, v)
  {
    if a == [] {
      assert a + b == b;
    } else {
      var ab := a + b;
      var h := if key(a[0]) == v then [a[0]] else [];
      assert ab[0] == a[0];
      assert ab[1..] == a[1..] + b;
      WithKeyAppend(a[1..], b, key, v);
      calc {
        WithKey(ab, key, v);
        h + WithKey(a[1..] + b, key, v);
        h + (WithKey(a[1..], key, v) + WithKey(b, key, v));
        { assert h + (WithKey(a[1..], key, v) + WithKey(b, key, v)) == (h + WithKey(a[1..], key, v)) + WithKey(b, key, v); }
        WithKey(a, key, v) + WithKey(b, key, v);
      }
    }
  }

  lemma {:induction false} WithKeyNone<T>(s: seq<T>, key: T -> real, v: real)
    requires forall i :: 0 <= i < |s| ==> key(s[i]) != v
    ensures WithKey(s, key, v) == []
  {
    if s != [] {
      WithKeyNone(s[1..], key, v);
    }
  }

  /** Inserting into a sorted sequence appends `x` to the entries it ties with. */
  lemma {:induction false} InsertDescStable<T>(s: seq<T>, x: T, key: T -> real, v: real)
    requires SortedDesc(s, key)
    ensures WithKey(InsertDesc(s, x, key), key, v)
         == WithKey(s, key, v) + (if key(x) == v then [x] else [])
  {
    if s == [] {
      WithKeyCons(x, [], key, v);
    } else if key(s[0]) >= key(x) {
      SortedDescTail(s, key);
      InsertDescStable(s[1..], x, key, v);
      WithKeyCons(s[0], InsertDesc(s[1..], x, key), key, v);
      WithKeyCons(s[0], s[1..], key, v);
      assert s == [s[0]] + s[1..];
    } else {
      WithKeyCons(x, s, key, v);
      if key(x) == v {
        forall i | 0 <= i < |s| ensures key(s[i]) != v {
          if i > 0 {
            assert key(s[0]) >= key(s[i]);
          }
        }
        WithKeyNone(s, key, v);
      }
    }
  }

  /** The entries with key `v` of a sequence that starts with `h`. */
  lemma WithKeyCons<T>(h: T, t: seq<T>, key: T -> real, v: real)
    ensures WithKey([h] + t, key, v) == (if key(h) == v then [h] else []) + WithKey(t, key, v)
  {
    assert ([h] + t)[0] == h && ([h] + t)[1..] == t;
  }

  /** The tail of a descending sequence is descending. */
  lemma SortedDescTail<T>(s: seq<T>, key: T -> real)
    requires s != [] && SortedDesc(s, key)
    ensures SortedDesc(s[1..], key)
  {
    forall i, j | 0 <= i < j < |s[1..]| ensures key(s[1..][i]) >= key(s[1..][j]) {
      assert s[1..][i] == s[i + 1] && s[1..][j] == s[j + 1];
    }
  }

  /**
   * Stability: for every key value, the entries with that key come out of the
   * sort in the order they went in.
   */
  lemma {:induction false} SortDescStable<T>(s: seq<T>, key: T -> real, v: real)
    ensures WithKey(SortDesc(s, key), key, v) == WithKey(s, key, v)
    decreases |s|
  {
    if s != [] {
      var init, x := s[..|s| - 1], s[|s| - 1];
      assert s == init + [x];
      SortDescStable(init, key, v);
      InsertDescStable(SortDesc(init, key), x, key, v);
      WithKeyAppend(init, [x], key, v);
      assert WithKey([x], key, v) == if key(x) == v then [x] else [] by {
        assert [x][1..] == [];
      }
    }
  }

  /** The entries of a prefix with a given key are a prefix of the entries of the whole with that key. */
  lemma WithKeyPrefix<T>(s: seq<T>, m: nat, key: T -> real, v: real)
    requires m <= |s|
    ensures WithKey(s[..m], key, v) <= WithKey(s, key, v)
  {
    assert s == s[..m] + s[m..];
    WithKeyAppend(s[..m], s[m..], key, v);
  }

  /** Where `InsertDesc` puts `x`: after the entries with a key at least `key(x)`, before the rest. */
  lemma {:induction false} InsertDescAt<T>(s: seq<T>, x: T, key: T -> real, j: nat)
    requires j <= |s|
    requires forall m :: 0 <= m < j ==> key(s[m]) >= key(x)
    requires forall m :: j <= m < |s| ==> key(s[m]) < key(x)
    ensures InsertDesc(s, x, key) == s[..j] + [x] + s[j..]
  {
    if j == 0 {
      assert s[..0] == [] && s[0..] == s;
      if s == [] {
        assert InsertDesc(s, x, key) == [x];
      } else {
        assert key(s[0]) < key(x);
        assert InsertDesc(s, x, key) == [x] + s;
      }
    } else {
      var t := s[1..];
      assert forall m :: 0 <= m < j - 1 ==> key(t[m]) >= key(x) by {
        assert forall m :: 0 <= m < j - 1 ==> t[m] == s[m + 1];
      }
      assert forall m :: j - 1 <= m < |t| ==> key(t[m]) < key(x) by {
        assert forall m :: j - 1 <= m < |t| ==> t[m] == s[m + 1];
      }
      InsertDescAt(t, x, key, j - 1);
      assert key(s[0]) >= key(x);
      assert InsertDesc(s, x, key) == [s[0]] + (t[..j - 1] + [x] + t[j - 1..]);
      SplitAfterHead(s, x, j);
    }
  }

  /** Moving the head of `s` in front of a split of its tail. */
  lemma SplitAfterHead<T>(s: seq<T>, x: T, j: nat)
    requires 1 <= j <= |s|
    ensures [s[0]] + (s[1..][..j - 1] + [x] + s[1..][j - 1..]) == s[..j] + [x] + s[j..]
  {
    assert s[1..][..j - 1] == s[1..j] && s[1..][j - 1..] == s[j..];
    assert s[..j] == [s[0]] + s[1..j];
  }

  /**
   * One step of the in-place sort: `a[..i]` is sorted, and `a[i]` is moved left
   * past the entries whose key is smaller than its own.
   */
  method InsertInPlace<T>(a: array<T>, i: nat, key: T -> real)
    requires i < a.Length
    requires SortedDesc(a[..i], key)
    modifies a
    ensures a[..i + 1] == InsertDesc(old(a[..i]), old(a[i]), key)
    ensures forall m :: i < m < a.Length ==> a[m] == old(a[m])
  {
    ghost var sorted := a[..i];
    var x := a[i];
    var j := i;
    while j > 0 && key(a[j - 1]) < key(x)
      invariant 0 <= j <= i
      invariant forall m :: 0 <= m < j ==> a[m] == sorted[m]
      invariant forall m :: j < m <= i ==> a[m] == sorted[m - 1]
      invariant forall m :: j <= m < i ==> key(sorted[m]) < key(x)
      invariant forall m :: i < m < a.Length ==> a[m] == old(a[m])
    {
      a[j] := a[j - 1];
      j := j - 1;
    }
    a[j] := x;
    InsertDescShifted(a[..i + 1], sorted, x, key, j);
  }

  /** The array after the shifting loop, read as a sequence, is the insertion of `x`. */
  lemma InsertDescShifted<T>(b: seq<T>, sorted: seq<T>, x: T, key: T -> real, j: nat)
    requires |b| == |sorted| + 1 && j <= |sorted|
    requires SortedDesc(sorted, key)
    requires j > 0 ==> key(sorted[j - 1]) >= key(x)
    requires forall m :: j <= m < |sorted| ==> key(sorted[m]) < key(x)
    requires forall m :: 0 <= m < j ==> b[m] == sorted[m]
    requires b[j] == x
    requires forall m :: j < m < |b| ==> b[m] == sorted[m - 1]
    ensures b == InsertDesc(sorted, x, key)
  {
    forall m | 0 <= m < j ensures key(sorted[m]) >= key(x) {
      assert key(sorted[m]) >= key(sorted[j - 1]);
    }
    InsertDescAt(sorted, x, key, j);
    Shifted(b, sorted, x, j);
  }

  /** The array after the shifting loop, read as a sequence. */
  lemma Shifted<T>(b: seq<T>, sorted: seq<T>, x: T, j: nat)
    requires |b| == |sorted| + 1 && j <= |sorted|
    requires forall m :: 0 <= m < j ==> b[m] == sorted[m]
    requires b[j] == x
    requires forall m :: j < m < |b| ==> b[m] == sorted[m - 1]
    ensures b == sorted[..j] + [x] + sorted[j..]
  {
    var r := sorted[..j] + [x] + sorted[j..];
    forall m | 0 <= m < |b| ensures b[m] == r[m] {
      if m < j {
        assert r[m] == sorted[m];
      } else if m > j {
        assert r[m] == sorted[m - 1];
      }
    }
  }

  /** Sorting one more entry inserts it into the sorted rest. */
  lemma SortDescSnoc<T>(s: seq<T>, i: nat, key: T -> real)
    requires i < |s|
    ensures SortDesc(s[..i + 1], key) == InsertDesc(SortDesc(s[..i], key), s[i], key)
  {
    assert s[..i + 1][..i] == s[..i];
  }

  /**
   * The in-place sort of a list by a key, largest first, stable. The array ends
   * up holding `SortDesc` of its old contents.
   */
  method SortDescInPlace<T>(a: array<T>, key: T -> real)
    modifies a
    ensures a[..] == SortDesc(old(a[..]), key)
  {
    ghost var s := a[..];
    var i := 0;
    while i < a.Length
      invariant 0 <= i <= a.Length
      invariant a[..i] == SortDesc(s[..i], key)
      invariant forall m :: i <= m < a.Length ==> a[m] == s[m]
    {
      InsertInPlace(a, i, key);
      SortDescSnoc(s, i, key);
      i := i + 1;
    }
    assert s[..a.Length] == s;
  }
}
