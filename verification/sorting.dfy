/** Python's `list.sort(key=...)` and `sorted(..., key=...)`: a stable sort
    by a key drawn from a strictly totally ordered set. `reverse=True` is the
    same stable sort under the reversed order. */
module Sorting {
  import opened Seqs

  ghost predicate StrictTotalOrder<K(!new)>(lt: (K, K) -> bool)
  {
    && (forall a :: !lt(a, a))
    && (forall a, b, c :: lt(a, b) && lt(b, c) ==> lt(a, c))
    && (forall a, b :: a != b ==> lt(a, b) || lt(b, a))
  }

  /** No later element's key is strictly below an earlier one's. */
  ghost predicate SortedBy<T, K>(s: seq<T>, key: T -> K, lt: (K, K) -> bool)
  {
    forall i, j :: 0 <= i < j < |s| ==> !lt(key(s[j]), key(s[i]))
  }

  lemma NotLessTransitive<K(!new)>(lt: (K, K) -> bool, a: K, b: K, c: K)
    requires StrictTotalOrder(lt)
    requires !lt(b, a) && !lt(c, b)
    ensures !lt(c, a)
  {
    assert a == b || lt(a, b);
  }

  /** Place `x` after the elements whose keys are strictly smaller and before all others. */
  function Insert<T(==), K>(x: T, s: seq<T>, key: T -> K, lt: (K, K) -> bool): (r: seq<T>)
    ensures |r| == |s| + 1
    ensures multiset(r) == multiset(s) + multiset{x}
  {
    if |s| == 0 then [x]
    else if lt(key(s[0]), key(x)) then
      assert s == [s[0]] + s[1..];
      [s[0]] + Insert(x, s[1..], key, lt)
    else [x] + s
  }

  lemma {:induction false} InsertSorted<T, K(!new)>(x: T, s: seq<T>, key: T -> K, lt: (K, K) -> bool)
    requires StrictTotalOrder(lt)
    requires SortedBy(s, key, lt)
    ensures SortedBy(Insert(x, s, key, lt), key, lt)
  {
    if |s| > 0 {
      if lt(key(s[0]), key(x)) {
        InsertSorted(x, s[1..], key, lt);
        var t := Insert(x, s[1..], key, lt);
        forall j | 0 <= j < |t| ensures !lt(key(t[j]), key(s[0])) {
          InsertMember(x, s[1..], key, lt, t[j]);
          if t[j] != x {
            SortedHeadBelow(s, key, lt, t[j]);
          }
        }
        SortedCons(s[0], t, key, lt);
      } else {
        forall j | 0 <= j < |s| ensures !lt(key(s[j]), key(x)) {
          if j > 0 {
            NotLessTransitive(lt, key(x), key(s[0]), key(s[j]));
          }
        }
        SortedCons(x, s, key, lt);
      }
    }
  }

  lemma InsertMember<T, K>(x: T, s: seq<T>, key: T -> K, lt: (K, K) -> bool, y: T)
    requires y in Insert(x, s, key, lt)
    ensures y == x || y in s
  {
    assert y in multiset(Insert(x, s, key, lt));
  }

  /** In a sorted sequence no later element is below the first. */
  lemma SortedHeadBelow<T, K>(s: seq<T>, key: T -> K, lt: (K, K) -> bool, y: T)
    requires SortedBy(s, key, lt) && |s| > 0 && y in s[1..]
    ensures !lt(key(y), key(s[0]))
  {
    var m := IndexIn(s[1..], y);
    assert s[m + 1] == y;
  }

  lemma SortedCons<T, K>(y: T, t: seq<T>, key: T -> K, lt: (K, K) -> bool)
    requires SortedBy(t, key, lt)
    requires forall j :: 0 <= j < |t| ==> !lt(key(t[j]), key(y))
    ensures SortedBy([y] + t, key, lt)
  {
    var r := [y] + t;
    forall i, j | 0 <= i < j < |r| ensures !lt(key(r[j]), key(r[i])) {
      if i > 0 {
        assert r[i] == t[i - 1] && r[j] == t[j - 1];
      } else {
        assert r[j] == t[j - 1];
      }
    }
  }

  /** Inserting `x` adds it in front of the elements that share its key. */
  lemma {:induction false} InsertWithKey<T, K(!new)>(x: T, s: seq<T>, key: T -> K, lt: (K, K) -> bool, k: K)
    requires StrictTotalOrder(lt)
    ensures WithKey(Insert(x, s, key, lt), key, k) == (if key(x) == k then [x] else []) + WithKey(s, key, k)
  {
    if |s| == 0 {
      WithKeyCons(x, s, key, k);
    } else if lt(key(s[0]), key(x)) {
      var t := Insert(x, s[1..], key, lt);
      InsertWithKey(x, s[1..], key, lt, k);
      WithKeyCons(s[0], t, key, k);
      WithKeyCons(s[0], s[1..], key, k);
      assert [s[0]] + s[1..] == s;
      assert !(key(s[0]) == k && key(x) == k);
    } else {
      WithKeyCons(x, s, key, k);
    }
  }

  /** Stable insertion sort. */
  function SortBy<T(==), K(!new)>(s: seq<T>, key: T -> K, lt: (K, K) -> bool): (r: seq<T>)
    requires StrictTotalOrder(lt)
    ensures |r| == |s|
    ensures multiset(r) == multiset(s)
    ensures SortedBy(r, key, lt)
  {
    if |s| == 0 then []
    else
      var rest := SortBy(s[1..], key, lt);
      InsertSorted(s[0], rest, key, lt);
      assert s == [s[0]] + s[1..];
      Insert(s[0], rest, key, lt)
  }

  /** Stability: restricted to any one key, the sorted order is the input order. */
  lemma {:induction false} SortByStable<T, K(!new)>(s: seq<T>, key: T -> K, lt: (K, K) -> bool, k: K)
    requires StrictTotalOrder(lt)
    ensures WithKey(SortBy(s, key, lt), key, k) == WithKey(s, key, k)
  {
    if |s| > 0 {
      SortByStable(s[1..], key, lt, k);
      InsertWithKey(s[0], SortBy(s[1..], key, lt), key, lt, k);
    }
  }

  /** Elements chosen by one key keep the order of another. */
  lemma {:induction false} WithKeyKeepsSorted<T, K(!new), K2>(s: seq<T>, key: T -> K, lt: (K, K) -> bool, key2: T -> K2, d: K2)
    requires StrictTotalOrder(lt)
    requires SortedBy(s, key, lt)
    ensures SortedBy(WithKey(s, key2, d), key, lt)
  {
    if |s| > 0 {
      WithKeyKeepsSorted(s[1..], key, lt, key2, d);
      var w := WithKey(s[1..], key2, d);
      WithKeyFrom(s[1..], key2, d);
      forall j | 0 <= j < |w| ensures !lt(key(w[j]), key(s[0])) {
        assert w[j] in s[1..];
        var m :| 0 <= m < |s[1..]| && w[j] == s[1..][m];
        assert w[j] == s[m + 1];
      }
    }
  }

  /** Every element that `WithKey` keeps comes from `s`. */
  lemma {:induction false} WithKeyFrom<T, K>(s: seq<T>, key: T -> K, d: K)
    ensures forall j :: 0 <= j < |WithKey(s, key, d)| ==> WithKey(s, key, d)[j] in s
  {
    if |s| > 0 {
      var w0 := WithKey(s[1..], key, d);
      WithKeyFrom(s[1..], key, d);
      var w := WithKey(s, key, d);
      if key(s[0]) == d {
        assert w == [s[0]] + w0;
      } else {
        assert w == w0;
      }
      assert forall x :: x in s[1..] ==> x in s;
    }
  }

  /** Two elements with key `d`, at `i < j` in `s`, keep that order in `WithKey(s, key, d)`. */
  lemma WithKeyPair<T, K>(s: seq<T>, key: T -> K, d: K, i: int, j: int) returns (p: int, q: int)
    requires 0 <= i < j < |s| && key(s[i]) == d && key(s[j]) == d
    ensures 0 <= p < q < |WithKey(s, key, d)|
    ensures WithKey(s, key, d)[p] == s[i] && WithKey(s, key, d)[q] == s[j]
  {
    var a, b, c := s[..i], s[i..j], s[j..];
    assert s == a + b + c;
    WithKeyAppend(a + b, c, key, d);
    WithKeyAppend(a, b, key, d);
    assert b == [s[i]] + b[1..];
    assert c == [s[j]] + c[1..];
    var wa, wb, wc := WithKey(a, key, d), WithKey(b, key, d), WithKey(c, key, d);
    assert wb[0] == s[i];
    assert wc[0] == s[j];
    p := |wa|;
    q := |wa| + |wb|;
    assert WithKey(s, key, d) == wa + wb + wc;
  }

  /** Two stable sorts, the second by `key2`: equal `key2` elements stay ordered by `key1`. */
  lemma TwoStableSorts<T, K1(!new), K2(!new)>(s: seq<T>, key1: T -> K1, lt1: (K1, K1) -> bool, key2: T -> K2, lt2: (K2, K2) -> bool)
    requires StrictTotalOrder(lt1) && StrictTotalOrder(lt2)
    ensures var r := SortBy(SortBy(s, key1, lt1), key2, lt2);
      forall i, j :: 0 <= i < j < |r| && key2(r[i]) == key2(r[j]) ==> !lt1(key1(r[j]), key1(r[i]))
  {
    var r1 := SortBy(s, key1, lt1);
    var r := SortBy(r1, key2, lt2);
    forall i, j | 0 <= i < j < |r| && key2(r[i]) == key2(r[j]) ensures !lt1(key1(r[j]), key1(r[i])) {
      var d := key2(r[i]);
      SortByStable(r1, key2, lt2, d);
      WithKeyKeepsSorted(r1, key1, lt1, key2, d);
      var w := WithKey(r, key2, d);
      var p, q := WithKeyPair(r, key2, d, i, j);
    }
  }

  /** In a sequence without repeats every value occurs at most once. */
  lemma {:induction false} DistinctCount<T>(s: seq<T>, x: T)
    requires forall i, j :: 0 <= i < j < |s| ==> s[i] != s[j]
    ensures multiset(s)[x] <= 1
  {
    if |s| > 0 {
      assert s == [s[0]] + s[1..];
      DistinctCount(s[1..], x);
      assert s[0] !in s[1..];
    }
  }

  /** A permutation of a sequence without repeats has none either. */
  lemma PermKeepsDistinct<T>(a: seq<T>, b: seq<T>)
    requires multiset(a) == multiset(b)
    requires forall i, j :: 0 <= i < j < |a| ==> a[i] != a[j]
    ensures forall i, j :: 0 <= i < j < |b| ==> b[i] != b[j]
  {
    forall i, j | 0 <= i < j < |b| ensures b[i] != b[j] {
      assert b == b[..j] + b[j..];
      assert b[..j][i] == b[i];
      DistinctCount(a, b[i]);
      assert multiset(b)[b[i]] == multiset(b[..j])[b[i]] + multiset(b[j..])[b[i]];
      assert b[j..][0] == b[j];
    }
  }

  /** Permuting the inputs of a `FlatMap` permutes its output. */
  lemma {:induction false} FlatMapPerm<T, U>(a: seq<T>, b: seq<T>, f: T -> seq<U>)
    requires multiset(a) == multiset(b)
    ensures multiset(FlatMap(a, f)) == multiset(FlatMap(b, f))
  {
    if |a| > 0 {
      var k := PermPick(a, b);
      FlatMapPerm(a[1..], b[..k] + b[k + 1..], f);
      FlatMapSplit(b, k, f);
      FlatMapAppend(b[..k], b[k + 1..], f);
    } else {
      assert b == [];
    }
  }

  /** Where the first element of `a` sits in its permutation `b`; what is left
      of `b` without it is a permutation of the rest of `a`. */
  lemma PermPick<T>(a: seq<T>, b: seq<T>) returns (k: nat)
    requires multiset(a) == multiset(b) && |a| > 0
    ensures k < |b| && b[k] == a[0]
    ensures multiset(a[1..]) == multiset(b[..k] + b[k + 1..])
  {
    var x := a[0];
    assert x in multiset(b);
    k := IndexIn(b, x);
    var rest := b[..k] + b[k + 1..];
    MultisetAround(b, k);
    MultisetFront(a);
    assert multiset(rest) == multiset(b[..k]) + multiset(b[k + 1..]);
    forall y ensures multiset(a[1..])[y] == multiset(rest)[y] {
      assert multiset(a)[y] == multiset(b)[y];
    }
  }

  lemma MultisetAround<T>(s: seq<T>, i: nat)
    requires i < |s|
    ensures multiset(s) == multiset(s[..i]) + multiset{s[i]} + multiset(s[i + 1..])
  {
    SplitAround(s, i);
  }

  lemma MultisetFront<T>(s: seq<T>)
    requires |s| > 0
    ensures multiset(s) == multiset{s[0]} + multiset(s[1..])
  {
    assert s == [s[0]] + s[1..];
  }

  /** Permuting each output piece of a `FlatMap` in place permutes the whole. */
  lemma {:induction false} FlatMapPointwise<T, U>(a: seq<T>, b: seq<T>, f: T -> seq<U>)
    requires |a| == |b|
    requires forall i :: 0 <= i < |a| ==> multiset(f(a[i])) == multiset(f(b[i]))
    ensures multiset(FlatMap(a, f)) == multiset(FlatMap(b, f))
  {
    if |a| > 0 {
      FlatMapPointwise(a[1..], b[1..], f);
      assert multiset(f(a[0])) == multiset(f(b[0]));
    }
  }
}
