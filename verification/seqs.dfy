/** Sequence vocabulary shared by the pipelines: concatenation, Python-style
    slicing, filtering by a key, first-occurrence de-duplication and
    regrouping by key. */
module Seqs {
  import opened Wrappers

  /** Concatenation of a sequence of sequences, in order. */
  function Flatten<T>(ss: seq<seq<T>>): seq<T>
  {
    if |ss| == 0 then [] else ss[0] + Flatten(ss[1..])
  }

  lemma {:induction false} FlattenAppend<T>(a: seq<seq<T>>, b: seq<seq<T>>)
    ensures Flatten(a + b) == Flatten(a) + Flatten(b)
  {
    if |a| == 0 {
      assert a + b == b;
    } else {
      assert (a + b)[1..] == a[1..] + b;
      FlattenAppend(a[1..], b);
    }
  }

  /** `f` applied to every element, in order. */
  function Map<T, U>(s: seq<T>, f: T -> U): (r: seq<U>)
    ensures |r| == |s|
    ensures forall i :: 0 <= i < |s| ==> r[i] == f(s[i])
  {
    if |s| == 0 then [] else [f(s[0])] + Map(s[1..], f)
  }

  lemma {:induction false} MapAppend<T, U>(a: seq<T>, b: seq<T>, f: T -> U)
    ensures Map(a + b, f) == Map(a, f) + Map(b, f)
  {
    if |a| == 0 {
      assert a + b == b;
    } else {
      assert (a + b)[1..] == a[1..] + b;
      MapAppend(a[1..], b, f);
    }
  }

  /** `f` applied to every element, the results concatenated in order. */
  function FlatMap<T, U>(s: seq<T>, f: T -> seq<U>): seq<U>
  {
    if |s| == 0 then [] else f(s[0]) + FlatMap(s[1..], f)
  }

  lemma {:induction false} FlatMapAppend<T, U>(a: seq<T>, b: seq<T>, f: T -> seq<U>)
    ensures FlatMap(a + b, f) == FlatMap(a, f) + FlatMap(b, f)
  {
    if |a| == 0 {
      assert a + b == b;
    } else {
      assert (a + b)[1..] == a[1..] + b;
      FlatMapAppend(a[1..], b, f);
    }
  }

  lemma FlatMapSplit<T, U>(s: seq<T>, i: nat, f: T -> seq<U>)
    requires i < |s|
    ensures FlatMap(s, f) == FlatMap(s[..i], f) + f(s[i]) + FlatMap(s[i + 1..], f)
  {
    var a, t := s[..i], s[i + 1..];
    var b := [s[i]] + t;
    SplitAround(s, i);
    FlatMapAppend(a, b, f);
    assert b[0] == s[i] && b[1..] == t;
    assert FlatMap(b, f) == f(s[i]) + FlatMap(t, f);
    calc {
      FlatMap(a, f) + (f(s[i]) + FlatMap(t, f));
      FlatMap(a, f) + f(s[i]) + FlatMap(t, f);
    }
  }

  /** `s` is the part before index `i`, the element at `i`, and the part after it. */
  lemma SplitAround<T>(s: seq<T>, i: nat)
    requires i < |s|
    ensures s == s[..i] + ([s[i]] + s[i + 1..])
  {
  }

  /** The elements of `s` are those of its front and its last element. */
  lemma SplitLast<T>(s: seq<T>)
    requires |s| > 0
    ensures multiset(s) == multiset(s[..|s| - 1]) + multiset{s[|s| - 1]}
  {
    assert s == s[..|s| - 1] + [s[|s| - 1]];
  }

  /** Regrouping a five-part concatenation. */
  lemma Regroup5<T>(a: seq<T>, b: seq<T>, c: seq<T>, d: seq<T>, e: seq<T>)
    ensures a + b + c + d + e == a + (b + (c + d + e))
  {
  }

  /** Two adjacent slices from the front make a longer one. */
  lemma PrefixThenSlice<T>(s: seq<T>, i: nat, j: nat)
    requires i <= j <= |s|
    ensures s[..i] + s[i..j] == s[..j]
  {
  }

  /** A position of `x` in `ks`. */
  lemma IndexIn<K>(ks: seq<K>, x: K) returns (k: nat)
    requires x in ks
    ensures k < |ks| && ks[k] == x
  {
    k :| 0 <= k < |ks| && ks[k] == x;
  }

  /** Python's `s[:n]` for a non-negative `n`. */
  function Take<T>(s: seq<T>, n: nat): (r: seq<T>)
    ensures |r| == if n < |s| then n else |s|
    ensures r <= s
  {
    if n < |s| then s[..n] else s
  }

  /** Python's `s[-n:]` for a positive `n`: the last `n` elements, or all of them. */
  function Tail<T>(s: seq<T>, n: nat): (r: seq<T>)
    requires n > 0
    ensures |r| == if n < |s| then n else |s|
    ensures s == s[..|s| - |r|] + r
  {
    if n < |s| then s[|s| - n..] else s
  }

  /** The elements of `s` whose key is `k`, in their order in `s`. */
  function WithKey<T, K(==)>(s: seq<T>, key: T -> K, k: K): (r: seq<T>)
    ensures |r| <= |s|
    ensures forall i :: 0 <= i < |r| ==> key(r[i]) == k
  {
    if |s| == 0 then []
    else (if key(s[0]) == k then [s[0]] else []) + WithKey(s[1..], key, k)
  }

  lemma WithKeyCons<T, K>(y: T, t: seq<T>, key: T -> K, k: K)
    ensures WithKey([y] + t, key, k) == (if key(y) == k then [y] else []) + WithKey(t, key, k)
  {
    assert ([y] + t)[1..] == t;
  }

  lemma {:induction false} WithKeyAppend<T, K>(a: seq<T>, b: seq<T>, key: T -> K, k: K)
    ensures WithKey(a + b, key, k) == WithKey(a, key, k) + WithKey(b, key, k)
  {
    if |a| == 0 {
      assert a + b == b;
    } else {
      assert (a + b)[1..] == a[1..] + b;
      WithKeyAppend(a[1..], b, key, k);
    }
  }

  lemma {:induction false} WithKeyOfWithKey<T, K>(s: seq<T>, key: T -> K, k: K, k': K)
    ensures WithKey(WithKey(s, key, k), key, k') == if k == k' then WithKey(s, key, k) else []
  {
    if |s| > 0 {
      WithKeyOfWithKey(s[1..], key, k, k');
      var x := WithKey(s, key, k);
      if key(s[0]) == k {
        assert x == [s[0]] + WithKey(s[1..], key, k);
        assert x[1..] == WithKey(s[1..], key, k);
        assert WithKey(x, key, k') == (if key(x[0]) == k' then [x[0]] else []) + WithKey(x[1..], key, k');
      } else {
        assert x == WithKey(s[1..], key, k);
      }
    }
  }

  lemma {:induction false} WithKeyAbsent<T, K>(s: seq<T>, key: T -> K, k: K)
    requires forall i :: 0 <= i < |s| ==> key(s[i]) != k
    ensures WithKey(s, key, k) == []
  {
    if |s| > 0 {
      WithKeyAbsent(s[1..], key, k);
    }
  }

  /** `r` is `s` with some elements left out, the survivors kept in order; `idx` says where each came from. */
  ghost predicate SubseqAt<T>(r: seq<T>, s: seq<T>, idx: seq<nat>)
  {
    && |idx| == |r|
    && (forall j :: 0 <= j < |idx| ==> idx[j] < |s| && r[j] == s[idx[j]])
    && (forall j, j' :: 0 <= j < j' < |idx| ==> idx[j] < idx[j'])
  }

  /** The set of keys that occur in `s`. */
  function KeySet<T, K>(s: seq<T>, key: T -> K): set<K>
  {
    set i | 0 <= i < |s| :: key(s[i])
  }

  lemma KeySetSnoc<T, K>(s: seq<T>, x: T, key: T -> K)
    ensures KeySet(s + [x], key) == KeySet(s, key) + {key(x)}
  {
    var l := KeySet(s + [x], key);
    var rr := KeySet(s, key) + {key(x)};
    forall k | k in l ensures k in rr {
      var i :| 0 <= i < |s + [x]| && key((s + [x])[i]) == k;
      if i < |s| {
        assert key(s[i]) == k;
      }
    }
    forall k | k in rr ensures k in l {
      if k == key(x) {
        assert key((s + [x])[|s|]) == k;
      } else {
        var i :| 0 <= i < |s| && key(s[i]) == k;
        assert key((s + [x])[i]) == k;
      }
    }
  }

  /** Index `i` holds the first element of `s` carrying its key. */
  ghost predicate IsFirst<T, K>(s: seq<T>, key: T -> K, i: int)
  {
    0 <= i < |s| && forall j :: 0 <= j < i ==> key(s[j]) != key(s[i])
  }

  /** Keep the first element for each key, dropping later ones: the list-and-seen-set
      loop of the source, written as a function over ever longer prefixes. */
  function Dedup<T, K(==)>(s: seq<T>, key: T -> K): (r: seq<T>)
    ensures |r| <= |s|
    ensures forall j :: 0 <= j < |r| ==> r[j] in s
    ensures KeySet(r, key) == KeySet(s, key)
    ensures forall i, j :: 0 <= i < j < |r| ==> key(r[i]) != key(r[j])
  {
    if |s| == 0 then []
    else
      var init := s[..|s| - 1];
      var x := s[|s| - 1];
      var d := Dedup(init, key);
      KeySetSnoc(init, x, key);
      assert s == init + [x];
      if key(x) in KeySet(init, key) then d
      else
        KeySetSnoc(d, x, key);
        d + [x]
  }

  /** One more element whose key is new: `Dedup` keeps it. */
  lemma DedupKeep<T, K>(s: seq<T>, key: T -> K, i: nat)
    requires i < |s| && key(s[i]) !in KeySet(s[..i], key)
    ensures KeySet(s[..i + 1], key) == KeySet(s[..i], key) + {key(s[i])}
    ensures Dedup(s[..i + 1], key) == Dedup(s[..i], key) + [s[i]]
  {
    assert s[..i + 1] == s[..i] + [s[i]];
    assert s[..i + 1][..i] == s[..i];
    KeySetSnoc(s[..i], s[i], key);
  }

  /** One more element whose key was seen: `Dedup` drops it. */
  lemma DedupSkip<T, K>(s: seq<T>, key: T -> K, i: nat)
    requires i < |s| && key(s[i]) in KeySet(s[..i], key)
    ensures KeySet(s[..i + 1], key) == KeySet(s[..i], key)
    ensures Dedup(s[..i + 1], key) == Dedup(s[..i], key)
  {
    assert s[..i + 1] == s[..i] + [s[i]];
    assert s[..i + 1][..i] == s[..i];
    KeySetSnoc(s[..i], s[i], key);
  }

  /** The seen-set loop: walk `s`, giving up (`None`) at the first element that
      `has` rejects, and otherwise keeping each element whose key is not yet seen. */
  method FirstPerKey<T, K(==)>(s: seq<T>, has: T -> bool, key: T -> K) returns (r: Option<seq<T>>)
    ensures r.None? <==> exists i :: 0 <= i < |s| && !has(s[i])
    ensures r.Some? ==> r.value == Dedup(s, key)
  {
    var seen: set<K> := {};
    var kept: seq<T> := [];
    var i := 0;
    while i < |s|
      invariant 0 <= i <= |s|
      invariant forall j :: 0 <= j < i ==> has(s[j])
      invariant seen == KeySet(s[..i], key)
      invariant kept == Dedup(s[..i], key)
    {
      if !has(s[i]) {
        return None;
      }
      if key(s[i]) !in seen {
        DedupKeep(s, key, i);
        seen := seen + {key(s[i])};
        kept := kept + [s[i]];
      } else {
        DedupSkip(s, key, i);
      }
      i := i + 1;
    }
    assert s[..i] == s;
    return Some(kept);
  }

  /** `Dedup` is exactly the subsequence of first occurrences. */
  lemma {:induction false} DedupIsFirstOccurrences<T, K>(s: seq<T>, key: T -> K) returns (idx: seq<nat>)
    ensures SubseqAt(Dedup(s, key), s, idx)
    ensures forall j :: 0 <= j < |idx| ==> IsFirst(s, key, idx[j])
    ensures forall i :: IsFirst(s, key, i) ==> i in idx
  {
    if |s| == 0 {
      idx := [];
    } else {
      var init := s[..|s| - 1];
      var x := s[|s| - 1];
      assert s == init + [x];
      var idx0 := DedupIsFirstOccurrences(init, key);
      SubseqAtSnoc(Dedup(init, key), init, idx0, x);
      FirstOfPrefix(s, key);
      if key(x) in KeySet(init, key) {
        idx := idx0;
        var w :| 0 <= w < |init| && key(init[w]) == key(x);
        assert key(s[w]) == key(s[|s| - 1]);
        assert !IsFirst(s, key, |s| - 1);
      } else {
        idx := idx0 + [|s| - 1];
        forall j | 0 <= j < |s| - 1 ensures key(s[j]) != key(s[|s| - 1]) {
          assert key(init[j]) in KeySet(init, key);
        }
        assert IsFirst(s, key, |s| - 1);
      }
    }
  }

  /** A subsequence of `init` is one of `init + [x]`, and stays one when `x` is added to both. */
  lemma SubseqAtSnoc<T>(r: seq<T>, init: seq<T>, idx: seq<nat>, x: T)
    requires SubseqAt(r, init, idx)
    ensures SubseqAt(r, init + [x], idx)
    ensures SubseqAt(r + [x], init + [x], idx + [|init|])
  {
    var s := init + [x];
    forall j | 0 <= j < |idx| ensures idx[j] < |s| && r[j] == s[idx[j]] {
      assert s[idx[j]] == init[idx[j]];
    }
    var r', idx' := r + [x], idx + [|init|];
    forall j | 0 <= j < |idx'| ensures idx'[j] < |s| && r'[j] == s[idx'[j]] {
      if j < |idx| {
        assert r'[j] == r[j] && idx'[j] == idx[j];
      }
    }
  }

  /** Being the first occurrence in `s` and in `s` without its last element agree below the end. */
  lemma FirstOfPrefix<T, K>(s: seq<T>, key: T -> K)
    requires |s| > 0
    ensures forall i :: 0 <= i < |s| - 1 ==> (IsFirst(s[..|s| - 1], key, i) <==> IsFirst(s, key, i))
  {
    var init := s[..|s| - 1];
    forall i | 0 <= i < |s| - 1 ensures IsFirst(init, key, i) <==> IsFirst(s, key, i) {
      assert forall j :: 0 <= j <= i ==> init[j] == s[j];
    }
  }

  /** The keys of `s` in order of first appearance. */
  function FirstKeys<T, K(==)>(s: seq<T>, key: T -> K): (ks: seq<K>)
    ensures forall i, j :: 0 <= i < j < |ks| ==> ks[i] != ks[j]
    ensures forall i :: 0 <= i < |s| ==> key(s[i]) in ks
    ensures forall j :: 0 <= j < |ks| ==> ks[j] in KeySet(s, key)
  {
    var d := Dedup(s, key);
    var ks := seq(|d|, i requires 0 <= i < |d| => key(d[i]));
    forall i | 0 <= i < |s| ensures key(s[i]) in ks {
      assert key(s[i]) in KeySet(s, key);
      var j :| 0 <= j < |d| && key(d[j]) == key(s[i]);
      assert ks[j] == key(s[i]);
    }
    ks
  }

  /** For each key of `ks` in turn, every element of `s` with that key in `s`'s order. */
  function Regroup<T, K(==)>(s: seq<T>, key: T -> K, ks: seq<K>): seq<T>
  {
    if |ks| == 0 then [] else WithKey(s, key, ks[0]) + Regroup(s, key, ks[1..])
  }

  /** Regrouping over distinct keys keeps each chosen key's elements in input order and drops the rest. */
  lemma {:induction false} RegroupWithKey<T, K>(s: seq<T>, key: T -> K, ks: seq<K>, k: K)
    requires forall i, j :: 0 <= i < j < |ks| ==> ks[i] != ks[j]
    ensures WithKey(Regroup(s, key, ks), key, k) == if k in ks then WithKey(s, key, k) else []
  {
    if |ks| > 0 {
      RegroupWithKey(s, key, ks[1..], k);
      WithKeyAppend(WithKey(s, key, ks[0]), Regroup(s, key, ks[1..]), key, k);
      WithKeyOfWithKey(s, key, ks[0], k);
      if k == ks[0] {
        assert k !in ks[1..];
      }
    }
  }

  /** The elements satisfying `p`, in order. */
  function Filter<T>(s: seq<T>, p: T -> bool): (r: seq<T>)
    ensures |r| <= |s|
    ensures forall j :: 0 <= j < |r| ==> p(r[j]) && r[j] in s
    ensures forall i :: 0 <= i < |s| && p(s[i]) ==> s[i] in r
  {
    if |s| == 0 then []
    else
      var rest := Filter(s[1..], p);
      assert forall i :: 1 <= i < |s| ==> s[i] == s[1..][i - 1];
      if p(s[0]) then [s[0]] + rest else rest
  }

  lemma {:induction false} FilterAppend<T>(a: seq<T>, b: seq<T>, p: T -> bool)
    ensures Filter(a + b, p) == Filter(a, p) + Filter(b, p)
  {
    if |a| == 0 {
      assert a + b == b;
    } else {
      assert (a + b)[1..] == a[1..] + b;
      FilterAppend(a[1..], b, p);
    }
  }

  /** Filtering keeps keys pairwise distinct. */
  lemma {:induction false} FilterKeepsDistinct<T, K>(s: seq<T>, p: T -> bool, key: T -> K)
    requires forall i, j :: 0 <= i < j < |s| ==> key(s[i]) != key(s[j])
    ensures forall i, j :: 0 <= i < j < |Filter(s, p)| ==> key(Filter(s, p)[i]) != key(Filter(s, p)[j])
  {
    if |s| > 0 {
      var tail := s[1..];
      FilterKeepsDistinct(tail, p, key);
      var rest := Filter(tail, p);
      forall j | 0 <= j < |rest| ensures key(rest[j]) != key(s[0]) {
        var m :| 0 <= m < |tail| && tail[m] == rest[j];
        assert tail[m] == s[m + 1];
      }
      var r := Filter(s, p);
      if p(s[0]) {
        assert r == [s[0]] + rest;
        forall i, j | 0 <= i < j < |r| ensures key(r[i]) != key(r[j]) {
          if i == 0 {
            assert r[j] == rest[j - 1];
          } else {
            assert r[i] == rest[i - 1] && r[j] == rest[j - 1];
          }
        }
      } else {
        assert r == rest;
      }
    }
  }

  // ------------------------------------------------- insertion-ordered dicts

  /** The keys of an insertion-ordered dict, in order. */
  function Keys<K, V>(d: seq<(K, V)>): (ks: seq<K>)
    ensures |ks| == |d|
  {
    seq(|d|, i requires 0 <= i < |d| => d[i].0)
  }

  ghost predicate DistinctKeys<K, V>(d: seq<(K, V)>)
  {
    forall i, j :: 0 <= i < j < |d| ==> d[i].0 != d[j].0
  }

  /** Position of `k` among the keys, or the length when absent. */
  function IndexOfKey<K(==), V>(d: seq<(K, V)>, k: K): (i: nat)
    ensures i <= |d|
    ensures forall j :: 0 <= j < i ==> d[j].0 != k
    ensures i < |d| ==> d[i].0 == k
  {
    if |d| == 0 then 0
    else if d[0].0 == k then 0
    else 1 + IndexOfKey(d[1..], k)
  }

  /** `d.get(k)` */
  function Lookup<K(==), V>(d: seq<(K, V)>, k: K): Option<V>
  {
    var i := IndexOfKey(d, k);
    if i < |d| then Some(d[i].1) else None
  }

  /** `d[k] = v`: an existing key keeps its place, a new one goes last. */
  function Put<K(==), V>(d: seq<(K, V)>, k: K, v: V): seq<(K, V)>
  {
    var i := IndexOfKey(d, k);
    if i < |d| then d[i := (k, v)] else d + [(k, v)]
  }

  /** Assignment keeps keys distinct, makes `k` map to `v`, leaves every other
      key's value alone, and appends `k` to the key order only when new. */
  lemma PutSpec<K, V>(d: seq<(K, V)>, k: K, v: V)
    requires DistinctKeys(d)
    ensures DistinctKeys(Put(d, k, v))
    ensures forall k' :: Lookup(Put(d, k, v), k') == if k' == k then Some(v) else Lookup(d, k')
    ensures Keys(Put(d, k, v)) == if k in Keys(d) then Keys(d) else Keys(d) + [k]
  {
    var r := Put(d, k, v);
    var i := IndexOfKey(d, k);
    forall k' ensures Lookup(r, k') == if k' == k then Some(v) else Lookup(d, k') {
      var j := IndexOfKey(d, k');
      var j' := IndexOfKey(r, k');
      if i < |d| {
        assert forall m :: 0 <= m < |d| ==> r[m].0 == d[m].0;
      } else {
        assert forall m :: 0 <= m < |d| ==> r[m] == d[m];
        if k' == k {
          assert r[|d|].0 == k;
        }
      }
    }
    if i < |d| {
      assert Keys(d)[i] == k;
    } else {
      assert forall m :: 0 <= m < |d| ==> Keys(d)[m] != k;
    }
  }
}
