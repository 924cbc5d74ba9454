/** Python's `sorted(xs, key=..., reverse=True)` and `xs.sort(key=..., reverse=True)`:
    a stable sort into non-increasing key order. Python keeps equal keys in
    their original order even with `reverse=True`, so the result is the
    unique arrangement that orders positions by (key descending, position
    ascending). It is computed here as a ranking of positions built by
    insertion, and proved to be a permutation that is sorted and stable. */
module Sorting {

  /** Position `i` goes before position `j`: a strictly larger key, or an
      equal key and an earlier position. */
  predicate Ahead(keys: seq<real>, i: nat, j: nat) {
    i < |keys| && j < |keys| && (keys[i] > keys[j] || (keys[i] == keys[j] && i < j))
  }

  /** `p` lists positions of `keys`, each one ahead of every later one. */
  ghost predicate Ranked(keys: seq<real>, p: seq<nat>) {
    && (forall a :: 0 <= a < |p| ==> p[a] < |keys|)
    && (forall a, b :: 0 <= a < b < |p| ==> Ahead(keys, p[a], p[b]))
  }

  /** `p` is a permutation of 0 .. n-1. */
  ghost predicate IsPermutation(p: seq<nat>, n: nat) {
    && |p| == n
    && (forall a :: 0 <= a < |p| ==> p[a] < n)
    && (forall a, b :: 0 <= a < b < |p| ==> p[a] != p[b])
    && (forall j :: 0 <= j < n ==> j in p)
  }

  /** Where position `j` goes in the ranked list `p`: after every position
      whose key is at least `keys[j]`. */
  function InsertPos(keys: seq<real>, p: seq<nat>, j: nat): (k: nat)
    requires j < |keys|
    requires forall a :: 0 <= a < |p| ==> p[a] < |keys|
    ensures k <= |p|
    ensures forall a :: 0 <= a < k ==> keys[p[a]] >= keys[j]
    ensures k < |p| ==> keys[p[k]] < keys[j]
  {
    if p == [] || keys[p[0]] < keys[j] then 0 else 1 + InsertPos(keys, p[1..], j)
  }

  /** Insert position `j`, larger than every position already ranked. */
  function Insert(keys: seq<real>, p: seq<nat>, j: nat): (r: seq<nat>)
    requires j < |keys|
    requires Ranked(keys, p)
    requires forall a :: 0 <= a < |p| ==> p[a] < j
    ensures Ranked(keys, r)
    ensures |r| == |p| + 1
    ensures forall x :: x in r <==> x in p || x == j
  {
    var k := InsertPos(keys, p, j);
    var r := p[..k] + [j] + p[k..];
    assert forall a :: 0 <= a < k ==> r[a] == p[a];
    assert r[k] == j;
    assert forall a :: k < a < |r| ==> r[a] == p[a - 1];
    assert forall a :: k <= a < |p| ==> keys[p[a]] < keys[j] by {
      forall a | k <= a < |p| ensures keys[p[a]] < keys[j] {
        if a > k { assert Ahead(keys, p[k], p[a]); }
      }
    }
    r
  }

  /** The ranking of positions 0 .. n-1. */
  function RankPrefix(keys: seq<real>, n: nat): (p: seq<nat>)
    requires n <= |keys|
    ensures Ranked(keys, p)
    ensures |p| == n
    ensures forall x: int :: x in p <==> 0 <= x < n
  {
    if n == 0 then []
    else
      var q := RankPrefix(keys, n - 1);
      assert forall a :: 0 <= a < |q| ==> q[a] in q;
      Insert(keys, q, n - 1)
  }

  /** The order in which a stable descending sort visits the positions of `keys`. */
  function StableRank(keys: seq<real>): (p: seq<nat>)
    ensures Ranked(keys, p)
    ensures IsPermutation(p, |keys|)
  {
    var p := RankPrefix(keys, |keys|);
    assert forall a, b :: 0 <= a < b < |p| ==> Ahead(keys, p[a], p[b]);
    p
  }

  function KeysOf<T>(xs: seq<T>, key: T -> real): (ks: seq<real>)
    ensures |ks| == |xs|
    ensures forall i :: 0 <= i < |xs| ==> ks[i] == key(xs[i])
  {
    seq(|xs|, i requires 0 <= i < |xs| => key(xs[i]))
  }

  /** Where each element of the sorted list came from. */
  function SortOrder<T>(xs: seq<T>, key: T -> real): (p: seq<nat>)
    ensures IsPermutation(p, |xs|)
    ensures forall a, b :: 0 <= a < b < |p| ==> Ahead(KeysOf(xs, key), p[a], p[b])
  {
    StableRank(KeysOf(xs, key))
  }

  function Permute<T>(xs: seq<T>, p: seq<nat>): (r: seq<T>)
    requires forall a :: 0 <= a < |p| ==> p[a] < |xs|
    ensures |r| == |p|
    ensures forall a :: 0 <= a < |p| ==> r[a] == xs[p[a]]
  {
    seq(|p|, a requires 0 <= a < |p| => xs[p[a]])
  }

  /** `sorted(xs, key=key, reverse=True)`. */
  function SortDesc<T>(xs: seq<T>, key: T -> real): (r: seq<T>)
    ensures |r| == |xs|
    ensures forall i, j :: 0 <= i < j < |r| ==> key(r[i]) >= key(r[j])
    ensures multiset(r) == multiset(xs)
  {
    var p := SortOrder(xs, key);
    var r := Permute(xs, p);
    forall i, j | 0 <= i < j < |r| ensures key(r[i]) >= key(r[j]) {
      assert Ahead(KeysOf(xs, key), p[i], p[j]);
    }
    PermuteRankMultiset(xs, KeysOf(xs, key), |xs|);
    assert p == RankPrefix(KeysOf(xs, key), |xs|);
    assert xs[..|xs|] == xs;
    r
  }

  /** Stability: elements with equal keys keep their relative input order. */
  lemma SortDescStable<T>(xs: seq<T>, key: T -> real, i: nat, j: nat)
    requires i < j < |xs|
    requires key(SortDesc(xs, key)[i]) == key(SortDesc(xs, key)[j])
    ensures SortOrder(xs, key)[i] < SortOrder(xs, key)[j]
    ensures SortDesc(xs, key)[i] == xs[SortOrder(xs, key)[i]]
    ensures SortDesc(xs, key)[j] == xs[SortOrder(xs, key)[j]]
  {
    var p := SortOrder(xs, key);
    assert Ahead(KeysOf(xs, key), p[i], p[j]);
  }

  /** Every element of the sorted list is the input element at the position
      `SortOrder` names, and every input position appears exactly once. */
  lemma SortDescOrigin<T>(xs: seq<T>, key: T -> real)
    ensures forall a :: 0 <= a < |xs| ==> SortDesc(xs, key)[a] == xs[SortOrder(xs, key)[a]]
  {
  }

  /** Whatever `pool` holds beyond `kept` (counting repeats) ranks no
      higher than anything in `kept`. */
  ghost predicate KeepsBest<T>(kept: seq<T>, pool: seq<T>, key: T -> real) {
    forall x, a :: x in pool && 0 <= a < |kept| && multiset(kept)[x] < multiset(pool)[x] ==> key(x) <= key(kept[a])
  }

  /** Cutting the sorted list after `n` elements keeps the best. */
  lemma SortedPrefixKeepsBest<T>(xs: seq<T>, key: T -> real, n: nat)
    requires n <= |xs|
    ensures KeepsBest(SortDesc(xs, key)[..n], xs, key)
  {
    var s := SortDesc(xs, key);
    assert s == s[..n] + s[n..];
    assert multiset(s) == multiset(s[..n]) + multiset(s[n..]);
    forall x, a | x in xs && 0 <= a < n && multiset(s[..n])[x] < multiset(xs)[x] ensures key(x) <= key(s[..n][a]) {
      assert x in s[n..];
      var b :| n <= b < |s| && s[b] == x;
    }
  }

  /** Applying the insertion ranking of a prefix keeps the multiset of that prefix. */
  lemma {:induction false} PermuteRankMultiset<T>(xs: seq<T>, keys: seq<real>, n: nat)
    requires |keys| == |xs| && n <= |xs|
    ensures multiset(Permute(xs, RankPrefix(keys, n))) == multiset(xs[..n])
  {
    if n > 0 {
      PermuteRankMultiset(xs, keys, n - 1);
      var p := RankPrefix(keys, n - 1);
      var k := InsertPos(keys, p, n - 1);
      var q := RankPrefix(keys, n);
      assert q == p[..k] + [n - 1] + p[k..];
      PermuteSplit(xs, p, k, n - 1);
      assert xs[..n] == xs[..n - 1] + [xs[n - 1]];
    }
  }

  lemma PermuteSplit<T>(xs: seq<T>, p: seq<nat>, k: nat, j: nat)
    requires forall a :: 0 <= a < |p| ==> p[a] < |xs|
    requires k <= |p| && j < |xs|
    ensures multiset(Permute(xs, p[..k] + [j] + p[k..])) == multiset(Permute(xs, p)) + multiset{xs[j]}
  {
    var l, m := Permute(xs, p[..k]), Permute(xs, p[k..]);
    assert Permute(xs, p[..k] + [j] + p[k..]) == l + [xs[j]] + m;
    assert Permute(xs, p) == l + m;
  }
}
