/** Hybrid retrieval: the dense and the lexical result lists are min-max
    normalized separately, merged by item id with weights 0.7 (dense) and
    0.3 (lexical), sorted by fused score and cut to `top_k`. The two result
    lists are parameters: what the dense and the lexical retrievers returned
    for the query. */
module HybridSearch {
  import opened Builtins
  import opened Sorting
  import FaissSearch
  import Bm25Search

  const FaissWeight: real := 0.7
  const Bm25Weight: real := 0.3

  /** A fused candidate `{score, metadata, category}`; the reranker later
      attaches `rerank_score` to it. */
  datatype Candidate = Candidate(score: real, metadata: Metadata, category: string, rerankScore: Option<real>)

  function CandidateScore(c: Candidate): real {
    c.score
  }

  // ---------------------------------------------------------------------
  // Min-max normalization
  // ---------------------------------------------------------------------

  predicate AllEqual(s: seq<real>) {
    forall i, j :: 0 <= i < |s| && 0 <= j < |s| ==> s[i] == s[j]
  }

  /** `min_max_normalize`: an empty list is returned as is, a flat list maps
      to all 1.0, any other list is rescaled into [0, 1] keeping its order. */
  function MinMaxNormalize(scores: seq<real>): (r: seq<real>)
    ensures |r| == |scores|
    ensures AllEqual(scores) ==> forall i :: 0 <= i < |r| ==> r[i] == 1.0
    ensures forall i :: 0 <= i < |r| ==> 0.0 <= r[i] <= 1.0
  {
    if scores == [] then scores
    else
      var lo, hi := MinOf(scores), MaxOf(scores);
      if hi == lo then seq(|scores|, _ => 1.0) else Rescale(scores, lo, hi)
  }

  /** `(s - lo) / (hi - lo)` for every score between `lo` and `hi`. */
  function Rescale(scores: seq<real>, lo: real, hi: real): (r: seq<real>)
    requires lo < hi && forall x :: x in scores ==> lo <= x <= hi
    ensures |r| == |scores|
    ensures forall i :: 0 <= i < |r| ==> r[i] == (scores[i] - lo) / (hi - lo)
    ensures forall i :: 0 <= i < |r| ==> 0.0 <= r[i] <= 1.0
  {
    var r := seq(|scores|, i requires 0 <= i < |scores| => (scores[i] - lo) / (hi - lo));
    forall i | 0 <= i < |r| ensures 0.0 <= r[i] <= 1.0 {
      assert scores[i] in scores;
      Ratio(scores[i] - lo, hi - lo);
    }
    r
  }

  /** Normalization keeps the order of the scores. */
  lemma NormalizeMonotone(scores: seq<real>, i: nat, j: nat)
    requires i < |scores| && j < |scores| && scores[i] <= scores[j]
    ensures MinMaxNormalize(scores)[i] <= MinMaxNormalize(scores)[j]
  {
    if scores != [] && MinOf(scores) < MaxOf(scores) {
      NormalizeIsRescale(scores);
      RescaleMonotone(scores, MinOf(scores), MaxOf(scores), i, j);
    }
  }

  lemma RescaleMonotone(scores: seq<real>, lo: real, hi: real, i: nat, j: nat)
    requires lo < hi && forall x :: x in scores ==> lo <= x <= hi
    requires i < |scores| && j < |scores| && scores[i] <= scores[j]
    ensures Rescale(scores, lo, hi)[i] <= Rescale(scores, lo, hi)[j]
  {
    RatioMonotone(scores[i] - lo, scores[j] - lo, hi - lo);
  }

  lemma Ratio(a: real, d: real)
    requires 0.0 <= a <= d && 0.0 < d
    ensures 0.0 <= a / d <= 1.0
  {
    assert a / d * d == a;
  }

  lemma RatioMonotone(a: real, b: real, d: real)
    requires a <= b && 0.0 < d
    ensures a / d <= b / d
  {
    assert a / d * d == a && b / d * d == b;
  }

  lemma RescaledZero(x: real, lo: real, hi: real, q: real)
    requires lo < hi && q == (x - lo) / (hi - lo)
    ensures q == 0.0 <==> x == lo
  {
    assert q * (hi - lo) == x - lo;
  }

  lemma DivSelf(d: real)
    requires d != 0.0
    ensures d / d == 1.0
  {
  }

  lemma RescaledOne(x: real, lo: real, hi: real, q: real)
    requires lo < hi && q == (x - lo) / (hi - lo)
    ensures q == 1.0 <==> x == hi
  {
    assert q * (hi - lo) == x - lo;
    if x == hi {
      DivSelf(hi - lo);
    }
  }

  /** When the scores are not all equal, exactly the minima map to 0. */
  lemma NormalizeMinimum(scores: seq<real>, i: nat)
    requires scores != [] && MinOf(scores) < MaxOf(scores) && i < |scores|
    ensures MinMaxNormalize(scores)[i] == 0.0 <==> scores[i] == MinOf(scores)
  {
    NormalizeIsRescale(scores);
    RescaleExtremes(scores, MinOf(scores), MaxOf(scores), i);
  }

  /** When the scores are not all equal, exactly the maxima map to 1. */
  lemma NormalizeMaximum(scores: seq<real>, i: nat)
    requires scores != [] && MinOf(scores) < MaxOf(scores) && i < |scores|
    ensures MinMaxNormalize(scores)[i] == 1.0 <==> scores[i] == MaxOf(scores)
  {
    NormalizeIsRescale(scores);
    RescaleExtremes(scores, MinOf(scores), MaxOf(scores), i);
  }

  /** On a list that is not flat, each score `s` becomes
      `(s - min) / (max - min)`. */
  lemma NormalizeIsRescale(scores: seq<real>)
    requires scores != [] && MinOf(scores) < MaxOf(scores)
    ensures MinMaxNormalize(scores) == Rescale(scores, MinOf(scores), MaxOf(scores))
  {
  }

  lemma RescaleExtremes(scores: seq<real>, lo: real, hi: real, i: nat)
    requires lo < hi && forall x :: x in scores ==> lo <= x <= hi
    requires i < |scores|
    ensures Rescale(scores, lo, hi)[i] == 0.0 <==> scores[i] == lo
    ensures Rescale(scores, lo, hi)[i] == 1.0 <==> scores[i] == hi
  {
    RescaledZero(scores[i], lo, hi, Rescale(scores, lo, hi)[i]);
    RescaledOne(scores[i], lo, hi, Rescale(scores, lo, hi)[i]);
  }

  /** A list that is not flat has its minimum below its maximum. */
  lemma NotFlat(scores: seq<real>)
    requires !AllEqual(scores)
    ensures scores != [] && MinOf(scores) < MaxOf(scores)
  {
    var j, k :| 0 <= j < |scores| && 0 <= k < |scores| && scores[j] != scores[k];
    assert scores[j] in scores && scores[k] in scores;
  }

  /** Dense scores 0.9, 0.5, 0.5 become 1, 0, 0; flat lexical scores 4, 4, 4 become 1, 1, 1. */
  lemma NormalizeExamples()
    ensures MinMaxNormalize([0.9, 0.5, 0.5]) == [1.0, 0.0, 0.0]
    ensures MinMaxNormalize([4.0, 4.0, 4.0]) == [1.0, 1.0, 1.0]
  {
    var s := [0.9, 0.5, 0.5];
    assert s[0] in s && s[1] in s;
    assert MinOf(s) == 0.5 && MaxOf(s) == 0.9;
    var r := MinMaxNormalize(s);
    assert r[0] == 1.0 && r[1] == 0.0 && r[2] == 0.0;
    var t := [4.0, 4.0, 4.0];
    assert AllEqual(t);
    assert MinMaxNormalize(t)[0] == 1.0;
  }

  // ---------------------------------------------------------------------
  // Dictionaries keyed by item id
  // ---------------------------------------------------------------------

  /** A Python dict from item id to candidate: keys in insertion order;
      assigning to a present key replaces its value and keeps its place. */
  datatype Dict = Dict(keys: seq<string>, vals: map<string, Candidate>)

  /** No key twice, and the order lists exactly the keys of the map. */
  ghost predicate Valid(d: Dict) {
    Distinct(d.keys) && forall k :: k in d.vals <==> k in d.keys
  }

  predicate Distinct(s: seq<string>) {
    forall i, j :: 0 <= i < j < |s| ==> s[i] != s[j]
  }

  /** A valid dict has every listed key in its map, each listed once. */
  lemma ValidListed(d: Dict)
    requires Valid(d)
    ensures Listed(d) && Distinct(d.keys)
  {
    forall i | 0 <= i < |d.keys| ensures d.keys[i] in d.vals {
      assert d.keys[i] in d.keys;
    }
  }

  lemma DistinctAppend(a: seq<string>, b: seq<string>)
    requires Distinct(a) && Distinct(b)
    requires forall x :: x in a ==> x !in b
    ensures Distinct(a + b)
  {
    forall i, j | 0 <= i < j < |a + b| ensures (a + b)[i] != (a + b)[j] {
      if i < |a| && j >= |a| {
        assert (a + b)[i] in a && (a + b)[j] == b[j - |a|];
      } else if i >= |a| {
        assert (a + b)[i] == b[i - |a|] && (a + b)[j] == b[j - |a|];
      }
    }
  }

  /** `d[k] = v`: the key now holds `v`; a key already present keeps its
      place in the order, a new key goes last. */
  function Put(d: Dict, k: string, v: Candidate): (r: Dict)
    ensures r.vals == d.vals[k := v]
    ensures k in d.vals ==> r.keys == d.keys
    ensures k !in d.vals ==> r.keys == d.keys + [k]
  {
    if k in d.vals then Dict(d.keys, d.vals[k := v]) else Dict(d.keys + [k], d.vals[k := v])
  }

  /** Assignment keeps a dict well formed. */
  lemma PutValid(d: Dict, k: string, v: Candidate)
    requires Valid(d)
    ensures Valid(Put(d, k, v))
  {
  }

  /** `d.values()`, in key order. */
  function Values(d: Dict): (vs: seq<Candidate>)
    requires Valid(d)
    ensures |vs| == |d.keys|
    ensures forall i :: 0 <= i < |vs| ==> vs[i] == d.vals[d.keys[i]]
  {
    seq(|d.keys|, i requires 0 <= i < |d.keys| => d.vals[d.keys[i]])
  }

  /** Entry `i` is the last one with id `k`. */
  ghost predicate LastFor(entries: seq<(string, Candidate)>, k: string, i: int) {
    && 0 <= i < |entries| && entries[i].0 == k
    && forall j :: i < j < |entries| ==> entries[j].0 != k
  }

  /** The ids occurring in `entries`. */
  function Ids(entries: seq<(string, Candidate)>): set<string> {
    set i | 0 <= i < |entries| :: entries[i].0
  }

  /** `d = {}; for k, v in entries: d[k] = v`: the keys are the ids, and a
      repeated id holds its last value. */
  function ToDict(entries: seq<(string, Candidate)>): (d: Dict)
    ensures Valid(d)
    ensures d.vals.Keys == Ids(entries)
    ensures forall k :: k in d.vals ==> exists i :: LastFor(entries, k, i) && d.vals[k] == entries[i].1
  {
    if entries == [] then Dict([], map[])
    else
      var init := entries[..|entries| - 1];
      var (k, v) := entries[|entries| - 1];
      var d := ToDict(init);
      var r := Put(d, k, v);
      PutValid(d, k, v);
      IdsSnoc(entries);
      forall x | x in r.vals ensures exists i :: LastFor(entries, x, i) && r.vals[x] == entries[i].1 {
        if x == k {
          assert LastFor(entries, x, |entries| - 1);
        } else {
          var i :| LastFor(init, x, i) && d.vals[x] == init[i].1;
          LastForSnoc(entries, x, i);
        }
      }
      r
  }

  /** Building from one more entry is one more assignment. */
  lemma ToDictStep(entries: seq<(string, Candidate)>, i: nat)
    requires i < |entries|
    ensures ToDict(entries[..i + 1]) == Put(ToDict(entries[..i]), entries[i].0, entries[i].1)
  {
    assert entries[..i + 1][..i] == entries[..i];
  }

  /** The ids of `entries` in order, repeats included. */
  function IdSeq(entries: seq<(string, Candidate)>): (ids: seq<string>)
    ensures |ids| == |entries| && forall i :: 0 <= i < |entries| ==> ids[i] == entries[i].0
  {
    seq(|entries|, i requires 0 <= i < |entries| => entries[i].0)
  }

  /** Where `k` first occurs in `ids`. */
  function FirstIndex(ids: seq<string>, k: string): (i: nat)
    requires k in ids
    ensures i < |ids| && ids[i] == k
    ensures forall j :: 0 <= j < i ==> ids[j] != k
  {
    if ids[0] == k then 0 else 1 + FirstIndex(ids[1..], k)
  }

  /** A first occurrence inside a prefix is the first occurrence overall. */
  lemma FirstIndexPrefix(ids: seq<string>, n: nat, k: string)
    requires n <= |ids| && k in ids[..n]
    ensures k in ids && FirstIndex(ids[..n], k) == FirstIndex(ids, k)
  {
    var a := FirstIndex(ids[..n], k);
    assert ids[a] == k;
    var b := FirstIndex(ids, k);
    assert b <= a;
    assert ids[..n][b] == k;
  }

  /** Every key occurs in `ids`, and the keys are ordered by where they
      first occur there. */
  ghost predicate InFirstOrder(keys: seq<string>, ids: seq<string>) {
    && (forall a :: 0 <= a < |keys| ==> keys[a] in ids)
    && (forall a, b :: 0 <= a < b < |keys| ==> FirstIndex(ids, keys[a]) < FirstIndex(ids, keys[b]))
  }

  /** Another occurrence at the end moves no first occurrence, and a key
      occurring for the first time can go last. */
  lemma FirstOrderSnoc(keys: seq<string>, ids: seq<string>, k: string)
    requires InFirstOrder(keys, ids)
    ensures InFirstOrder(keys, ids + [k])
    ensures k !in ids ==> InFirstOrder(keys + [k], ids + [k])
  {
    var ext := ids + [k];
    assert ext[..|ids|] == ids;
    forall a | 0 <= a < |keys| ensures keys[a] in ext && FirstIndex(ext, keys[a]) == FirstIndex(ids, keys[a]) < |ids| {
      FirstIndexPrefix(ext, |ids|, keys[a]);
    }
    if k !in ids {
      assert FirstIndex(ext, k) == |ids| by {
        assert forall j :: 0 <= j < |ids| ==> ext[j] == ids[j];
      }
    }
  }

  lemma IdSeqSnoc(entries: seq<(string, Candidate)>)
    requires entries != []
    ensures IdSeq(entries) == IdSeq(entries[..|entries| - 1]) + [entries[|entries| - 1].0]
  {
  }

  /** The id set is the set of the id sequence. */
  lemma IdsAsSeq(entries: seq<(string, Candidate)>)
    ensures forall x :: x in Ids(entries) <==> x in IdSeq(entries)
  {
    var ids := IdSeq(entries);
    forall x | x in ids ensures x in Ids(entries) {
      var i :| 0 <= i < |ids| && ids[i] == x;
      assert entries[i].0 == x;
    }
  }

  /** The dict's keys are the ids in the order of their first occurrence:
      a repeated id keeps the place its first entry gave it. */
  lemma {:induction false} ToDictKeyOrder(entries: seq<(string, Candidate)>)
    ensures InFirstOrder(ToDict(entries).keys, IdSeq(entries))
  {
    if entries != [] {
      var init := entries[..|entries| - 1];
      var (k, v) := entries[|entries| - 1];
      ToDictKeyOrder(init);
      var d0 := ToDict(init);
      assert ToDict(entries) == Put(d0, k, v);
      IdSeqSnoc(entries);
      IdsAsSeq(init);
      FirstOrderSnoc(d0.keys, IdSeq(init), k);
    }
  }

  lemma IdsSnoc(entries: seq<(string, Candidate)>)
    requires entries != []
    ensures Ids(entries) == Ids(entries[..|entries| - 1]) + {entries[|entries| - 1].0}
  {
    var init := entries[..|entries| - 1];
    forall x | x in Ids(entries) ensures x in Ids(init) + {entries[|entries| - 1].0} {
      var i :| 0 <= i < |entries| && entries[i].0 == x;
      if i < |init| { assert init[i] == entries[i]; }
    }
    forall x | x in Ids(init) ensures x in Ids(entries) {
      var i :| 0 <= i < |init| && init[i].0 == x;
      assert entries[i] == init[i];
    }
  }

  lemma LastForSnoc(entries: seq<(string, Candidate)>, x: string, i: int)
    requires entries != []
    requires LastFor(entries[..|entries| - 1], x, i) && entries[|entries| - 1].0 != x
    ensures LastFor(entries, x, i)
  {
    var init := entries[..|entries| - 1];
    forall j | i < j < |entries| ensures entries[j].0 != x {
      if j < |init| { assert entries[j] == init[j]; }
    }
  }

  // ---------------------------------------------------------------------
  // Fusion
  // ---------------------------------------------------------------------

  /** The keys of `keys` that `dense` lacks, in order. */
  function LexicalOnly(keys: seq<string>, dense: Dict): (ks: seq<string>)
    ensures forall k :: k in ks <==> k in keys && k !in dense.vals
    ensures Distinct(keys) ==> Distinct(ks)
  {
    if keys == [] then []
    else
      var init := keys[..|keys| - 1];
      var k := keys[|keys| - 1];
      var rest := LexicalOnly(init, dense);
      assert forall x :: x in keys <==> x in init || x == k;
      if k in dense.vals then rest else rest + [k]
  }

  /** The fused entry for id `k`; `merged` says whether its lexical entry
      has been added in. */
  function Combined(dense: Dict, lexical: Dict, k: string, merged: bool): Candidate
    requires k in dense.vals || (merged && k in lexical.vals)
    requires merged ==> k in lexical.vals
  {
    if k in dense.vals && merged then
      var d, b := dense.vals[k], lexical.vals[k];
      Candidate(FaissWeight * d.score + Bm25Weight * b.score, d.metadata, d.category, None)
    else if k in dense.vals then
      var d := dense.vals[k];
      Candidate(FaissWeight * d.score, d.metadata, d.category, None)
    else
      var b := lexical.vals[k];
      Candidate(Bm25Weight * b.score, b.metadata, b.category, None)
  }

  /** `fused[k] = {...}` in the dense pass: the weighted dense entry. */
  function CopyDense(f: Dict, k: string, d: Candidate): Dict {
    Put(f, k, Candidate(FaissWeight * d.score, d.metadata, d.category, None))
  }

  /** One step of the lexical pass: add to the entry already there, or
      create the weighted lexical entry. */
  function MergeLexical(f: Dict, k: string, b: Candidate): Dict {
    if k in f.vals then Put(f, k, f.vals[k].(score := f.vals[k].score + Bm25Weight * b.score))
    else Put(f, k, Candidate(Bm25Weight * b.score, b.metadata, b.category, None))
  }

  /** Every key in the order has an entry. */
  predicate Listed(d: Dict) {
    forall i :: 0 <= i < |d.keys| ==> d.keys[i] in d.vals
  }

  /** `fused` after the dense pass has copied the first `n` dense keys. */
  function DensePass(dense: Dict, n: nat): (f: Dict)
    requires n <= |dense.keys| && Listed(dense)
    ensures |f.keys| <= n
    decreases n
  {
    if n == 0 then Dict([], map[])
    else
      var k := dense.keys[n - 1];
      CopyDense(DensePass(dense, n - 1), k, dense.vals[k])
  }

  /** `fused` after the lexical pass has merged the first `n` lexical keys. */
  function LexicalPass(dense: Dict, lexical: Dict, n: nat): (f: Dict)
    requires Listed(dense) && Listed(lexical) && n <= |lexical.keys|
    ensures |f.keys| <= |dense.keys| + n
    decreases n
  {
    if n == 0 then DensePass(dense, |dense.keys|)
    else
      var k := lexical.keys[n - 1];
      MergeLexical(LexicalPass(dense, lexical, n - 1), k, lexical.vals[k])
  }

  /** After `n` dense keys, id `k` is present when it is among them, with
      its weighted dense entry. */
  lemma {:induction false} DensePassAt(dense: Dict, n: nat, k: string)
    requires Listed(dense) && n <= |dense.keys|
    ensures k in DensePass(dense, n).vals <==> k in dense.keys[..n]
    ensures k in DensePass(dense, n).vals ==>
              DensePass(dense, n).vals[k] == Candidate(FaissWeight * dense.vals[k].score, dense.vals[k].metadata,
                                                       dense.vals[k].category, None)
    decreases n
  {
    if n > 0 {
      DensePassAt(dense, n - 1, k);
      assert dense.keys[..n] == dense.keys[..n - 1] + [dense.keys[n - 1]];
    }
  }

  /** The dense pass keeps the dense order. */
  lemma {:induction false} DensePassKeys(dense: Dict, n: nat)
    requires Listed(dense) && Distinct(dense.keys) && n <= |dense.keys|
    ensures DensePass(dense, n).keys == dense.keys[..n]
    decreases n
  {
    if n > 0 {
      DensePassKeys(dense, n - 1);
      var k := dense.keys[n - 1];
      assert dense.keys[..n] == dense.keys[..n - 1] + [k];
      assert k !in dense.keys[..n - 1];
      DensePassAt(dense, n - 1, k);
    }
  }

  /** After `n` lexical keys, id `k` is present when either side found it
      so far, with the entry combined from the sides that did. */
  lemma {:induction false} LexicalPassAt(dense: Dict, lexical: Dict, n: nat, k: string)
    requires Listed(dense) && Listed(lexical) && Distinct(lexical.keys) && n <= |lexical.keys|
    requires k in dense.vals ==> k in dense.keys
    ensures k in LexicalPass(dense, lexical, n).vals <==> k in dense.vals || k in lexical.keys[..n]
    ensures k in LexicalPass(dense, lexical, n).vals ==>
              LexicalPass(dense, lexical, n).vals[k] == Combined(dense, lexical, k, k in lexical.keys[..n])
    decreases n
  {
    if n == 0 {
      DensePassAt(dense, |dense.keys|, k);
      assert dense.keys[..|dense.keys|] == dense.keys;
    } else {
      LexicalPassAt(dense, lexical, n - 1, k);
      var seen, seen1 := lexical.keys[..n - 1], lexical.keys[..n];
      var key := lexical.keys[n - 1];
      assert seen1 == seen + [key];
      if key == k {
        assert k !in seen;
      }
    }
  }

  /** After `n` lexical keys, the order is the dense keys, then the
      lexical-only keys seen so far. */
  lemma {:induction false} LexicalPassKeys(dense: Dict, lexical: Dict, n: nat)
    requires Valid(dense) && Listed(lexical) && Distinct(lexical.keys) && n <= |lexical.keys|
    ensures LexicalPass(dense, lexical, n).keys == dense.keys + LexicalOnly(lexical.keys[..n], dense)
    decreases n
  {
    if n == 0 {
      ValidListed(dense);
      DensePassKeys(dense, |dense.keys|);
      assert dense.keys[..|dense.keys|] == dense.keys;
    } else {
      LexicalPassKeys(dense, lexical, n - 1);
      var seen, seen1 := lexical.keys[..n - 1], lexical.keys[..n];
      var key := lexical.keys[n - 1];
      var prev := LexicalPass(dense, lexical, n - 1);
      LexicalOnlyStep(lexical.keys, dense, n);
      assert key in prev.vals <==> key in dense.vals by {
        assert key !in seen;
        ValidListed(dense);
        LexicalPassAt(dense, lexical, n - 1, key);
      }
      var next := LexicalPass(dense, lexical, n);
      assert next == MergeLexical(prev, key, lexical.vals[key]);
      if key in dense.vals {
        assert next.keys == prev.keys;
      } else {
        assert next.keys == prev.keys + [key];
        AppendLast(dense.keys, LexicalOnly(seen, dense), key);
      }
    }
  }

  /** One more key extends the lexical-only keys by it when `dense` lacks it. */
  lemma LexicalOnlyStep(keys: seq<string>, dense: Dict, n: nat)
    requires 0 < n <= |keys|
    ensures LexicalOnly(keys[..n], dense)
            == if keys[n - 1] in dense.vals then LexicalOnly(keys[..n - 1], dense)
               else LexicalOnly(keys[..n - 1], dense) + [keys[n - 1]]
  {
    assert keys[..n][..n - 1] == keys[..n - 1];
  }

  lemma AppendLast(a: seq<string>, b: seq<string>, k: string)
    ensures a + (b + [k]) == (a + b) + [k]
  {
  }

  /** The fused dict: every id of either side, dense ids first in their
      order, then the lexical-only ids in theirs; an id found by both keeps
      the dense metadata and category and adds the two weighted scores. */
  function Fuse(dense: Dict, lexical: Dict): (f: Dict)
    requires Valid(dense) && Valid(lexical)
    ensures Valid(f)
    ensures f.vals.Keys == dense.vals.Keys + lexical.vals.Keys
    ensures f.keys == dense.keys + LexicalOnly(lexical.keys, dense)
    ensures forall k :: k in dense.vals && k in lexical.vals ==>
              f.vals[k] == Candidate(FaissWeight * dense.vals[k].score + Bm25Weight * lexical.vals[k].score,
                                     dense.vals[k].metadata, dense.vals[k].category, None)
    ensures forall k :: k in dense.vals && k !in lexical.vals ==>
              f.vals[k] == Candidate(FaissWeight * dense.vals[k].score, dense.vals[k].metadata, dense.vals[k].category, None)
    ensures forall k :: k !in dense.vals && k in lexical.vals ==>
              f.vals[k] == Candidate(Bm25Weight * lexical.vals[k].score, lexical.vals[k].metadata, lexical.vals[k].category, None)
  {
    var f := LexicalPass(dense, lexical, |lexical.keys|);
    assert lexical.keys[..|lexical.keys|] == lexical.keys;
    ValidListed(lexical);
    LexicalPassKeys(dense, lexical, |lexical.keys|);
    forall k ensures k in f.vals <==> k in dense.vals || k in lexical.vals {
      FullPassAt(dense, lexical, k);
    }
    forall k | k in dense.vals && k in lexical.vals
      ensures f.vals[k] == Candidate(FaissWeight * dense.vals[k].score + Bm25Weight * lexical.vals[k].score,
                                     dense.vals[k].metadata, dense.vals[k].category, None) {
      FullPassAt(dense, lexical, k);
    }
    forall k | k in dense.vals && k !in lexical.vals
      ensures f.vals[k] == Candidate(FaissWeight * dense.vals[k].score, dense.vals[k].metadata, dense.vals[k].category, None) {
      FullPassAt(dense, lexical, k);
    }
    forall k | k !in dense.vals && k in lexical.vals
      ensures f.vals[k] == Candidate(Bm25Weight * lexical.vals[k].score, lexical.vals[k].metadata, lexical.vals[k].category, None) {
      FullPassAt(dense, lexical, k);
    }
    FusedOrderValid(dense, lexical, f);
    f
  }

  /** The entry of id `k` once both passes are done. */
  lemma FullPassAt(dense: Dict, lexical: Dict, k: string)
    requires Valid(dense) && Valid(lexical)
    ensures Listed(dense) && Listed(lexical)
    ensures var f := LexicalPass(dense, lexical, |lexical.keys|);
            && (k in f.vals <==> k in dense.vals || k in lexical.vals)
            && (k in f.vals ==> f.vals[k] == Combined(dense, lexical, k, k in lexical.vals))
  {
    ValidListed(dense);
    ValidListed(lexical);
    assert lexical.keys[..|lexical.keys|] == lexical.keys;
    LexicalPassAt(dense, lexical, |lexical.keys|, k);
  }

  /** Dense keys, then the lexical-only keys, is a valid order for a dict
      holding the ids of both sides. */
  lemma FusedOrderValid(dense: Dict, lexical: Dict, f: Dict)
    requires Valid(dense) && Valid(lexical)
    requires f.keys == dense.keys + LexicalOnly(lexical.keys, dense)
    requires forall k :: k in f.vals <==> k in dense.vals || k in lexical.vals
    ensures Valid(f)
  {
    var only := LexicalOnly(lexical.keys, dense);
    DistinctAppend(dense.keys, only);
    assert forall k :: k in f.keys <==> k in dense.keys || k in only;
  }

  /** With scores in [0, 1] on both sides, every fused score is in [0, 1]. */
  lemma FuseBounded(dense: Dict, lexical: Dict)
    requires Valid(dense) && Valid(lexical)
    requires forall k :: k in dense.vals ==> 0.0 <= dense.vals[k].score <= 1.0
    requires forall k :: k in lexical.vals ==> 0.0 <= lexical.vals[k].score <= 1.0
    ensures forall k :: k in Fuse(dense, lexical).vals ==> 0.0 <= Fuse(dense, lexical).vals[k].score <= 1.0
  {
  }

  // ---------------------------------------------------------------------
  // The hybrid search
  // ---------------------------------------------------------------------

  /** The raw scores of the dense results, in order. */
  function DenseScores(dense: seq<FaissSearch.DenseResult>): (scores: seq<real>)
    ensures |scores| == |dense| && forall i :: 0 <= i < |dense| ==> scores[i] == dense[i].score
  {
    seq(|dense|, i requires 0 <= i < |dense| => dense[i].score)
  }

  /** `zip(faiss_results, faiss_norm)`, keyed by `r["id"]`: entry `i` holds
      the `i`-th result's normalized score, its item and its category. */
  function DenseEntries(dense: seq<FaissSearch.DenseResult>): (es: seq<(string, Candidate)>)
    ensures |es| == |dense|
    ensures forall i :: 0 <= i < |es| ==>
              es[i] == (dense[i].id, Candidate(MinMaxNormalize(DenseScores(dense))[i], dense[i].metadata, dense[i].category, None))
    ensures forall i :: 0 <= i < |es| ==> 0.0 <= es[i].1.score <= 1.0
  {
    var norm := MinMaxNormalize(DenseScores(dense));
    seq(|dense|, i requires 0 <= i < |dense| => (dense[i].id, Candidate(norm[i], dense[i].metadata, dense[i].category, None)))
  }

  /** Every lexical result names its item id (`r["metadata"]["id"]`). */
  predicate HasIds(lexical: seq<Bm25Search.LexicalHit>) {
    forall i :: 0 <= i < |lexical| ==> "id" in lexical[i].metadata
  }

  /** The raw scores of the lexical results, in order. */
  function LexicalScores(lexical: seq<Bm25Search.LexicalHit>): (scores: seq<real>)
    ensures |scores| == |lexical| && forall i :: 0 <= i < |lexical| ==> scores[i] == lexical[i].score
  {
    seq(|lexical|, i requires 0 <= i < |lexical| => lexical[i].score)
  }

  /** `zip(bm25_results, bm25_norm)`, keyed by `r["metadata"]["id"]`: entry
      `i` holds the `i`-th result's normalized score, its item and its category. */
  function LexicalEntries(lexical: seq<Bm25Search.LexicalHit>): (es: seq<(string, Candidate)>)
    requires HasIds(lexical)
    ensures |es| == |lexical|
    ensures forall i :: 0 <= i < |es| ==>
              es[i] == (lexical[i].metadata["id"],
                        Candidate(MinMaxNormalize(LexicalScores(lexical))[i], lexical[i].metadata, lexical[i].category, None))
    ensures forall i :: 0 <= i < |es| ==> 0.0 <= es[i].1.score <= 1.0
  {
    var norm := MinMaxNormalize(LexicalScores(lexical));
    seq(|lexical|, i requires 0 <= i < |lexical| =>
      (lexical[i].metadata["id"], Candidate(norm[i], lexical[i].metadata, lexical[i].category, None)))
  }

  /** Result `i` is the last dense result for id `k`. */
  ghost predicate LastDense(dense: seq<FaissSearch.DenseResult>, k: string, i: int) {
    && 0 <= i < |dense| && dense[i].id == k
    && forall j :: i < j < |dense| ==> dense[j].id != k
  }

  /** `faiss_dict`: one entry per dense id, holding the normalized score,
      the item and the category of the last dense result with that id. */
  function DenseDict(dense: seq<FaissSearch.DenseResult>): (d: Dict)
    ensures Valid(d)
    ensures d.vals.Keys == DenseIds(dense)
    ensures forall k :: k in d.vals ==> exists i ::
              && LastDense(dense, k, i)
              && d.vals[k] == Candidate(MinMaxNormalize(DenseScores(dense))[i], dense[i].metadata, dense[i].category, None)
    ensures forall k :: k in d.vals ==> 0.0 <= d.vals[k].score <= 1.0
  {
    var es := DenseEntries(dense);
    var d := ToDict(es);
    forall k | k in d.vals ensures exists i ::
              && LastDense(dense, k, i)
              && d.vals[k] == Candidate(MinMaxNormalize(DenseScores(dense))[i], dense[i].metadata, dense[i].category, None)
    {
      var i :| LastFor(es, k, i) && d.vals[k] == es[i].1;
      assert LastDense(dense, k, i);
    }
    DenseIdsAreEntryIds(dense);
    d
  }

  /** Result `i` is the last lexical result for id `k`. */
  ghost predicate LastLexical(lexical: seq<Bm25Search.LexicalHit>, k: string, i: int)
    requires HasIds(lexical)
  {
    && 0 <= i < |lexical| && lexical[i].metadata["id"] == k
    && forall j :: i < j < |lexical| ==> lexical[j].metadata["id"] != k
  }

  /** `bm25_dict`: one entry per lexical id, holding the normalized score,
      the item and the category of the last lexical result with that id. */
  function LexicalDict(lexical: seq<Bm25Search.LexicalHit>): (d: Dict)
    requires HasIds(lexical)
    ensures Valid(d)
    ensures d.vals.Keys == LexicalIds(lexical)
    ensures forall k :: k in d.vals ==> exists i ::
              && LastLexical(lexical, k, i)
              && d.vals[k] == Candidate(MinMaxNormalize(LexicalScores(lexical))[i], lexical[i].metadata, lexical[i].category, None)
    ensures forall k :: k in d.vals ==> 0.0 <= d.vals[k].score <= 1.0
  {
    var es := LexicalEntries(lexical);
    var d := ToDict(es);
    forall k | k in d.vals ensures exists i ::
              && LastLexical(lexical, k, i)
              && d.vals[k] == Candidate(MinMaxNormalize(LexicalScores(lexical))[i], lexical[i].metadata, lexical[i].category, None)
    {
      var i :| LastFor(es, k, i) && d.vals[k] == es[i].1;
      assert LastLexical(lexical, k, i);
    }
    LexicalIdsAreEntryIds(lexical);
    d
  }

  /** The ids the dense side found. */
  function DenseIds(dense: seq<FaissSearch.DenseResult>): set<string> {
    set i | 0 <= i < |dense| :: dense[i].id
  }

  /** The ids the lexical side found. */
  function LexicalIds(lexical: seq<Bm25Search.LexicalHit>): set<string>
    requires HasIds(lexical)
  {
    set i | 0 <= i < |lexical| :: lexical[i].metadata["id"]
  }

  /** The ranking `hybrid_search` returns, as a function of the two result
      lists: best first, as long as `results[:top_k]` over one entry per id
      found by either side, every score in [0, 1], drawn from the fused
      entries, and no fused entry left out scores higher than one kept. */
  ghost function FusedRanking(dense: seq<FaissSearch.DenseResult>, lexical: seq<Bm25Search.LexicalHit>, topK: int)
    : (rs: seq<Candidate>)
    requires HasIds(lexical)
    ensures forall i, j :: 0 <= i < j < |rs| ==> rs[i].score >= rs[j].score
    ensures |rs| == SliceLength(|DenseIds(dense) + LexicalIds(lexical)|, topK)
    ensures forall i :: 0 <= i < |rs| ==> 0.0 <= rs[i].score <= 1.0
    ensures multiset(rs) <= multiset(Values(Fuse(DenseDict(dense), LexicalDict(lexical))))
    ensures KeepsBest(rs, Values(Fuse(DenseDict(dense), LexicalDict(lexical))), CandidateScore)
  {
    var f := Fuse(DenseDict(dense), LexicalDict(lexical));
    FusedSize(dense, lexical);
    FusedValuesBounded(dense, lexical);
    RankingFacts(f, topK);
    Take(SortDesc(Values(f), CandidateScore), topK)
  }

  /** Sorting a dict's values and cutting them to `top_k`: best first, the
      length of the slice, bounds on the scores kept, drawn from the values,
      and nothing left out scoring higher than anything kept. */
  lemma RankingFacts(f: Dict, topK: int)
    requires Valid(f)
    requires forall i :: 0 <= i < |Values(f)| ==> 0.0 <= Values(f)[i].score <= 1.0
    ensures var rs := Take(SortDesc(Values(f), CandidateScore), topK);
            && (forall i, j :: 0 <= i < j < |rs| ==> rs[i].score >= rs[j].score)
            && |rs| == SliceLength(|f.keys|, topK)
            && (forall i :: 0 <= i < |rs| ==> 0.0 <= rs[i].score <= 1.0)
            && multiset(rs) <= multiset(Values(f))
            && KeepsBest(rs, Values(f), CandidateScore)
  {
    var sorted := SortDesc(Values(f), CandidateScore);
    SortKeepsBounds(Values(f));
    var rs := Take(sorted, topK);
    SortedPrefixKeepsBest(Values(f), CandidateScore, |rs|);
    forall i, j | 0 <= i < j < |rs| ensures rs[i].score >= rs[j].score {
      assert rs[i] == sorted[i] && rs[j] == sorted[j];
    }
  }

  lemma FusedValuesBounded(dense: seq<FaissSearch.DenseResult>, lexical: seq<Bm25Search.LexicalHit>)
    requires HasIds(lexical)
    ensures var vs := Values(Fuse(DenseDict(dense), LexicalDict(lexical)));
            forall i :: 0 <= i < |vs| ==> 0.0 <= vs[i].score <= 1.0
  {
    FuseBounded(DenseDict(dense), LexicalDict(lexical));
  }

  /** Sorting moves scores around without changing them. */
  lemma SortKeepsBounds(xs: seq<Candidate>)
    requires forall i :: 0 <= i < |xs| ==> 0.0 <= xs[i].score <= 1.0
    ensures var sorted := SortDesc(xs, CandidateScore);
            forall i :: 0 <= i < |sorted| ==> 0.0 <= sorted[i].score <= 1.0
  {
    var sorted := SortDesc(xs, CandidateScore);
    forall i | 0 <= i < |sorted| ensures 0.0 <= sorted[i].score <= 1.0 {
      assert sorted[i] in multiset(xs);
      var a :| 0 <= a < |xs| && xs[a] == sorted[i];
    }
  }

  /** Equal fused scores keep the fused dict's insertion order, so a
      candidate only the lexical side found never ranks ahead of an equally
      scored one the dense side found. */
  lemma FusedTiesKeepInsertionOrder(dense: seq<FaissSearch.DenseResult>, lexical: seq<Bm25Search.LexicalHit>,
                                    topK: int, i: nat, j: nat)
    requires HasIds(lexical)
    requires i < j < |FusedRanking(dense, lexical, topK)|
    requires FusedRanking(dense, lexical, topK)[i].score == FusedRanking(dense, lexical, topK)[j].score
    ensures var f := Fuse(DenseDict(dense), LexicalDict(lexical));
            var p := SortOrder(Values(f), CandidateScore);
            && p[i] < p[j] < |f.keys|
            && FusedRanking(dense, lexical, topK)[i] == f.vals[f.keys[p[i]]]
            && FusedRanking(dense, lexical, topK)[j] == f.vals[f.keys[p[j]]]
            && (f.keys[p[j]] in DenseDict(dense).vals ==> f.keys[p[i]] in DenseDict(dense).vals)
  {
    var d, l := DenseDict(dense), LexicalDict(lexical);
    var f := Fuse(d, l);
    var sorted := SortDesc(Values(f), CandidateScore);
    FusedRankingIsCut(dense, lexical, topK);
    TiesKeepOrder(f, i, j);
    var p := SortOrder(Values(f), CandidateScore);
    DenseKeysFirst(d, LexicalOnly(l.keys, d), p[i], p[j]);
  }

  /** In an order made of the dense keys followed by keys the dense side
      lacks, a position holding a dense key is preceded only by dense keys. */
  lemma DenseKeysFirst(d: Dict, only: seq<string>, a: nat, b: nat)
    requires Valid(d)
    requires forall k :: k in only ==> k !in d.vals
    requires a < b < |d.keys + only|
    ensures (d.keys + only)[b] in d.vals ==> (d.keys + only)[a] in d.vals
  {
    var keys := d.keys + only;
    if b >= |d.keys| {
      assert keys[b] == only[b - |d.keys|];
      assert keys[b] in only;
    } else {
      assert keys[a] == d.keys[a];
      assert d.keys[a] in d.keys;
    }
  }

  /** Sorting a dict's values by score is stable with respect to key order. */
  lemma FusedRankingIsCut(dense: seq<FaissSearch.DenseResult>, lexical: seq<Bm25Search.LexicalHit>, topK: int)
    requires HasIds(lexical)
    ensures FusedRanking(dense, lexical, topK)
            == Take(SortDesc(Values(Fuse(DenseDict(dense), LexicalDict(lexical))), CandidateScore), topK)
  {
  }

  lemma TiesKeepOrder(f: Dict, i: nat, j: nat)
    requires Valid(f)
    requires i < j < |f.keys|
    requires SortDesc(Values(f), CandidateScore)[i].score == SortDesc(Values(f), CandidateScore)[j].score
    ensures var p := SortOrder(Values(f), CandidateScore);
            && p[i] < p[j] < |f.keys|
            && SortDesc(Values(f), CandidateScore)[i] == f.vals[f.keys[p[i]]]
            && SortDesc(Values(f), CandidateScore)[j] == f.vals[f.keys[p[j]]]
  {
    SortDescStable(Values(f), CandidateScore, i, j);
  }

  /** One fused entry per id found by either side. */
  lemma FusedSize(dense: seq<FaissSearch.DenseResult>, lexical: seq<Bm25Search.LexicalHit>)
    requires HasIds(lexical)
    ensures |Fuse(DenseDict(dense), LexicalDict(lexical)).keys| == |DenseIds(dense) + LexicalIds(lexical)|
  {
    var f := Fuse(DenseDict(dense), LexicalDict(lexical));
    DistinctKeys(f);
  }

  /** The ids of the dense entries are the dense ids. */
  lemma DenseIdsAreEntryIds(dense: seq<FaissSearch.DenseResult>)
    ensures Ids(DenseEntries(dense)) == DenseIds(dense)
  {
    var es := DenseEntries(dense);
    forall x | x in DenseIds(dense) ensures x in Ids(es) {
      var i :| 0 <= i < |dense| && dense[i].id == x;
      assert es[i].0 == x;
    }
  }

  /** The ids of the lexical entries are the lexical ids. */
  lemma LexicalIdsAreEntryIds(lexical: seq<Bm25Search.LexicalHit>)
    requires HasIds(lexical)
    ensures Ids(LexicalEntries(lexical)) == LexicalIds(lexical)
  {
    var es := LexicalEntries(lexical);
    forall x | x in LexicalIds(lexical) ensures x in Ids(es) {
      var i :| 0 <= i < |lexical| && lexical[i].metadata["id"] == x;
      assert es[i].0 == x;
    }
  }

  /** A valid dict has as many keys in its order as in its map. */
  lemma {:induction false} DistinctKeys(d: Dict)
    requires Valid(d)
    ensures |d.keys| == |d.vals.Keys|
    decreases |d.keys|
  {
    if d.keys != [] {
      var k := d.keys[|d.keys| - 1];
      var init := d.keys[..|d.keys| - 1];
      var smaller := Dict(init, map x | x in d.vals && x != k :: d.vals[x]);
      assert k !in init;
      assert forall x :: x in d.keys <==> x in init || x == k;
      DistinctKeys(smaller);
      assert d.vals.Keys == smaller.vals.Keys + {k};
    }
  }

  // ---------------------------------------------------------------------
  // The loops of `hybrid_search`
  // ---------------------------------------------------------------------

  /** Builds `faiss_dict`: the normalized dense scores keyed by item id. */
  method BuildDenseDict(dense: seq<FaissSearch.DenseResult>) returns (faissDict: Dict)
    ensures faissDict == DenseDict(dense)
  {
    var faissNorm := MinMaxNormalize(seq(|dense|, i requires 0 <= i < |dense| => dense[i].score));
    faissDict := Dict([], map[]);
    var i := 0;
    while i < |dense|
      invariant 0 <= i <= |dense|
      invariant faissDict == ToDict(DenseEntries(dense)[..i])
    {
      ToDictStep(DenseEntries(dense), i);
      faissDict := Put(faissDict, dense[i].id, Candidate(faissNorm[i], dense[i].metadata, dense[i].category, None));
      i := i + 1;
    }
    assert DenseEntries(dense)[..i] == DenseEntries(dense);
  }

  /** Builds `bm25_dict`: the normalized lexical scores keyed by item id. */
  method BuildLexicalDict(lexical: seq<Bm25Search.LexicalHit>) returns (bm25Dict: Dict)
    requires HasIds(lexical)
    ensures bm25Dict == LexicalDict(lexical)
  {
    var bm25Norm := MinMaxNormalize(seq(|lexical|, i requires 0 <= i < |lexical| => lexical[i].score));
    bm25Dict := Dict([], map[]);
    var i := 0;
    while i < |lexical|
      invariant 0 <= i <= |lexical|
      invariant bm25Dict == ToDict(LexicalEntries(lexical)[..i])
    {
      ToDictStep(LexicalEntries(lexical), i);
      bm25Dict := Put(bm25Dict, lexical[i].metadata["id"], Candidate(bm25Norm[i], lexical[i].metadata, lexical[i].category, None));
      i := i + 1;
    }
    assert LexicalEntries(lexical)[..i] == LexicalEntries(lexical);
  }

  /** Builds `fused`: the dense pass, then the lexical pass. */
  method FuseDicts(faissDict: Dict, bm25Dict: Dict) returns (fused: Dict)
    requires Valid(faissDict) && Valid(bm25Dict)
    ensures fused == Fuse(faissDict, bm25Dict)
  {
    ValidListed(faissDict);
    ValidListed(bm25Dict);
    fused := CopyDenseLoop(faissDict);
    fused := MergeLexicalLoop(faissDict, bm25Dict, fused);
  }

  /** The dense pass: every dense entry copied with its weighted score. */
  method CopyDenseLoop(faissDict: Dict) returns (fused: Dict)
    requires Listed(faissDict)
    ensures fused == DensePass(faissDict, |faissDict.keys|)
  {
    fused := Dict([], map[]);
    var i := 0;
    while i < |faissDict.keys|
      invariant 0 <= i <= |faissDict.keys|
      invariant fused == DensePass(faissDict, i)
    {
      var k := faissDict.keys[i];
      var v := faissDict.vals[k];
      fused := Put(fused, k, Candidate(FaissWeight * v.score, v.metadata, v.category, None));
      i := i + 1;
    }
  }

  /** The lexical pass over `fused` as the dense pass left it. */
  method MergeLexicalLoop(faissDict: Dict, bm25Dict: Dict, densePassed: Dict) returns (fused: Dict)
    requires Listed(faissDict) && Listed(bm25Dict)
    requires densePassed == DensePass(faissDict, |faissDict.keys|)
    ensures fused == LexicalPass(faissDict, bm25Dict, |bm25Dict.keys|)
  {
    fused := densePassed;
    var i := 0;
    while i < |bm25Dict.keys|
      invariant 0 <= i <= |bm25Dict.keys|
      invariant fused == LexicalPass(faissDict, bm25Dict, i)
    {
      var k := bm25Dict.keys[i];
      var v := bm25Dict.vals[k];
      if k in fused.vals {
        var c := fused.vals[k];
        fused := Put(fused, k, c.(score := c.score + Bm25Weight * v.score));
      } else {
        fused := Put(fused, k, Candidate(Bm25Weight * v.score, v.metadata, v.category, None));
      }
      i := i + 1;
    }
  }

  /** `hybrid_search` after both retrievers ran: `dense` is what
      `faiss_search` returned for the query, `lexical` what `bm25_search`
      returned. */
  method Search(dense: seq<FaissSearch.DenseResult>, lexical: seq<Bm25Search.LexicalHit>, topK: int)
    returns (results: seq<Candidate>)
    requires HasIds(lexical)
    ensures results == FusedRanking(dense, lexical, topK)
  {
    var faissDict := BuildDenseDict(dense);
    var bm25Dict := BuildLexicalDict(lexical);
    var fused := FuseDicts(faissDict, bm25Dict);
    results := SortDesc(Values(fused), CandidateScore);
    results := Take(results, topK);
  }
}
