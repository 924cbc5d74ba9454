/** Lexical retrieval: for each requested category, the rows of that
    category's BM25 index are sorted by score and the best `top_k` are
    mapped to their items; the per-category lists are concatenated, sorted
    again by score and cut to `top_k`. The scores `get_scores` computes for
    the tokenized query are parameters, one per row of the index. */
module Bm25Search {
  import opened Builtins
  import opened Sorting

  /** One lexical result: the BM25 score, the category tag and the item. */
  datatype LexicalHit = LexicalHit(score: real, category: string, metadata: Metadata)

  function HitScore(h: LexicalHit): real {
    h.score
  }

  /** `range(n)`. */
  function Rows(n: nat): (rows: seq<nat>)
    ensures |rows| == n && forall i :: 0 <= i < n ==> rows[i] == i
  {
    seq(n, i requires 0 <= i < n => i)
  }

  /** `lambda i: scores[i]`. */
  function RowKey(scores: seq<real>): nat -> real {
    i => if 0 <= i < |scores| then scores[i] else 0.0
  }

  /** `sorted(range(len(scores)), key=lambda i: scores[i], reverse=True)[:top_k]`:
      distinct rows, best first with ties by ascending row, and every row
      left out is ranked behind every row kept. */
  function TopRows(scores: seq<real>, topK: int): (rows: seq<nat>)
    ensures |rows| == SliceLength(|scores|, topK)
    ensures forall a :: 0 <= a < |rows| ==> rows[a] < |scores|
    ensures forall a, b :: 0 <= a < b < |rows| ==> Ahead(scores, rows[a], rows[b])
    ensures forall a, j :: 0 <= a < |rows| && 0 <= j < |scores| && j !in rows ==> Ahead(scores, rows[a], j)
  {
    var sorted := SortDesc(Rows(|scores|), RowKey(scores));
    SortedRowsAreRanked(scores);
    var p := StableRank(scores);
    var rows := Take(sorted, topK);
    forall a, j | 0 <= a < |rows| && 0 <= j < |scores| && j !in rows
      ensures Ahead(scores, rows[a], j)
    {
      assert j in p;
      var b :| 0 <= b < |p| && p[b] == j;
      assert b >= |rows|;
      assert Ahead(scores, p[a], p[b]);
    }
    rows
  }

  /** Sorting the row numbers by their scores visits them in ranked order. */
  lemma SortedRowsAreRanked(scores: seq<real>)
    ensures SortDesc(Rows(|scores|), RowKey(scores)) == StableRank(scores)
  {
    var rows := Rows(|scores|);
    assert KeysOf(rows, RowKey(scores)) == scores;
    SortDescOrigin(rows, RowKey(scores));
  }

  /** `scores[idx]` with the item `id_map[idx]`, under the given tag. */
  function HitAt(scores: seq<real>, idMap: seq<Metadata>, tag: string, idx: nat): LexicalHit
    requires idx < |scores| == |idMap|
  {
    LexicalHit(scores[idx], tag, idMap[idx])
  }

  /** The results one category contributes, best first. */
  function CategoryHits(scores: seq<real>, idMap: seq<Metadata>, tag: string, topK: int): (hits: seq<LexicalHit>)
    requires |scores| == |idMap|
    ensures |hits| == SliceLength(|scores|, topK)
    ensures forall a :: 0 <= a < |hits| ==> hits[a] == HitAt(scores, idMap, tag, TopRows(scores, topK)[a])
  {
    var rows := TopRows(scores, topK);
    seq(|rows|, a requires 0 <= a < |rows| => HitAt(scores, idMap, tag, rows[a]))
  }

  predicate WantsRing(category: string) { category == "ring" || category == "both" }
  predicate WantsNecklace(category: string) { category == "necklace" || category == "both" }

  /** The list before the final sort: up to `top_k` ring results when rings
      are asked for, then up to `top_k` necklace results when necklaces are. */
  function Gathered(ringScores: seq<real>, ringMap: seq<Metadata>, necklaceScores: seq<real>,
                    necklaceMap: seq<Metadata>, category: string, topK: int): (g: seq<LexicalHit>)
    requires |ringScores| == |ringMap| && |necklaceScores| == |necklaceMap|
    ensures |g| == (if WantsRing(category) then SliceLength(|ringScores|, topK) else 0)
                   + (if WantsNecklace(category) then SliceLength(|necklaceScores|, topK) else 0)
    ensures forall i :: 0 <= i < |g| ==> g[i].category == "ring" || g[i].category == "necklace"
    ensures forall i, j :: 0 <= i < j < |g| && g[j].category == "ring" ==> g[i].category == "ring"
  {
    var ring := if WantsRing(category) then CategoryHits(ringScores, ringMap, "ring", topK) else [];
    var necklace := if WantsNecklace(category) then CategoryHits(necklaceScores, necklaceMap, "necklace", topK) else [];
    assert forall i :: 0 <= i < |ring| ==> ring[i].category == "ring";
    assert forall i :: 0 <= i < |necklace| ==> necklace[i].category == "necklace";
    ring + necklace
  }

  /** `r` reports the score and the item of one row of an index. */
  ghost predicate RowResult(r: LexicalHit, scores: seq<real>, idMap: seq<Metadata>, tag: string)
    requires |scores| == |idMap|
  {
    exists idx :: 0 <= idx < |scores| && r == HitAt(scores, idMap, tag, idx)
  }

  /** One category's loop: the top rows, best first, appended to `results`. */
  method AppendCategory(results: seq<LexicalHit>, scores: seq<real>, idMap: seq<Metadata>, tag: string, topK: int)
    returns (extended: seq<LexicalHit>)
    requires |scores| == |idMap|
    ensures extended == results + CategoryHits(scores, idMap, tag, topK)
  {
    extended := results;
    var rows := TopRows(scores, topK);
    var a := 0;
    while a < |rows|
      invariant 0 <= a <= |rows|
      invariant extended == results + CategoryHits(scores, idMap, tag, topK)[..a]
    {
      var idx := rows[a];
      extended := extended + [LexicalHit(scores[idx], tag, idMap[idx])];
      a := a + 1;
    }
  }

  /** The final ranking `bm25_search` returns, as a function of the scores:
      `top_k` of the gathered results (all of them when fewer, an empty list
      for an unknown category), best first. */
  function Ranking(ringScores: seq<real>, ringMap: seq<Metadata>, necklaceScores: seq<real>,
                   necklaceMap: seq<Metadata>, category: string, topK: int): (rs: seq<LexicalHit>)
    requires |ringScores| == |ringMap| && |necklaceScores| == |necklaceMap|
    ensures forall i, j :: 0 <= i < j < |rs| ==> rs[i].score >= rs[j].score
    ensures 0 <= topK ==> |rs| <= topK
    ensures |rs| == SliceLength(|Gathered(ringScores, ringMap, necklaceScores, necklaceMap, category, topK)|, topK)
    ensures multiset(rs) <= multiset(Gathered(ringScores, ringMap, necklaceScores, necklaceMap, category, topK))
    ensures !WantsRing(category) && !WantsNecklace(category) ==> rs == []
  {
    Take(SortDesc(Gathered(ringScores, ringMap, necklaceScores, necklaceMap, category, topK), HitScore), topK)
  }

  /** The cut keeps the best: a gathered result that did not make the
      ranking scores no higher than any result that did. */
  lemma RankingKeepsBest(ringScores: seq<real>, ringMap: seq<Metadata>, necklaceScores: seq<real>,
                         necklaceMap: seq<Metadata>, category: string, topK: int)
    requires |ringScores| == |ringMap| && |necklaceScores| == |necklaceMap|
    ensures KeepsBest(Ranking(ringScores, ringMap, necklaceScores, necklaceMap, category, topK),
                      Gathered(ringScores, ringMap, necklaceScores, necklaceMap, category, topK), HitScore)
  {
    var g := Gathered(ringScores, ringMap, necklaceScores, necklaceMap, category, topK);
    var rs := Ranking(ringScores, ringMap, necklaceScores, necklaceMap, category, topK);
    assert rs == SortDesc(g, HitScore)[..|rs|];
    SortedPrefixKeepsBest(g, HitScore, |rs|);
  }

  /** Every reported result carries the score and the item of one row of
      the index it is labelled with, and that index was asked for. */
  lemma RankingOrigin(ringScores: seq<real>, ringMap: seq<Metadata>, necklaceScores: seq<real>,
                      necklaceMap: seq<Metadata>, category: string, topK: int, r: LexicalHit)
    requires |ringScores| == |ringMap| && |necklaceScores| == |necklaceMap|
    requires r in Ranking(ringScores, ringMap, necklaceScores, necklaceMap, category, topK)
    ensures || (WantsRing(category) && r.category == "ring" && RowResult(r, ringScores, ringMap, "ring"))
            || (WantsNecklace(category) && r.category == "necklace" && RowResult(r, necklaceScores, necklaceMap, "necklace"))
  {
    var g := Gathered(ringScores, ringMap, necklaceScores, necklaceMap, category, topK);
    var sorted := SortDesc(g, HitScore);
    assert r in sorted;
    assert r in multiset(sorted);
    GatheredOrigin(ringScores, ringMap, necklaceScores, necklaceMap, category, topK, r);
  }

  /** `bm25_search` after tokenization and scoring. */
  method Search(ringScores: seq<real>, ringMap: seq<Metadata>, necklaceScores: seq<real>,
                necklaceMap: seq<Metadata>, category: string, topK: int)
    returns (results: seq<LexicalHit>)
    requires |ringScores| == |ringMap| && |necklaceScores| == |necklaceMap|
    ensures results == Ranking(ringScores, ringMap, necklaceScores, necklaceMap, category, topK)
  {
    ghost var ring := if WantsRing(category) then CategoryHits(ringScores, ringMap, "ring", topK) else [];
    ghost var necklace := if WantsNecklace(category) then CategoryHits(necklaceScores, necklaceMap, "necklace", topK) else [];
    results := [];
    if WantsRing(category) {
      results := AppendCategory(results, ringScores, ringMap, "ring", topK);
      AppendNothing(ring);
    }
    assert results == ring;
    if WantsNecklace(category) {
      results := AppendCategory(results, necklaceScores, necklaceMap, "necklace", topK);
    } else {
      AppendNothing(results);
    }
    assert results == ring + necklace;
    results := SortDesc(results, HitScore);
    results := Take(results, topK);
  }

  lemma AppendNothing(s: seq<LexicalHit>)
    ensures [] + s == s && s + [] == s
  {
  }

  /** Every gathered result is a row of the index it is labelled with. */
  lemma GatheredOrigin(ringScores: seq<real>, ringMap: seq<Metadata>, necklaceScores: seq<real>,
                       necklaceMap: seq<Metadata>, category: string, topK: int, r: LexicalHit)
    requires |ringScores| == |ringMap| && |necklaceScores| == |necklaceMap|
    requires r in Gathered(ringScores, ringMap, necklaceScores, necklaceMap, category, topK)
    ensures || (WantsRing(category) && r.category == "ring" && RowResult(r, ringScores, ringMap, "ring"))
            || (WantsNecklace(category) && r.category == "necklace" && RowResult(r, necklaceScores, necklaceMap, "necklace"))
  {
    var ring := if WantsRing(category) then CategoryHits(ringScores, ringMap, "ring", topK) else [];
    var necklace := if WantsNecklace(category) then CategoryHits(necklaceScores, necklaceMap, "necklace", topK) else [];
    if r in ring {
      var a :| 0 <= a < |ring| && ring[a] == r;
    } else {
      assert r in necklace;
      var a :| 0 <= a < |necklace| && necklace[a] == r;
    }
  }

  /** In `both` mode the final sort is stable, so among equal scores every
      ring result comes before every necklace result. */
  lemma BothKeepsRingFirst(ringScores: seq<real>, ringMap: seq<Metadata>, necklaceScores: seq<real>,
                           necklaceMap: seq<Metadata>, topK: int, i: nat, j: nat)
    requires |ringScores| == |ringMap| && |necklaceScores| == |necklaceMap|
    requires var rs := Ranking(ringScores, ringMap, necklaceScores, necklaceMap, "both", topK);
             i < j < |rs| && rs[i].score == rs[j].score && rs[j].category == "ring"
    ensures var rs := Ranking(ringScores, ringMap, necklaceScores, necklaceMap, "both", topK);
            rs[i].category == "ring"
  {
    var g := Gathered(ringScores, ringMap, necklaceScores, necklaceMap, "both", topK);
    SortDescStable(g, HitScore, i, j);
  }
}
