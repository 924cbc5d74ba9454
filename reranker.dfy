/** Cross-encoder reranking: every candidate is paired with the query as a
    labelled sentence, the model scores all pairs at once, each candidate is
    given its score as `rerank_score`, and the caller's list is sorted by
    that score in place and cut to `top_k`. The model is a parameter. */
module Reranker {
  import opened Builtins
  import opened Sorting
  import opened HybridSearch

  /** The six labelled parts of the sentence, in order. */
  const Labels: seq<string> := ["Category: ", ". Material: ", ". Stone type: ", ". Stone shape: ", ". Color: ", ". Description: "]

  /** The six fields shown, in the order of `Labels`. */
  const Fields: seq<string> := ["category", "material", "stone_type", "stone_shape", "color", "short_description"]

  /** `metadata_to_text`: each label followed by its field (a missing one
      as ""), closed by a full stop. */
  function MetadataSentence(m: Metadata): (text: string)
    ensures text == "Category: " + Get(m, "category") + ". Material: " + Get(m, "material")
                    + ". Stone type: " + Get(m, "stone_type") + ". Stone shape: " + Get(m, "stone_shape")
                    + ". Color: " + Get(m, "color") + ". Description: " + Get(m, "short_description") + "."
    ensures |text| == 76 + |Get(m, "category")| + |Get(m, "material")| + |Get(m, "stone_type")|
                         + |Get(m, "stone_shape")| + |Get(m, "color")| + |Get(m, "short_description")|
  {
    Labels[0] + Get(m, Fields[0]) + Labels[1] + Get(m, Fields[1]) + Labels[2] + Get(m, Fields[2])
    + Labels[3] + Get(m, Fields[3]) + Labels[4] + Get(m, Fields[4]) + Labels[5] + Get(m, Fields[5]) + "."
  }

  /** The sentence depends on the six fields only. */
  lemma SentenceDependsOnFieldsOnly(a: Metadata, b: Metadata)
    requires forall f :: f in Fields ==> Get(a, f) == Get(b, f)
    ensures MetadataSentence(a) == MetadataSentence(b)
  {
    assert forall i :: 0 <= i < |Fields| ==> Get(a, Fields[i]) == Get(b, Fields[i]);
  }

  /** An item without any of the fields still renders every label. */
  lemma EmptySentence()
    ensures MetadataSentence(map[]) == Labels[0] + Labels[1] + Labels[2] + Labels[3] + Labels[4] + Labels[5] + "."
  {
    var e: Metadata := map[];
    assert forall i :: 0 <= i < |Fields| ==> Get(e, Fields[i]) == "";
  }

  /** The (query, sentence) pairs handed to the model, one per candidate. */
  function Pairs(query: string, cs: seq<Candidate>): (ps: seq<(string, string)>)
    ensures |ps| == |cs|
    ensures forall i :: 0 <= i < |cs| ==> ps[i] == (query, MetadataSentence(cs[i].metadata))
  {
    seq(|cs|, i requires 0 <= i < |cs| => (query, MetadataSentence(cs[i].metadata)))
  }

  /** `c["rerank_score"] = s` for every candidate and its score. */
  function Attach(cs: seq<Candidate>, scores: seq<real>): (rs: seq<Candidate>)
    requires |scores| == |cs|
    ensures |rs| == |cs|
    ensures forall i :: 0 <= i < |cs| ==> rs[i] == cs[i].(rerankScore := Some(scores[i]))
  {
    seq(|cs|, i requires 0 <= i < |cs| => cs[i].(rerankScore := Some(scores[i])))
  }

  /** `x["rerank_score"]`; every candidate carries one when the sort runs. */
  function RerankKey(c: Candidate): real {
    match c.rerankScore
    case Some(s) => s
    case None => 0.0
  }

  /** The caller's list after the call: scored, then stably sorted by score. */
  function Reranked(cs: seq<Candidate>, scores: seq<real>): (r: seq<Candidate>)
    requires |scores| == |cs|
    ensures |r| == |cs|
    ensures forall a, b :: 0 <= a < b < |r| ==> RerankKey(r[a]) >= RerankKey(r[b])
    ensures multiset(r) == multiset(Attach(cs, scores))
  {
    SortDesc(Attach(cs, scores), RerankKey)
  }

  /** Reranking is a stable sort of the scored candidates: best first, the
      same candidates, and the `a`-th one is the candidate from position
      `SortOrder[a]` of the input with exactly its own score attached and
      nothing else changed. */
  lemma RerankedSpec(cs: seq<Candidate>, scores: seq<real>)
    requires |scores| == |cs|
    ensures var r := Reranked(cs, scores);
            && |r| == |cs|
            && (forall a, b :: 0 <= a < b < |r| ==> RerankKey(r[a]) >= RerankKey(r[b]))
            && multiset(r) == multiset(Attach(cs, scores))
    ensures var r := Reranked(cs, scores);
            var p := SortOrder(Attach(cs, scores), RerankKey);
            forall a :: 0 <= a < |r| ==>
              && p[a] < |cs|
              && r[a].rerankScore == Some(scores[p[a]])
              && r[a].score == cs[p[a]].score
              && r[a].metadata == cs[p[a]].metadata
              && r[a].category == cs[p[a]].category
  {
    SortDescOrigin(Attach(cs, scores), RerankKey);
  }

  /** Equal rerank scores keep the order the candidates came in. */
  lemma RerankedStable(cs: seq<Candidate>, scores: seq<real>, a: nat, b: nat)
    requires |scores| == |cs|
    requires a < b < |cs|
    requires RerankKey(Reranked(cs, scores)[a]) == RerankKey(Reranked(cs, scores)[b])
    ensures SortOrder(Attach(cs, scores), RerankKey)[a] < SortOrder(Attach(cs, scores), RerankKey)[b]
  {
    SortDescStable(Attach(cs, scores), RerankKey, a, b);
  }

  /** What `rerank` returns: nothing for no candidates, otherwise the first
      `top_k` of the reranked list, which are scored candidates. */
  function RerankResult(query: string, cs: seq<Candidate>, topK: int, predict: seq<(string, string)> -> seq<real>)
    : (rs: seq<Candidate>)
    requires cs != [] ==> |predict(Pairs(query, cs))| == |cs|
    ensures |rs| == SliceLength(|cs|, topK)
    ensures forall a, b :: 0 <= a < b < |rs| ==> RerankKey(rs[a]) >= RerankKey(rs[b])
    ensures cs != [] ==> rs == Reranked(cs, predict(Pairs(query, cs)))[..|rs|]
    ensures cs != [] ==> multiset(rs) <= multiset(Attach(cs, predict(Pairs(query, cs))))
  {
    if cs == [] then []
    else
      var r := Reranked(cs, predict(Pairs(query, cs)));
      Take(r, topK)
  }

  /** `rerank`. `candidates` is the caller's list, reordered in place;
      `modelInput` is what the model was asked to score, `None` when it was
      not called. */
  method Rerank(query: string, candidates: array<Candidate>, topK: int, predict: seq<(string, string)> -> seq<real>)
    returns (results: seq<Candidate>, modelInput: Option<seq<(string, string)>>)
    requires candidates.Length > 0 ==> |predict(Pairs(query, candidates[..]))| == candidates.Length
    modifies candidates
    ensures candidates.Length == 0 ==> modelInput == None
    ensures candidates.Length > 0 ==> modelInput == Some(Pairs(query, old(candidates[..])))
    ensures candidates.Length > 0 ==>
              candidates[..] == Reranked(old(candidates[..]), predict(Pairs(query, old(candidates[..]))))
    ensures candidates.Length == 0 ==> candidates[..] == old(candidates[..])
    ensures results == RerankResult(query, old(candidates[..]), topK, predict)
  {
    if candidates.Length == 0 {
      return [], None;
    }
    var pairs := BuildPairs(query, candidates);
    var scores := predict(pairs);
    modelInput := Some(pairs);
    AttachScores(candidates, scores);
    SortByRerankScore(candidates);
    results := Take(candidates[..], topK);
  }

  /** The pairs loop: one (query, sentence) pair per candidate, in order. */
  method BuildPairs(query: string, candidates: array<Candidate>) returns (pairs: seq<(string, string)>)
    ensures pairs == Pairs(query, candidates[..])
  {
    pairs := [];
    var i := 0;
    while i < candidates.Length
      invariant 0 <= i <= candidates.Length
      invariant pairs == Pairs(query, candidates[..])[..i]
    {
      var text := MetadataSentence(candidates[i].metadata);
      pairs := pairs + [(query, text)];
      i := i + 1;
    }
  }

  /** `for c, s in zip(candidates, scores): c["rerank_score"] = float(s)`. */
  method AttachScores(candidates: array<Candidate>, scores: seq<real>)
    requires |scores| == candidates.Length
    modifies candidates
    ensures candidates[..] == Attach(old(candidates[..]), scores)
  {
    var i := 0;
    while i < candidates.Length
      invariant 0 <= i <= candidates.Length
      invariant forall k :: 0 <= k < i ==> candidates[k] == old(candidates[k]).(rerankScore := Some(scores[k]))
      invariant forall k :: i <= k < candidates.Length ==> candidates[k] == old(candidates[k])
    {
      candidates[i] := candidates[i].(rerankScore := Some(scores[i]));
      i := i + 1;
    }
  }

  /** `candidates.sort(key=lambda x: x["rerank_score"], reverse=True)`: the
      list is rearranged in place into its stable descending order. */
  method SortByRerankScore(candidates: array<Candidate>)
    modifies candidates
    ensures candidates[..] == SortDesc(old(candidates[..]), RerankKey)
  {
    var sorted := SortDesc(candidates[..], RerankKey);
    forall k | 0 <= k < candidates.Length {
      candidates[k] := sorted[k];
    }
  }

  /** With rerank scores 0.2, 0.9 and 0.5 the only ranking is 1, 2, 0. */
  lemma RankOfThree(p: seq<nat>)
    requires IsPermutation(p, 3)
    requires Ahead([0.2, 0.9, 0.5], p[0], p[1]) && Ahead([0.2, 0.9, 0.5], p[1], p[2])
    ensures p == [1, 2, 0]
  {
    assert p[0] in {0, 1, 2} && p[1] in {0, 1, 2} && p[2] in {0, 1, 2};
  }

  /** Three candidates scored 0.2, 0.9 and 0.5 come back second, third, first. */
  lemma ScoresReorder(x: Candidate, y: Candidate, z: Candidate)
    ensures Reranked([x, y, z], [0.2, 0.9, 0.5])
            == [y.(rerankScore := Some(0.9)), z.(rerankScore := Some(0.5)), x.(rerankScore := Some(0.2))]
  {
    var att := Attach([x, y, z], [0.2, 0.9, 0.5]);
    var p := SortOrder(att, RerankKey);
    assert KeysOf(att, RerankKey) == [0.2, 0.9, 0.5];
    RankOfThree(p);
    SortDescOrigin(att, RerankKey);
  }
}
