/** Dense retrieval, over-fetch then filter: the inner-product index is asked
    for `OverfetchK` rows regardless of category, and the rows are scanned in
    the index's order, keeping those whose mapped category matches, until
    `top_k` have been kept. The index search itself is a parameter: the
    (score, row) pairs it returned. */
module FaissSearch {
  import opened Builtins
  import opened CreateEmbeddings

  const OverfetchK: nat := 50

  /** One (score, row) pair returned by the index. */
  datatype Hit = Hit(score: real, row: int)

  /** One dense result: the index score and the mapped item's snapshot. */
  datatype DenseResult = DenseResult(score: real, faissIndex: int, id: string, category: string,
                                     imageName: string, metadata: Metadata)

  /** Every returned row names a record of `id_mapping`. */
  predicate RowsInRange(hits: seq<Hit>, idMapping: seq<MappingEntry>) {
    forall k :: 0 <= k < |hits| ==> 0 <= hits[k].row < |idMapping|
  }

  /** The category test of the scan: `both` lets every row through. */
  predicate Keep(hit: Hit, idMapping: seq<MappingEntry>, category: string)
    requires 0 <= hit.row < |idMapping|
  {
    category == "both" || idMapping[hit.row].category == category
  }

  /** The result built for a kept row. */
  function ResultFor(hit: Hit, idMapping: seq<MappingEntry>): DenseResult
    requires 0 <= hit.row < |idMapping|
  {
    var meta := idMapping[hit.row];
    DenseResult(hit.score, hit.row, meta.id, meta.category, meta.imageName, meta.metadata)
  }

  /** All kept rows of `hits`, in order: the scan without its early stop. */
  function Matches(hits: seq<Hit>, idMapping: seq<MappingEntry>, category: string): (ms: seq<DenseResult>)
    requires RowsInRange(hits, idMapping)
    ensures |ms| <= |hits|
    ensures category != "both" ==> forall i :: 0 <= i < |ms| ==> ms[i].category == category
  {
    if hits == [] then []
    else
      var rest := Matches(hits[..|hits| - 1], idMapping, category);
      var last := hits[|hits| - 1];
      if Keep(last, idMapping, category) then rest + [ResultFor(last, idMapping)] else rest
  }

  /** How many results end the scan: `top_k`, but at least one, because the
      length check only runs right after an append. */
  function Quota(topK: int): (q: nat)
    ensures 1 <= q
    ensures 1 <= topK ==> q == topK
    ensures topK < 1 ==> q == 1
  {
    if topK < 1 then 1 else topK
  }

  /** `faiss_search` after `index.search`: `fetched` is what the index returned. */
  method Search(fetched: seq<Hit>, idMapping: seq<MappingEntry>, category: string, topK: int)
    returns (results: seq<DenseResult>)
    requires |fetched| <= OverfetchK
    requires RowsInRange(fetched, idMapping)
    ensures var all := Matches(fetched, idMapping, category);
            results == all[..if |all| < Quota(topK) then |all| else Quota(topK)]
    ensures |results| <= Quota(topK) && |results| <= OverfetchK
    ensures category != "both" ==> forall i :: 0 <= i < |results| ==> results[i].category == category
    ensures forall r :: r in results ==> FromKeptRow(r, fetched, idMapping, category)
    ensures NonIncreasing(fetched) ==> BestFirst(results)
  {
    results := [];
    var i := 0;
    while i < |fetched|
      invariant 0 <= i <= |fetched|
      invariant results == Matches(fetched[..i], idMapping, category)
      invariant |results| < Quota(topK)
    {
      var hit := fetched[i];
      var meta := idMapping[hit.row];
      assert fetched[..i + 1][..i] == fetched[..i];
      if category != "both" && meta.category != category {
        i := i + 1;
        continue;
      }
      results := results + [DenseResult(hit.score, hit.row, meta.id, meta.category, meta.imageName, meta.metadata)];
      if |results| >= topK {
        MatchesPrefix(fetched, i + 1, idMapping, category);
        PrefixFacts(fetched, idMapping, category, |results|);
        return;
      }
      i := i + 1;
    }
    assert fetched[..i] == fetched;
    PrefixFacts(fetched, idMapping, category, |results|);
  }

  /** What holds of every prefix of the scan's matches. */
  lemma PrefixFacts(hits: seq<Hit>, idMapping: seq<MappingEntry>, category: string, m: nat)
    requires RowsInRange(hits, idMapping)
    requires m <= |Matches(hits, idMapping, category)|
    ensures var ms := Matches(hits, idMapping, category)[..m];
            && |ms| <= |hits|
            && (category != "both" ==> forall i :: 0 <= i < |ms| ==> ms[i].category == category)
            && (forall r :: r in ms ==> FromKeptRow(r, hits, idMapping, category))
            && (NonIncreasing(hits) ==> BestFirst(ms))
  {
    var all := Matches(hits, idMapping, category);
    MatchesOrigin(hits, idMapping, category);
    MatchesOrder(hits, idMapping, category);
    forall r | r in all[..m] ensures r in all {
    }
  }

  /** The scan over a prefix of the rows yields a prefix of the full scan. */
  lemma {:induction false} MatchesPrefix(hits: seq<Hit>, j: nat, idMapping: seq<MappingEntry>, category: string)
    requires j <= |hits| && RowsInRange(hits, idMapping)
    ensures var pre := Matches(hits[..j], idMapping, category);
            var all := Matches(hits, idMapping, category);
            |pre| <= |all| && pre == all[..|pre|]
  {
    if j < |hits| {
      var init := hits[..|hits| - 1];
      assert hits[..j] == init[..j];
      MatchesPrefix(init, j, idMapping, category);
    } else {
      assert hits[..j] == hits;
    }
  }

  /** `r` is the result of a row of `hits` that the scan keeps. */
  ghost predicate FromKeptRow(r: DenseResult, hits: seq<Hit>, idMapping: seq<MappingEntry>, category: string)
    requires RowsInRange(hits, idMapping)
  {
    exists k :: 0 <= k < |hits| && Keep(hits[k], idMapping, category) && r == ResultFor(hits[k], idMapping)
  }

  /** Every match is the result of a kept row, with its score, row, id,
      category, image name and metadata. */
  lemma {:induction false} MatchesOrigin(hits: seq<Hit>, idMapping: seq<MappingEntry>, category: string)
    requires RowsInRange(hits, idMapping)
    ensures forall r :: r in Matches(hits, idMapping, category) ==> FromKeptRow(r, hits, idMapping, category)
  {
    if hits != [] {
      var init := hits[..|hits| - 1];
      assert RowsInRange(init, idMapping);
      MatchesOrigin(init, idMapping, category);
      var rest := Matches(init, idMapping, category);
      forall r | r in Matches(hits, idMapping, category) ensures FromKeptRow(r, hits, idMapping, category) {
        if r in rest {
          assert FromKeptRow(r, init, idMapping, category);
          var k :| 0 <= k < |init| && Keep(init[k], idMapping, category) && r == ResultFor(init[k], idMapping);
          assert hits[k] == init[k];
        } else {
          assert r == ResultFor(hits[|hits| - 1], idMapping);
        }
      }
    }
  }

  /** The index's scores do not increase along its answer. */
  predicate NonIncreasing(hits: seq<Hit>) {
    forall i, j :: 0 <= i < j < |hits| ==> hits[i].score >= hits[j].score
  }

  /** Results in non-increasing score order. */
  predicate BestFirst(rs: seq<DenseResult>) {
    forall i, j :: 0 <= i < j < |rs| ==> rs[i].score >= rs[j].score
  }

  /** Filtering keeps the index's order, so results come out best first when
      the index's answer does. */
  lemma {:induction false} MatchesOrder(hits: seq<Hit>, idMapping: seq<MappingEntry>, category: string)
    requires RowsInRange(hits, idMapping)
    ensures NonIncreasing(hits) ==> BestFirst(Matches(hits, idMapping, category))
  {
    if hits != [] && NonIncreasing(hits) {
      var init := hits[..|hits| - 1];
      assert NonIncreasing(init);
      MatchesOrder(init, idMapping, category);
      MatchesOrigin(init, idMapping, category);
      var rest := Matches(init, idMapping, category);
      var last := hits[|hits| - 1];
      assert BestFirst(rest);
      forall i | 0 <= i < |rest| ensures rest[i].score >= hits[|hits| - 1].score {
        assert rest[i] in rest;
        var k :| 0 <= k < |init| && Keep(init[k], idMapping, category) && rest[i] == ResultFor(init[k], idMapping);
        assert hits[k] == init[k];
      }
      if Keep(last, idMapping, category) {
        var ms := rest + [ResultFor(last, idMapping)];
        assert Matches(hits, idMapping, category) == ms;
        forall i, j | 0 <= i < j < |ms| ensures ms[i].score >= ms[j].score {
          if j < |rest| {
            assert ms[i] == rest[i] && ms[j] == rest[j];
          } else {
            assert ms[i] == rest[i] && ms[j].score == last.score;
          }
        }
      }
    }
  }

  /** With category `both` nothing is filtered: the scan keeps every row. */
  lemma {:induction false} MatchesBoth(hits: seq<Hit>, idMapping: seq<MappingEntry>)
    requires RowsInRange(hits, idMapping)
    ensures var ms := Matches(hits, idMapping, "both");
            |ms| == |hits| && forall i :: 0 <= i < |hits| ==> ms[i] == ResultFor(hits[i], idMapping)
  {
    if hits != [] {
      MatchesBoth(hits[..|hits| - 1], idMapping);
    }
  }
}
