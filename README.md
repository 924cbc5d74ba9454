# Jewellery search ranking funnel, modelled in Dafny

This project models the ranking core of a jewellery retrieval service, which runs
retrieve, fuse, then rerank:

- **Router.** A keyword router sends a query to the `ring` index, the `necklace`
  index, or `both`.
- **Dense retrieval.** Dense retrieval over-fetches 50 rows from an
  inner-product image index. It drops rows of the wrong category and stops once
  `top_k` are kept.
- **Lexical retrieval.** Lexical retrieval ranks each category's BM25 rows
  (stable, best first). It keeps the top `top_k` of each and merges the lists
  with a second stable sort.
- **Hybrid fusion.** Hybrid fusion min-max normalizes both score lists and keys
  both sides by item id. It adds `0.7 * dense + 0.3 * lexical` and sorts.
- **Reranking.** A cross-encoder scores every candidate. The reranker writes
  `rerank_score` into each one, sorts the caller's list in place and returns
  its first `top_k` entries as a new list.
- **Offline builders.** Two offline builders create the positional row-to-item
  maps the searches rely on: the BM25 corpus with `id_map`, and the image
  embeddings with `id_mapping`.

The project has one Dafny module per source file, plus two support modules:

- `Builtins` gives the Python primitives their Python meaning: `str.lower`, the
  substring test, `min`/`max`, slicing with negative bounds, and `dict.get(k, "")`.
- `Sorting` models Python's stable `sorted(..., reverse=True)` as an
  insertion-built ranking of positions. It is proved to be a permutation that is
  sorted and stable.

How each kind of source code is modelled:

- Loops that build lists or dicts are methods. Each loop's invariant ties it to a
  specification function, and the properties are proved about those functions.
- A Python dict is a value `Dict(keys, vals)`. `keys` records insertion order;
  assigning to a key already present keeps its place.
- `rerank` sorts the caller's list in place, so the list is an `array` that the
  method modifies.

The external engines are parameters or input sequences: the index search, BM25
`get_scores`, `word_tokenize`, the CLIP encoders and `CrossEncoder.predict`.
Scores are `real`.

## Model

| member | source | states |
|---|---|---|
| Builtins.Get | backend/reranker.py:27-32 | `metadata.get(key, "")` is the field's value when the field is present and "" when it is not |
| Builtins.Lower | backend/query_router.py:23 | lower-casing keeps the length and lower-cases every character in place |
| Builtins.LowerIdempotent | backend/query_router.py:23 | lower-casing an already lower-cased string changes nothing |
| Builtins.Contains | backend/query_router.py:25-26 | `k in text` holds exactly when `k` occurs at some position of `text` |
| Builtins.MinOf | backend/hybrid_search.py:27 | `min` of a non-empty list is one of its elements and no element is smaller |
| Builtins.MaxOf | backend/hybrid_search.py:28 | `max` of a non-empty list is one of its elements and no element is larger |
| Builtins.Take | backend/hybrid_search.py:95 | `xs[:k]` is the prefix of `xs` of length `min(k, len)` for `k >= 0`, and `len + k` clipped at 0 for negative `k`; it holds nothing `xs` does not, counting repeats |
| Sorting.SortOrder | backend/bm25_search.py:59 | the sort visits every input position exactly once, each one ahead of all later ones by (score descending, position ascending) |
| Sorting.SortDesc | backend/hybrid_search.py:89-93 | the sorted list has the same elements with the same multiplicities, and its keys never increase |
| Sorting.SortDescStable | backend/bm25_search.py:59 | two elements with equal keys come out in their input order |
| Sorting.SortDescOrigin | backend/hybrid_search.py:89-93 | the `a`-th sorted element is the input element at position `SortOrder[a]` |
| Sorting.SortedPrefixKeepsBest | backend/hybrid_search.py:89-95 | cutting a sorted list after `n` elements leaves out nothing that ranks above anything kept (`KeepsBest`) |
| QueryRouter.AnyKeyword | backend/query_router.py:25-26 | `any(k in q for k in keywords)` holds exactly when some keyword occurs in `q` |
| QueryRouter.RouteQuery | backend/query_router.py:22-40 | the category is one of ring, necklace, both; it is ring iff some ring keyword and no necklace keyword occurs in the lower-cased query, necklace in the mirror case, and both iff both lists match or neither does; the query is returned unchanged |
| QueryRouter.RouteCaseInsensitive | backend/query_router.py:23-26 | two queries with the same lower-cased form are routed alike |
| QueryRouter.RouteLowered | backend/query_router.py:23 | routing the lower-cased query gives the category of the original query |
| QueryRouter.SubstringRouting | backend/query_router.py:23-31 | matching is by substring: "String of pearls" goes to rings because "string" contains "ring" |
| QueryRouter.NoNecklaceKeyword | backend/query_router.py:14-16 | no necklace keyword occurs in "string of pearls" |
| BuildBm25.JoinSpace | backend/build_bm25.py:41 | `" ".join` of no parts is ""; otherwise the text starts with the first part and is one character longer than the parts for each pair of neighbours |
| BuildBm25.MetadataToText | backend/build_bm25.py:32-41 | the document is the six fields in order, missing ones as "", joined by single spaces and lower-cased, and its length is 5 plus the field lengths |
| BuildBm25.LowerJoin | backend/build_bm25.py:41 | lower-casing a space-joined text equals joining the lower-cased parts |
| BuildBm25.JoinSix | backend/build_bm25.py:41 | six parts joined have exactly five single-space separators |
| BuildBm25.TextDependsOnFieldsOnly | backend/build_bm25.py:32-41 | items that agree on the six fields give the same document |
| BuildBm25.BuildIndex | backend/build_bm25.py:51-58 | after the loop `corpus` and `id_map` have the length of the data, `id_map` is the data in order, and row `i` of the corpus is the tokenized document of item `i` |
| BuildBm25.BuildAll | backend/build_bm25.py:47-58 | each category's index is built from that category's file alone |
| CreateEmbeddings.LoadMetadata | backend/create_embeddings.py:42-51 | the catalog is the ring items followed by the necklace items, each in file order |
| CreateEmbeddings.KeptRows | backend/create_embeddings.py:65-72 | the catalog positions the loop embeds are strictly increasing, in range, and include a position exactly when that item's image exists |
| CreateEmbeddings.WithImage | backend/create_embeddings.py:65-72 | the kept items are exactly the catalog items whose image exists, and there are no more of them than catalog items |
| CreateEmbeddings.WithImageRows | backend/create_embeddings.py:65-72 | kept item `r` is the catalog item at `KeptRows[r]`, so the kept items are the items with an image in catalog order |
| CreateEmbeddings.EntryFor | backend/create_embeddings.py:89-95 | the record holds the row, the item's id, category and image name, and the item itself |
| CreateEmbeddings.Mapping | backend/create_embeddings.py:59-97 | `id_mapping` has one record per kept item; record `r` has `faiss_index == r` and describes the `r`-th kept item, which has all three fields the record copies |
| CreateEmbeddings.MappingStep | backend/create_embeddings.py:65-97 | one more readable item appends its record exactly when its image exists |
| CreateEmbeddings.CreateEmbeddings | backend/create_embeddings.py:59-97 | the script gets through the catalog exactly when every item has `category` and `image_name` and every item with an image also has `id`; otherwise it stops with `KeyError` and saves nothing; when it gets through, `id_mapping` is `Mapping` of the catalog; embeddings grow in lockstep with the records, and embedding `r` is the embedding of record `r`'s image |
| CreateEmbeddings.SkippedExactlyWithoutImage | backend/create_embeddings.py:69-72 | an item is left out of the mapping exactly when its image file is missing |
| FaissSearch.Matches | backend/faiss_search.py:83-96 | the category filter keeps at most the rows it scans, and with a category other than both every kept result has that category |
| FaissSearch.Quota | backend/faiss_search.py:98-99 | the scan stops after `top_k` kept results, and after one when `top_k < 1`, because the length check follows an append |
| FaissSearch.Search | backend/faiss_search.py:78-101 | the results are the first `max(top_k, 1)` category matches of the fetched rows in index order (all of them when fewer), at most 50; each result copies the score and row of a kept row and that row's mapping record; results are best first when the index's answer is |
| FaissSearch.MatchesPrefix | backend/faiss_search.py:83-99 | scanning a prefix of the rows yields a prefix of the full scan's matches |
| FaissSearch.MatchesOrigin | backend/faiss_search.py:84-96 | every match carries the score, row, id, category, image name and metadata of a row the filter keeps |
| FaissSearch.MatchesOrder | backend/faiss_search.py:83-96 | filtering keeps the index's order, so non-increasing index scores give non-increasing results |
| FaissSearch.MatchesBoth | backend/faiss_search.py:86-87 | with category both, every fetched row is kept, in order |
| Bm25Search.TopRows | backend/bm25_search.py:43 | the selected rows are distinct row numbers, `len(sorted(...)[:top_k])` (`SliceLength`) of them, best first with ties by ascending row, and every row left out ranks behind every row kept |
| Bm25Search.SortedRowsAreRanked | backend/bm25_search.py:43 | sorting the row numbers by their scores visits them in the stable rank order |
| Bm25Search.CategoryHits | backend/bm25_search.py:43-48 | one category contributes its selected rows' scores and `id_map` entries under its own tag |
| Bm25Search.AppendCategory | backend/bm25_search.py:43-48 | the loop appends that category's hits to the list in rank order |
| Bm25Search.Gathered | backend/bm25_search.py:41-57 | the list before the final sort holds `len(sorted(...)[:top_k])` (`SliceLength`) hits of each requested category, every hit is tagged ring or necklace, and no necklace hit precedes a ring hit |
| Bm25Search.Ranking | backend/bm25_search.py:59-60 | the final list is best first, is `results[:top_k]` in length over the gathered hits, holds only gathered hits (counting repeats), and is empty for a category other than ring, necklace or both |
| Bm25Search.RankingKeepsBest | backend/bm25_search.py:59-60 | a gathered hit left out by the cut scores no higher than any hit kept |
| Bm25Search.Search | backend/bm25_search.py:37-60 | the method returns the ranking of the ring hits followed by the necklace hits |
| Bm25Search.RankingOrigin | backend/bm25_search.py:41-57 | every reported hit is a row of the index named by its tag, with that row's score and item, and that index was asked for |
| Bm25Search.GatheredOrigin | backend/bm25_search.py:41-57 | every gathered hit is a row of the index named by its tag |
| Bm25Search.BothKeepsRingFirst | backend/bm25_search.py:41-59 | in both mode, among equal scores a ring hit is never preceded by a necklace hit |
| HybridSearch.MinMaxNormalize | backend/hybrid_search.py:23-33 | the output has the input's length (so an empty list stays empty), a flat list maps to all 1.0, and every output lies in [0, 1] |
| HybridSearch.Rescale | backend/hybrid_search.py:33 | each score `s` becomes `(s - lo) / (hi - lo)`, which lies in [0, 1] |
| HybridSearch.NormalizeIsRescale | backend/hybrid_search.py:27-33 | a list whose minimum is below its maximum is rescaled by its own minimum and maximum |
| HybridSearch.NotFlat | backend/hybrid_search.py:30 | a list whose scores are not all equal has its minimum below its maximum |
| HybridSearch.NormalizeMonotone | backend/hybrid_search.py:33 | `s_i <= s_j` implies `n_i <= n_j` |
| HybridSearch.NormalizeMinimum | backend/hybrid_search.py:33 | on a list that is not flat, a score maps to 0 exactly when it is the minimum |
| HybridSearch.NormalizeMaximum | backend/hybrid_search.py:33 | on a list that is not flat, a score maps to 1 exactly when it is the maximum |
| HybridSearch.NormalizeExamples | backend/hybrid_search.py:23-33 | 0.9, 0.5, 0.5 normalize to 1, 0, 0 and 4, 4, 4 to 1, 1, 1 |
| HybridSearch.Put | backend/hybrid_search.py:49 | `d[k] = v` makes `k` hold `v`; a key already present keeps its place in the order, a new key goes last |
| HybridSearch.PutValid | backend/hybrid_search.py:49-53 | assigning a key keeps the dict's order and map in agreement, each key listed once |
| HybridSearch.Values | backend/hybrid_search.py:90 | `values()` lists one value per key, in insertion order |
| HybridSearch.ToDict | backend/hybrid_search.py:47-53 | the dict built from (id, entry) pairs has exactly the ids seen, and each id holds the entry of its last occurrence |
| HybridSearch.ToDictKeyOrder | backend/hybrid_search.py:47-53 | the dict's keys are ordered by the first occurrence of each id: a repeated id keeps the place its first entry gave it |
| HybridSearch.DenseScores | backend/hybrid_search.py:44 | `faiss_scores` lists the dense results' scores in order |
| HybridSearch.DenseEntries | backend/hybrid_search.py:45-48 | entry `i` pairs the id of dense result `i` with its normalized score, its metadata and its category; every score lies in [0, 1] |
| HybridSearch.LexicalScores | backend/hybrid_search.py:57 | `bm25_scores` lists the lexical results' scores in order |
| HybridSearch.LexicalEntries | backend/hybrid_search.py:58-61 | entry `i` pairs the item id of lexical result `i` with its normalized score, its metadata and its category; every score lies in [0, 1] |
| HybridSearch.DenseDict | backend/hybrid_search.py:44-53 | `faiss_dict` is a well-formed dict whose keys are exactly the dense ids; each id holds the normalized score, metadata and category of the last dense result with that id, a score in [0, 1] |
| HybridSearch.LexicalDict | backend/hybrid_search.py:57-66 | `bm25_dict` is a well-formed dict whose keys are exactly the lexical ids; each id holds the normalized score, metadata and category of the last lexical result with that id, a score in [0, 1] |
| HybridSearch.LexicalOnly | backend/hybrid_search.py:78-86 | the lexical ids appended to `fused` are exactly those the dense dict lacks, each once |
| HybridSearch.DensePass | backend/hybrid_search.py:71-76 | after the first `n` dense keys, `fused` has at most `n` keys |
| HybridSearch.LexicalPass | backend/hybrid_search.py:78-86 | after the first `n` lexical keys, `fused` has at most `n` keys more than `faiss_dict` |
| HybridSearch.DensePassAt | backend/hybrid_search.py:71-76 | after the dense pass over `n` keys, an id is present exactly when it is among them, holding 0.7 times its dense score with the dense metadata and category |
| HybridSearch.DensePassKeys | backend/hybrid_search.py:71-76 | the dense pass inserts the dense ids in their order |
| HybridSearch.LexicalPassAt | backend/hybrid_search.py:78-86 | after `n` lexical keys, an id is present when either side has seen it; it holds the sum of its weighted scores when both have, and the dense metadata and category when the dense side has it |
| HybridSearch.LexicalPassKeys | backend/hybrid_search.py:78-86 | the lexical pass appends only the ids the dense side lacks, in lexical order |
| HybridSearch.Fuse | backend/hybrid_search.py:69-86 | the fused ids are the union of both sides' ids, dense ids first then lexical-only ids; an id on both sides scores `0.7 d + 0.3 b` and keeps the dense metadata and category; a dense-only id scores `0.7 d` and a lexical-only id `0.3 b` |
| HybridSearch.FuseBounded | backend/hybrid_search.py:69-86 | with both sides' scores in [0, 1], every fused score lies in [0, 1] |
| HybridSearch.FusedSize | backend/hybrid_search.py:69-86 | `fused` has one entry per distinct id found by either side |
| HybridSearch.FusedRanking | backend/hybrid_search.py:89-95 | the returned list is best first, has `min(top_k, number of distinct ids)` entries for `top_k >= 0`, holds only fused entries (counting repeats), leaves out no fused entry scoring above one it keeps, and every score lies in [0, 1] |
| HybridSearch.RankingFacts | backend/hybrid_search.py:89-95 | sorting any dict's values and cutting to `top_k` gives a best-first slice of that length, drawn from the values and keeping the best |
| HybridSearch.FusedTiesKeepInsertionOrder | backend/hybrid_search.py:89-95 | equal fused scores keep dict insertion order, so an id only the lexical side found never ranks ahead of an equally scored dense id |
| HybridSearch.BuildDenseDict | backend/hybrid_search.py:44-53 | the loop over `zip(faiss_results, faiss_norm)` builds `faiss_dict` |
| HybridSearch.BuildLexicalDict | backend/hybrid_search.py:57-66 | the loop over `zip(bm25_results, bm25_norm)` builds `bm25_dict` |
| HybridSearch.CopyDenseLoop | backend/hybrid_search.py:71-76 | the first fusion loop performs the dense pass over every dense key |
| HybridSearch.MergeLexicalLoop | backend/hybrid_search.py:78-86 | the second fusion loop, with its in-place `+=`, performs the lexical pass over every lexical key |
| HybridSearch.FuseDicts | backend/hybrid_search.py:69-86 | the two fusion loops build the fused dict |
| HybridSearch.Search | backend/hybrid_search.py:39-95 | `hybrid_search` returns the fused ranking of the two retrievers' results |
| Reranker.MetadataSentence | backend/reranker.py:25-33 | the text is "Category: " + category + ". Material: " + material + ". Stone type: " + stone type + ". Stone shape: " + stone shape + ". Color: " + color + ". Description: " + description + ".", missing fields as "", so it is 76 characters longer than the six fields together |
| Reranker.SentenceDependsOnFieldsOnly | backend/reranker.py:25-33 | items that agree on the six fields give the same text |
| Reranker.EmptySentence | backend/reranker.py:25-33 | an item with none of the fields renders all six labels with empty values |
| Reranker.Pairs | backend/reranker.py:43-46 | one (query, text) pair per candidate, in candidate order |
| Reranker.Attach | backend/reranker.py:50-51 | candidate `i` gets score `i` as its rerank score and nothing else |
| Reranker.Reranked | backend/reranker.py:50-53 | the caller's list after the call has every candidate once with its score attached, best first by rerank score |
| Reranker.RerankedSpec | backend/reranker.py:50-53 | the reranked list is best first and a permutation of the scored candidates; entry `a` is the input candidate at position `SortOrder[a]` with its own score attached and its fused score, metadata and category unchanged |
| Reranker.RerankedStable | backend/reranker.py:53 | equal rerank scores keep the order the candidates came in |
| Reranker.RerankResult | backend/reranker.py:39-55 | [] for no candidates; otherwise the first `top_k` entries of the reranked list (`min(top_k, len(candidates))` of them for `top_k >= 0`), best first, drawn from the scored candidates |
| Reranker.Rerank | backend/reranker.py:39-55 | with no candidates the model is not called, [] is returned and the list is untouched; otherwise the model sees one pair per candidate, the caller's list becomes the stable reranked list, and the result is its first `top_k` entries |
| Reranker.BuildPairs | backend/reranker.py:43-46 | the loop builds the pairs in candidate order |
| Reranker.AttachScores | backend/reranker.py:50-51 | every candidate in the caller's list receives the score at its position |
| Reranker.SortByRerankScore | backend/reranker.py:53 | the caller's list is rearranged in place into its stable descending order by rerank score |
| Reranker.RankOfThree | backend/reranker.py:53 | rerank scores 0.2, 0.9, 0.5 admit only the order 1, 2, 0 |
| Reranker.ScoresReorder | backend/reranker.py:48-55 | candidates scored 0.2, 0.9 and 0.5 come back second, third, first, each carrying its score |

## Left out

- Index loading and persistence are not modelled: `pickle`, `json`, `np.save`,
  `faiss.read_index` and module-level globals. The data they produce is passed in
  as parameters.
- The external engines are abstract:
  - the index search in `faiss_search` is the list of (score, row) pairs it returned;
  - `get_scores` is one score per row of the category's index;
  - `word_tokenize` and `CrossEncoder.predict` are function parameters;
  - in `create_embeddings`, image existence and the image encoder are function
    parameters;
  - `BM25Okapi`'s statistics are not modelled.
- `encode_text` is not modelled. `hybrid_search` passes `encode_text(query)`,
  `top_k` and `category` to `faiss_search`, and the query, `top_k` and
  `category` to `bm25_search`; here their result lists are inputs of
  `HybridSearch.Search`.
- Scores are unbounded reals. float32 rounding, the `float()` casts and the
  embedding normalization arithmetic are not modelled.
- `Builtins.Lower` lower-cases ASCII letters only. Python's `str.lower` also
  folds other alphabets.
- JSON items are maps from field name to string. Non-string field values are not
  modelled.
- CreateEmbeddings.CreateEmbeddings models the `KeyError` stop as `ok == false`
  with no embeddings and no records. The traceback, the progress bar and the
  embeddings computed before the failing item are not modelled, since the
  script saves nothing in that case.
- CreateEmbeddings.CreateEmbeddings reports success with empty lists when no
  image exists. The script's `np.vstack` of an empty list would raise there;
  saving the outputs is not modelled.
- FaissSearch.Search requires every fetched row to be a valid index into
  `id_mapping`. The index pads a short answer with row -1. Python would then read
  the last mapping record (`id_mapping[-1]`); that case is excluded rather than
  modelled.
- FaissSearch.Search: the index call is asked for 50 rows. The model only
  requires that at most 50 were returned.
- HybridSearch.Search requires every lexical result to carry an `id` field. The
  source reads `r["metadata"]["id"]` without a default and would raise otherwise.
- HybridSearch.NormalizeMinimum and HybridSearch.NormalizeMaximum are stated for
  lists whose minimum is below their maximum. `HybridSearch.NotFlat` connects
  this to the "not all equal" branch of the source.
- Reranker.Rerank requires the model to return exactly one score per pair.
  `zip` would silently drop candidates on a shorter answer, and the sort would
  then fail on a candidate without `rerank_score`.
- Reranker.Rerank models each candidate dict as a value in an array slot. Writing
  `rerank_score` into a dict that other lists also hold is not modelled; within
  the ranking funnel each candidate dict is referenced once.
- Reranker.SortByRerankScore gives the outcome of Python's in-place stable sort,
  not the steps of its sorting algorithm.
- `backend/app.py` chains `hybrid_search(top_k=15)` into `rerank(top_k=10)`. The
  HTTP endpoints, uploads and CORS set-up around that chain are transport code
  and are not part of this model.
- `backend/ocr_pipeline.py` and `backend/query_rewriter.py` (image statistics
  and LLM calls) are not part of this model. In the OCR pipeline, the "sketch"
  branch of `detect_image_type` can never be taken: its condition implies the
  "handwritten" condition tested just before it.
- The Streamlit front end and `backend/create_faiss_index.py`, which only builds
  and writes the flat inner-product index, are not part of this model.
