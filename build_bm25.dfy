/** The offline builder of the lexical indexes: for each category file, one
    tokenized document per item and the row-to-item map `id_map`, grown in
    lockstep. The tokenizer is a parameter; the BM25 statistics computed
    from the corpus are not modelled. */
module BuildBm25 {
  import opened Builtins

  /** The six fields joined into a document, in this order. */
  const TextFields: seq<string> := ["category", "material", "stone_type", "stone_shape", "color", "short_description"]

  /** The number of characters in all the parts together. */
  function TotalLength(parts: seq<string>): nat {
    if parts == [] then 0 else |parts[0]| + TotalLength(parts[1..])
  }

  /** `" ".join(parts)`: the parts with one space between neighbours, so
      one separator fewer than parts, starting with the first part. */
  function JoinSpace(parts: seq<string>): (joined: string)
    ensures parts == [] ==> joined == ""
    ensures parts != [] ==> |joined| == TotalLength(parts) + |parts| - 1 && joined[..|parts[0]|] == parts[0]
  {
    if parts == [] then ""
    else if |parts| == 1 then parts[0]
    else parts[0] + " " + JoinSpace(parts[1..])
  }

  /** `metadata_to_text`: the six fields (a missing one as ""), joined by
      single spaces, lower-cased. */
  function MetadataToText(item: Metadata): (text: string)
    ensures text == Lower(Get(item, "category")) + " " + Lower(Get(item, "material")) + " "
                    + Lower(Get(item, "stone_type")) + " " + Lower(Get(item, "stone_shape")) + " "
                    + Lower(Get(item, "color")) + " " + Lower(Get(item, "short_description"))
    ensures |text| == 5 + |Get(item, "category")| + |Get(item, "material")| + |Get(item, "stone_type")|
                        + |Get(item, "stone_shape")| + |Get(item, "color")| + |Get(item, "short_description")|
  {
    var fields := seq(|TextFields|, i requires 0 <= i < |TextFields| => Get(item, TextFields[i]));
    var joined := JoinSpace(fields);
    LowerJoin(fields);
    JoinSix(seq(6, i requires 0 <= i < 6 => Lower(fields[i])));
    Lower(joined)
  }

  /** Lower-casing a joined text lower-cases each part. */
  lemma {:induction false} LowerJoin(parts: seq<string>)
    ensures Lower(JoinSpace(parts)) == JoinSpace(seq(|parts|, i requires 0 <= i < |parts| => Lower(parts[i])))
  {
    var lowered := seq(|parts|, i requires 0 <= i < |parts| => Lower(parts[i]));
    if |parts| > 1 {
      var tail := parts[1..];
      LowerJoin(tail);
      assert lowered[1..] == seq(|tail|, i requires 0 <= i < |tail| => Lower(tail[i]));
      LowerAppend(parts[0] + " ", JoinSpace(tail));
      LowerAppend(parts[0], " ");
    }
  }

  /** Six parts joined: five single-space separators. */
  lemma JoinSix(f: seq<string>)
    requires |f| == 6
    ensures JoinSpace(f) == f[0] + " " + f[1] + " " + f[2] + " " + f[3] + " " + f[4] + " " + f[5]
  {
    assert JoinSpace(f[5..]) == f[5];
    assert JoinSpace(f[4..]) == f[4] + " " + f[5] by { assert f[4..][1..] == f[5..]; }
    assert JoinSpace(f[3..]) == f[3] + " " + JoinSpace(f[4..]) by { assert f[3..][1..] == f[4..]; }
    assert JoinSpace(f[2..]) == f[2] + " " + JoinSpace(f[3..]) by { assert f[2..][1..] == f[3..]; }
    assert JoinSpace(f[1..]) == f[1] + " " + JoinSpace(f[2..]) by { assert f[1..][1..] == f[2..]; }
  }

  /** The document text depends on the six fields only. */
  lemma TextDependsOnFieldsOnly(a: Metadata, b: Metadata)
    requires forall f :: f in TextFields ==> Get(a, f) == Get(b, f)
    ensures MetadataToText(a) == MetadataToText(b)
  {
    assert forall i :: 0 <= i < |TextFields| ==> Get(a, TextFields[i]) == Get(b, TextFields[i]);
  }

  /** One category's persisted lexical index: the tokenized corpus and `id_map`. */
  datatype Bm25Index = Bm25Index(corpus: seq<seq<string>>, idMap: seq<Metadata>)

  /** Row `i` of the index is the `i`-th item of `data`, tokenized. */
  ghost predicate BuiltFrom(index: Bm25Index, data: seq<Metadata>, tokenize: string -> seq<string>) {
    && |index.corpus| == |index.idMap| == |data|
    && index.idMap == data
    && forall i :: 0 <= i < |data| ==> index.corpus[i] == tokenize(MetadataToText(data[i]))
  }

  /** The per-file build loop. */
  method BuildIndex(data: seq<Metadata>, tokenize: string -> seq<string>) returns (index: Bm25Index)
    ensures |index.corpus| == |index.idMap| == |data|
    ensures index.idMap == data
    ensures forall i :: 0 <= i < |data| ==> index.corpus[i] == tokenize(MetadataToText(data[i]))
  {
    var corpus: seq<seq<string>> := [];
    var idMap: seq<Metadata> := [];
    var n := 0;
    while n < |data|
      invariant 0 <= n <= |data|
      invariant |corpus| == |idMap| == n
      invariant idMap == data[..n]
      invariant forall i :: 0 <= i < n ==> corpus[i] == tokenize(MetadataToText(data[i]))
    {
      var item := data[n];
      var text := MetadataToText(item);
      var tokens := tokenize(text);
      corpus := corpus + [tokens];
      idMap := idMap + [item];
      n := n + 1;
    }
    assert data[..n] == data;
    index := Bm25Index(corpus, idMap);
  }

  /** The loop over the two category files: each index is built from its
      own file only. */
  method BuildAll(ringData: seq<Metadata>, necklaceData: seq<Metadata>, tokenize: string -> seq<string>)
    returns (ring: Bm25Index, necklace: Bm25Index)
    ensures BuiltFrom(ring, ringData, tokenize)
    ensures BuiltFrom(necklace, necklaceData, tokenize)
  {
    ring := BuildIndex(ringData, tokenize);
    necklace := BuildIndex(necklaceData, tokenize);
  }
}
