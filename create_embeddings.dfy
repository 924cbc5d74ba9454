/** The offline builder of the dense index: the ring and necklace catalogs
    are concatenated, every item whose image file exists is embedded, and
    the embedding list and the row-to-item mapping `id_mapping` are grown
    in lockstep. Image existence and the image encoder are parameters. */
module CreateEmbeddings {
  import opened Builtins

  type Embedding = seq<real>

  /** One record of `id_mapping`: the row it describes and a snapshot of the item. */
  datatype MappingEntry = MappingEntry(faissIndex: int, id: string, category: string, imageName: string, metadata: Metadata)

  /** The two fields every item must have: the loop reads them as
      `item["..."]`, without a default, before looking for the image. */
  predicate HasImagePath(item: Metadata) {
    "category" in item && "image_name" in item
  }

  function Concat(files: seq<seq<Metadata>>): seq<Metadata> {
    if files == [] then [] else Concat(files[..|files| - 1]) + files[|files| - 1]
  }

  /** `load_metadata`: the ring file's items, then the necklace file's, each in file order. */
  method LoadMetadata(ringFile: seq<Metadata>, necklaceFile: seq<Metadata>) returns (allItems: seq<Metadata>)
    ensures allItems == ringFile + necklaceFile
  {
    var files := [ringFile, necklaceFile];
    allItems := [];
    var f := 0;
    while f < |files|
      invariant 0 <= f <= |files|
      invariant allItems == Concat(files[..f])
    {
      assert files[..f + 1][..f] == files[..f];
      allItems := allItems + files[f];
      f := f + 1;
    }
    assert files[..2] == files;
    assert Concat(files[..1]) == ringFile by {
      assert files[..1][..0] == [];
    }
  }

  /** The image file `data/processed/<category>/<image_name>` of an item. */
  predicate ImageFound(item: Metadata, imageExists: (string, string) -> bool)
    requires HasImagePath(item)
  {
    imageExists(item["category"], item["image_name"])
  }

  /** The loop gets through `items` without a `KeyError`: every item has
      the image path fields, and the `id` field too when its image exists. */
  predicate Readable(items: seq<Metadata>, imageExists: (string, string) -> bool) {
    forall i :: 0 <= i < |items| ==> HasImagePath(items[i]) && (ImageFound(items[i], imageExists) ==> "id" in items[i])
  }

  /** The item has every field the mapping record copies. */
  predicate Identified(item: Metadata) {
    HasImagePath(item) && "id" in item
  }

  /** The catalog positions of the items whose image exists, in increasing order. */
  function KeptRows(items: seq<Metadata>, imageExists: (string, string) -> bool): (rows: seq<nat>)
    requires forall i :: 0 <= i < |items| ==> HasImagePath(items[i])
    ensures forall a :: 0 <= a < |rows| ==> rows[a] < |items|
    ensures forall a, b :: 0 <= a < b < |rows| ==> rows[a] < rows[b]
    ensures forall i :: 0 <= i < |items| ==> (i in rows <==> ImageFound(items[i], imageExists))
  {
    if items == [] then []
    else
      var init := items[..|items| - 1];
      var rest := KeptRows(init, imageExists);
      assert forall i :: 0 <= i < |init| ==> init[i] == items[i];
      if ImageFound(items[|items| - 1], imageExists) then rest + [|items| - 1] else rest
  }

  /** The items the loop keeps: those whose image exists. */
  function WithImage(items: seq<Metadata>, imageExists: (string, string) -> bool): (kept: seq<Metadata>)
    requires forall i :: 0 <= i < |items| ==> HasImagePath(items[i])
    ensures |kept| <= |items|
    ensures forall x :: x in kept <==> x in items && HasImagePath(x) && ImageFound(x, imageExists)
  {
    if items == [] then []
    else
      var init := items[..|items| - 1];
      var last := items[|items| - 1];
      var rest := WithImage(init, imageExists);
      assert forall x :: x in items <==> x in init || x == last;
      if ImageFound(last, imageExists) then rest + [last] else rest
  }

  /** The kept items are exactly the items at `KeptRows`, in catalog order. */
  lemma {:induction false} WithImageRows(items: seq<Metadata>, imageExists: (string, string) -> bool)
    requires forall i :: 0 <= i < |items| ==> HasImagePath(items[i])
    ensures |WithImage(items, imageExists)| == |KeptRows(items, imageExists)|
    ensures forall r :: 0 <= r < |WithImage(items, imageExists)| ==>
              WithImage(items, imageExists)[r] == items[KeptRows(items, imageExists)[r]]
  {
    if items != [] {
      var init := items[..|items| - 1];
      WithImageRows(init, imageExists);
      var rest, restRows := WithImage(init, imageExists), KeptRows(init, imageExists);
      var kept, rows := WithImage(items, imageExists), KeptRows(items, imageExists);
      forall r | 0 <= r < |kept| ensures kept[r] == items[rows[r]] {
        if r < |rest| {
          assert kept[r] == rest[r] == init[restRows[r]];
        }
      }
    }
  }

  /** The mapping record written for the item embedded at `row`: the row,
      the item's id, category and image name, and the item itself. */
  function EntryFor(row: nat, item: Metadata): (e: MappingEntry)
    requires Identified(item)
    ensures e.faissIndex == row && e.metadata == item
    ensures e.id == item["id"] && e.category == item["category"] && e.imageName == item["image_name"]
  {
    MappingEntry(row, item["id"], item["category"], item["image_name"], item)
  }

  /** Every record describes the row it sits at. */
  predicate Positional(idMapping: seq<MappingEntry>) {
    forall r :: 0 <= r < |idMapping| ==> idMapping[r].faissIndex == r
  }

  /** The `id_mapping` written for a catalog the loop reads without error:
      record `r` sits at row `r` and describes the `r`-th kept item. */
  function Mapping(items: seq<Metadata>, imageExists: (string, string) -> bool): (m: seq<MappingEntry>)
    requires Readable(items, imageExists)
    ensures |m| == |WithImage(items, imageExists)|
    ensures Positional(m)
    ensures forall r :: 0 <= r < |m| ==>
              Identified(WithImage(items, imageExists)[r]) && m[r] == EntryFor(r, WithImage(items, imageExists)[r])
  {
    var kept := WithImage(items, imageExists);
    assert forall r :: 0 <= r < |kept| ==> Identified(kept[r]) by {
      forall r | 0 <= r < |kept| ensures Identified(kept[r]) {
        assert kept[r] in kept;
      }
    }
    seq(|kept|, r requires 0 <= r < |kept| => EntryFor(r, kept[r]))
  }

  /** One more readable item adds its record when its image exists. */
  lemma MappingStep(items: seq<Metadata>, imageExists: (string, string) -> bool, n: nat)
    requires n < |items|
    requires Readable(items[..n + 1], imageExists)
    ensures Mapping(items[..n + 1], imageExists)
            == Mapping(items[..n], imageExists)
               + if ImageFound(items[n], imageExists) then [EntryFor(|Mapping(items[..n], imageExists)|, items[n])] else []
  {
    WithImageStep(items, imageExists, n);
  }

  /** The embedding loop. Items without an image are skipped in both lists
      at once, so `embeddings[r]` always belongs to `idMapping[r]`. `ok` is
      false when an item raises `KeyError`, which ends the script before
      anything is saved. */
  method CreateEmbeddings(items: seq<Metadata>, imageExists: (string, string) -> bool,
                          embedImage: (string, string) -> Embedding)
    returns (ok: bool, embeddings: seq<Embedding>, idMapping: seq<MappingEntry>)
    ensures ok <==> Readable(items, imageExists)
    ensures !ok ==> embeddings == [] && idMapping == []
    ensures ok ==> idMapping == Mapping(items, imageExists)
    ensures |embeddings| == |idMapping|
    ensures forall r :: 0 <= r < |idMapping| ==>
              embeddings[r] == embedImage(idMapping[r].category, idMapping[r].imageName)
  {
    embeddings, idMapping := [], [];
    var idx := 0;
    var n := 0;
    while n < |items|
      invariant 0 <= n <= |items|
      invariant Readable(items[..n], imageExists)
      invariant idMapping == Mapping(items[..n], imageExists)
      invariant idx == |embeddings| == |idMapping|
      invariant forall r :: 0 <= r < idx ==>
                  embeddings[r] == embedImage(idMapping[r].category, idMapping[r].imageName)
    {
      var item := items[n];
      if !("category" in item && "image_name" in item) {
        return false, [], [];
      }
      var category, imageName := item["category"], item["image_name"];
      if !imageExists(category, imageName) {
        MappingStep(items, imageExists, n);
        n := n + 1;
        continue;
      }
      if "id" !in item {
        return false, [], [];
      }
      MappingStep(items, imageExists, n);
      embeddings := embeddings + [embedImage(category, imageName)];
      idMapping := idMapping + [MappingEntry(idx, item["id"], category, imageName, item)];
      idx := idx + 1;
      n := n + 1;
    }
    assert items[..n] == items;
    ok := true;
  }

  /** One more item extends the kept list by that item when its image exists. */
  lemma WithImageStep(items: seq<Metadata>, imageExists: (string, string) -> bool, n: nat)
    requires n < |items|
    requires forall i :: 0 <= i <= n ==> HasImagePath(items[i])
    ensures WithImage(items[..n + 1], imageExists)
            == WithImage(items[..n], imageExists) + if ImageFound(items[n], imageExists) then [items[n]] else []
  {
    assert items[..n + 1][..n] == items[..n];
  }

  /** An item is left out of the mapping exactly when its image is missing. */
  lemma SkippedExactlyWithoutImage(items: seq<Metadata>, imageExists: (string, string) -> bool, i: nat)
    requires forall j :: 0 <= j < |items| ==> HasImagePath(items[j])
    requires i < |items|
    ensures items[i] in WithImage(items, imageExists) <==> ImageFound(items[i], imageExists)
  {
  }
}
