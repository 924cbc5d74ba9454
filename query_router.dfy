/** The keyword category router: a query is classified as `ring`,
    `necklace` or `both` by case-insensitive substring matching against two
    fixed keyword lists. */
module QueryRouter {
  import opened Builtins

  const RingKeywords: seq<string> := ["ring", "engagement", "wedding ring", "band", "solitaire"]
  const NecklaceKeywords: seq<string> := ["necklace", "chain", "pendant", "locket"]

  /** The router's answer: the chosen category and the query, unchanged. */
  datatype Route = Route(category: string, query: string)

  /** Some keyword of `keywords` is a substring of `text`. */
  ghost predicate Mentions(text: string, keywords: seq<string>) {
    exists k, i :: k in keywords && OccursAt(text, k, i)
  }

  /** `any(k in text for k in keywords)`. */
  function AnyKeyword(text: string, keywords: seq<string>): (b: bool)
    ensures b <==> Mentions(text, keywords)
  {
    if keywords == [] then false
    else
      var rest := AnyKeyword(text, keywords[1..]);
      assert forall k :: k in keywords <==> k == keywords[0] || k in keywords[1..];
      Contains(text, keywords[0]) || rest
  }

  /** `route_query`. */
  function RouteQuery(query: string): (r: Route)
    ensures r.query == query
    ensures r.category in {"ring", "necklace", "both"}
    ensures r.category == "ring" <==>
              Mentions(Lower(query), RingKeywords) && !Mentions(Lower(query), NecklaceKeywords)
    ensures r.category == "necklace" <==>
              Mentions(Lower(query), NecklaceKeywords) && !Mentions(Lower(query), RingKeywords)
    ensures r.category == "both" <==>
              Mentions(Lower(query), RingKeywords) == Mentions(Lower(query), NecklaceKeywords)
  {
    var q := Lower(query);
    var ringMatch := AnyKeyword(q, RingKeywords);
    var necklaceMatch := AnyKeyword(q, NecklaceKeywords);
    var category :=
      if ringMatch && necklaceMatch then "both"
      else if ringMatch then "ring"
      else if necklaceMatch then "necklace"
      else "both";
    Route(category, query)
  }

  /** The category depends on the query only through its lower-cased form,
      so two queries that differ only in letter case are routed alike. */
  lemma RouteCaseInsensitive(a: string, b: string)
    requires Lower(a) == Lower(b)
    ensures RouteQuery(a).category == RouteQuery(b).category
  {
  }

  /** Routing an already lower-cased query gives the same category. */
  lemma RouteLowered(query: string)
    ensures RouteQuery(Lower(query)).category == RouteQuery(query).category
  {
    LowerIdempotent(query);
  }

  /** Matching is by substring, not by word: "String of pearls" mentions
      "ring" inside "string" and is routed to rings. */
  lemma SubstringRouting()
    ensures RouteQuery("String of pearls").category == "ring"
  {
    var q := Lower("String of pearls");
    assert q == "string of pearls";
    assert OccursAt(q, "ring", 2);
    assert Mentions(q, RingKeywords);
    NoNecklaceKeyword(q);
  }

  /** No necklace keyword occurs in "string of pearls". */
  lemma NoNecklaceKeyword(q: string)
    requires q == "string of pearls"
    ensures !Mentions(q, NecklaceKeywords)
  {
    forall k, i | k in NecklaceKeywords ensures !OccursAt(q, k, i) {
      var c := if k == "pendant" then 'd' else if k == "necklace" then 'k' else 'c';
      assert c in k && c !in q;
      MissingLetter(q, k, c, i);
    }
  }

  /** A keyword with a letter the text lacks cannot occur in it. */
  lemma MissingLetter(text: string, k: string, c: char, i: int)
    requires c in k && c !in text
    ensures !OccursAt(text, k, i)
  {
  }
}
