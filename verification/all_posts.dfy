/** The all-posts page: the case-insensitive title search over the loaded
    posts, and the key each card is rendered under. */
module AllPosts {
  import opened Text
  import opened JsValues
  import opened Seqs
  import opened Records

  /** `searchQuery.trim().toLowerCase()` */
  function SearchKey(query: string): string {
    ToLower(Trim(query))
  }

  /** `String(p.title || "").toLowerCase().includes(q)` */
  predicate TitleMatches(p: Row, q: string) {
    Includes(ToLower(OrText(p.title, "")), q)
  }

  /** `filtered`: every post for an empty key, otherwise the posts whose
      lower-cased title contains the key, in their original order. */
  function SearchResults(all: seq<Row>, query: string): (r: seq<Row>)
    ensures SubseqOf(r, all)
    ensures SearchKey(query) == "" ==> r == all
    ensures SearchKey(query) != "" ==>
      (forall i :: 0 <= i < |r| ==> r[i] in all && TitleMatches(r[i], SearchKey(query)))
      && (forall i :: 0 <= i < |all| && TitleMatches(all[i], SearchKey(query)) ==> all[i] in r)
    ensures SearchKey(query) != "" ==>
      forall x :: multiset(r)[x] == if TitleMatches(x, SearchKey(query)) then multiset(all)[x] else 0
  {
    var q := SearchKey(query);
    if q == "" then
      SubseqOfSelf(all);
      all
    else
      FilterIsSubseq(all, p => TitleMatches(p, q));
      FilterCounts(all, p => TitleMatches(p, q));
      Filter(all, p => TitleMatches(p, q))
  }

  /** An empty or white-space-only query shows every post unchanged. */
  lemma BlankQueryShowsAll(all: seq<Row>, query: string)
    requires Blank(query)
    ensures SearchResults(all, query) == all
  {
    TrimEmptyIffBlank(query);
  }

  /** A post without a title never matches a query with something in it. */
  lemma MissingTitleNeverMatches(all: seq<Row>, query: string, p: Row)
    requires p.title.None? || p.title.value == ""
    requires !Blank(query)
    ensures p !in SearchResults(all, query)
  {
    TrimEmptyIffBlank(query);
    assert |SearchKey(query)| == |Trim(query)|;
    assert !TitleMatches(p, SearchKey(query));
  }

  /** The case of the query does not matter. */
  lemma {:induction false} SearchIgnoresQueryCase(all: seq<Row>, query: string)
    ensures SearchResults(all, ToLower(query)) == SearchResults(all, query)
  {
    TrimLower(query);
    ToLowerIdempotent(Trim(query));
    assert SearchKey(ToLower(query)) == SearchKey(query);
  }

  /** `getId(post) || String(i)`: the card key; never empty. */
  function CardKey(p: Row, i: nat): (k: Value)
    ensures Truthy(k)
    ensures Truthy(IdOf(p)) ==> k == IdOf(p)
    ensures !Truthy(IdOf(p)) ==> k == Str(NatToString(i))
  {
    Or(IdOrEmpty(p), Str(NatToString(i)))
  }
}
