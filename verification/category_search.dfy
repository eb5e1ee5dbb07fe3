/**
 `handleSearch` of `src/components/CategorySearch.tsx`: the category list
 filtered by the query, with no minimum length and no cut-off, handed to
 `onSearch`.
 */
module CategorySearch {
  import opened Seqs
  import opened Text
  import opened Catalog

  /** The list `onSearch` receives for a query. */
  function HandleSearch(query: string, categories: seq<Category>): (r: seq<Category>)
    ensures |r| <= |categories|
    ensures forall c :: c in r <==> c in categories && CategoryMatches(query, c)
  {
    Filter(categories, c => CategoryMatches(query, c))
  }

  /** The result keeps the categories' order: it is a subsequence of the input. */
  lemma HandleSearchKeepsOrder(query: string, categories: seq<Category>)
    ensures IsSubseq(HandleSearch(query, categories), categories)
  {
    FilterIsSubseq(categories, c => CategoryMatches(query, c));
  }

  /** Every category appears in the result exactly as often as in the input, or not at all. */
  lemma HandleSearchCounts(query: string, categories: seq<Category>, c: Category)
    ensures multiset(HandleSearch(query, categories))[c] ==
      if CategoryMatches(query, c) then multiset(categories)[c] else 0
  {
  }

  /** An empty query keeps every category: every field includes the empty string. */
  lemma EmptyQueryKeepsAll(categories: seq<Category>)
    ensures HandleSearch("", categories) == categories
  {
    forall i | 0 <= i < |categories|
      ensures CategoryMatches("", categories[i])
    {
      IncludesEmpty(categories[i].title);
    }
    FilterAll(categories, c => CategoryMatches("", c));
  }

  /** Case in the query makes no difference. */
  lemma QueryCaseIgnored(query: string, categories: seq<Category>)
    ensures HandleSearch(Lower(query), categories) == HandleSearch(query, categories)
  {
    LowerIdempotent(query);
    FilterAgrees(categories, c => CategoryMatches(Lower(query), c), c => CategoryMatches(query, c));
  }
}
