/**
 The suggestion logic in the `useEffect` of
 `src/components/CompanyProductSearch.tsx`: matched companies, then
 matched products, cut to six, and nothing for a query shorter than two
 characters.
 */
module CompanyProductSearch {
  import opened Seqs
  import opened Text
  import opened Catalog

  /** Most suggestions ever listed (`slice(0, 6)`). */
  const MaxSuggestions: nat := 6

  /** What the effect leaves in state: the suggestion list and whether it is shown. */
  datatype Outcome = Outcome(suggestions: seq<Hit>, shown: bool)

  /** This box matches a company on name, description or subsector; the sector is not looked at. */
  predicate CompanyMatches(query: string, c: Company)
  {
    Includes(c.name, query) || Includes(c.description, query) || Includes(c.subsector, query)
  }

  function MatchedCompanies(query: string, companies: seq<Company>): (r: seq<Company>)
    ensures forall c :: c in r <==> c in companies && CompanyMatches(query, c)
  {
    Filter(companies, c => CompanyMatches(query, c))
  }

  function MatchedProducts(query: string, products: seq<Product>): (r: seq<Product>)
    ensures forall p :: p in r <==> p in products && ProductMatches(query, p)
  {
    Filter(products, p => ProductMatches(query, p))
  }

  /** The effect body for a query. */
  function Suggest(query: string, companies: seq<Company>, products: seq<Product>): (r: Outcome)
    ensures |query| <= 1 ==> r == Outcome([], false)
    ensures |query| > 1 ==> r.shown
    ensures |r.suggestions| <= MaxSuggestions
    ensures forall i :: 0 <= i < |r.suggestions| ==> !r.suggestions[i].CategoryHit?
  {
    if |query| > 1 then
      var mc := MatchedCompanies(query, companies);
      var mp := MatchedProducts(query, products);
      Outcome(Take(CompanyHits(mc) + ProductHits(mp), MaxSuggestions), true)
    else
      Outcome([], false)
  }

  /** The first six of a companies-then-products listing, position by position. */
  lemma ListingLayout(mc: seq<Company>, mp: seq<Product>)
    ensures var r := Take(CompanyHits(mc) + ProductHits(mp), MaxSuggestions);
      |r| == (if |mc| + |mp| <= MaxSuggestions then |mc| + |mp| else MaxSuggestions)
      && (forall i :: 0 <= i < |r| && i < |mc| ==> r[i] == CompanyHit(mc[i]))
      && (forall i :: |mc| <= i < |r| ==> r[i] == ProductHit(mp[i - |mc|]))
  {
    var s := CompanyHits(mc) + ProductHits(mp);
    var r := Take(s, MaxSuggestions);
    forall i | 0 <= i < |r|
      ensures r[i] == s[i]
    {
    }
  }

  /**
   The list, position by position: first the matched companies in their
   order, then the matched products in theirs, as many as fit in six.
   */
  lemma SuggestionsLayout(query: string, companies: seq<Company>, products: seq<Product>)
    requires |query| > 1
    ensures var r := Suggest(query, companies, products).suggestions;
      var mc, mp := MatchedCompanies(query, companies), MatchedProducts(query, products);
      |r| == (if |mc| + |mp| <= MaxSuggestions then |mc| + |mp| else MaxSuggestions)
      && (forall i :: 0 <= i < |r| && i < |mc| ==> r[i] == CompanyHit(mc[i]))
      && (forall i :: |mc| <= i < |r| ==> r[i] == ProductHit(mp[i - |mc|]))
  {
    ListingLayout(MatchedCompanies(query, companies), MatchedProducts(query, products));
  }

  /** No product is listed ahead of a company. */
  lemma CompaniesBeforeProducts(query: string, companies: seq<Company>, products: seq<Product>)
    ensures var r := Suggest(query, companies, products).suggestions;
      forall i, j :: 0 <= i < j < |r| && r[j].CompanyHit? ==> r[i].CompanyHit?
  {
    if |query| > 1 {
      SuggestionsLayout(query, companies, products);
    }
  }

  /** Every suggestion is a company or product from the lists that matches the query. */
  lemma SuggestionsMatch(query: string, companies: seq<Company>, products: seq<Product>)
    ensures forall h :: h in Suggest(query, companies, products).suggestions ==>
      (h.CompanyHit? && h.company in companies && CompanyMatches(query, h.company))
      || (h.ProductHit? && h.product in products && ProductMatches(query, h.product))
  {
    var r := Suggest(query, companies, products).suggestions;
    if |query| > 1 {
      SuggestionsLayout(query, companies, products);
      var mc, mp := MatchedCompanies(query, companies), MatchedProducts(query, products);
      forall h | h in r
        ensures (h.CompanyHit? && h.company in companies && CompanyMatches(query, h.company))
          || (h.ProductHit? && h.product in products && ProductMatches(query, h.product))
      {
        var i :| 0 <= i < |r| && r[i] == h;
        if i < |mc| {
          assert mc[i] in mc;
        } else {
          assert mp[i - |mc|] in mp;
        }
      }
    }
  }

  /** While fewer than six match, every match is listed. */
  lemma FewMatchesAllListed(query: string, companies: seq<Company>, products: seq<Product>)
    requires |query| > 1
    requires |MatchedCompanies(query, companies)| + |MatchedProducts(query, products)| <= MaxSuggestions
    ensures Suggest(query, companies, products).suggestions ==
      CompanyHits(MatchedCompanies(query, companies)) + ProductHits(MatchedProducts(query, products))
  {
  }

  /** Each matched group keeps the order of its source list. */
  lemma MatchesKeepOrder(query: string, companies: seq<Company>, products: seq<Product>)
    ensures IsSubseq(MatchedCompanies(query, companies), companies)
    ensures IsSubseq(MatchedProducts(query, products), products)
  {
    FilterIsSubseq(companies, c => CompanyMatches(query, c));
    ProductsKeepOrder(query, products);
  }

  /** The product filter alone keeps the source order. */
  lemma ProductsKeepOrder(query: string, products: seq<Product>)
    ensures IsSubseq(MatchedProducts(query, products), products)
  {
    FilterIsSubseq(products, p => ProductMatches(query, p));
  }
}
