/**
 The suggestion logic in the `useEffect` of
 `src/components/UnifiedSearch.tsx`: categories, companies and products
 matched against the query, the active tab choosing which of them are
 listed, six at most, and the category list reported back to the page.
 */
module UnifiedSearch {
  import opened Seqs
  import opened Text
  import opened Catalog
  import CategorySearch
  import CompanyProductSearch

  const MaxSuggestions: nat := 6

  datatype Tab = All | Categories | Companies | Products

  /**
   What one run of the effect leaves behind: the suggestion list, whether
   it is shown, and the argument of `onCategorySearch` when it is called.
   */
  datatype Effect = Effect(suggestions: seq<Hit>, shown: bool, categoryUpdate: Option<seq<Category>>)

  /** This box matches a company on name, description, subsector or sector. */
  predicate CompanyOrSectorMatches(query: string, c: Company)
  {
    Includes(c.name, query) || Includes(c.description, query)
    || Includes(c.subsector, query) || Includes(c.sector, query)
  }

  /** The matched categories, kept in source order. */
  function MatchedCategories(query: string, categories: seq<Category>): (r: seq<Category>)
    ensures forall c :: c in r <==> c in categories && CategoryMatches(query, c)
    ensures IsSubseq(r, categories)
  {
    FilterIsSubseq(categories, c => CategoryMatches(query, c));
    Filter(categories, c => CategoryMatches(query, c))
  }

  /** The matched companies, kept in source order. */
  function MatchedCompanies(query: string, companies: seq<Company>): (r: seq<Company>)
    ensures forall c :: c in r <==> c in companies && CompanyOrSectorMatches(query, c)
    ensures IsSubseq(r, companies)
  {
    FilterIsSubseq(companies, c => CompanyOrSectorMatches(query, c));
    Filter(companies, c => CompanyOrSectorMatches(query, c))
  }

  /** Position of a suggestion kind in the "all" listing. */
  function Rank(h: Hit): nat
  {
    match h
    case CategoryHit(_) => 0
    case CompanyHit(_) => 1
    case ProductHit(_) => 2
  }

  /** The list before truncation, as the `switch` on the active tab picks it. */
  function Picked(query: string, tab: Tab, categories: seq<Category>, companies: seq<Company>, products: seq<Product>): seq<Hit>
  {
    var cats := CategoryHits(MatchedCategories(query, categories));
    var comps := CompanyHits(MatchedCompanies(query, companies));
    var prods := ProductHits(CompanyProductSearch.MatchedProducts(query, products));
    match tab
    case Categories => cats
    case Companies => comps
    case Products => prods
    case All => cats + comps + prods
  }

  /** The effect body for a query and a tab. */
  function Run(query: string, tab: Tab, categories: seq<Category>, companies: seq<Company>, products: seq<Product>): (r: Effect)
    ensures |query| <= 1 ==> r == Effect([], false, Some(categories))
    ensures |query| > 1 ==> r.shown
    ensures |r.suggestions| <= MaxSuggestions
    ensures |query| > 1 && tab == Categories ==> r.categoryUpdate == Some(MatchedCategories(query, categories))
    ensures |query| > 1 && tab != Categories ==> r.categoryUpdate.None?
  {
    if |query| > 1 then
      var picked := Picked(query, tab, categories, companies, products);
      Effect(Take(picked, MaxSuggestions), true,
        if tab == Categories then Some(MatchedCategories(query, categories)) else None)
    else
      Effect([], false, Some(categories))
  }

  /** A single-kind tab lists only that kind. */
  lemma TabListsOneKind(query: string, tab: Tab, categories: seq<Category>, companies: seq<Company>, products: seq<Product>)
    ensures var r := Run(query, tab, categories, companies, products).suggestions;
      forall i :: 0 <= i < |r| ==>
        (tab == Categories ==> r[i].CategoryHit?)
        && (tab == Companies ==> r[i].CompanyHit?)
        && (tab == Products ==> r[i].ProductHit?)
  {
  }

  /** The categories tab lists the first six matched categories, in source order. */
  lemma CategoriesTabLayout(query: string, categories: seq<Category>, companies: seq<Company>, products: seq<Product>)
    requires |query| > 1
    ensures var r := Run(query, Categories, categories, companies, products).suggestions;
      var m := MatchedCategories(query, categories);
      |r| == (if |m| <= MaxSuggestions then |m| else MaxSuggestions)
      && (forall i :: 0 <= i < |r| ==> r[i] == CategoryHit(m[i]))
      && IsSubseq(m, categories)
  {
  }

  /** The companies tab lists the first six companies matched on name, description, subsector or sector, in source order. */
  lemma CompaniesTabLayout(query: string, categories: seq<Category>, companies: seq<Company>, products: seq<Product>)
    requires |query| > 1
    ensures var r := Run(query, Companies, categories, companies, products).suggestions;
      var m := MatchedCompanies(query, companies);
      |r| == (if |m| <= MaxSuggestions then |m| else MaxSuggestions)
      && (forall i :: 0 <= i < |r| ==> r[i] == CompanyHit(m[i]))
      && IsSubseq(m, companies)
  {
  }

  /** The products tab lists the first six matched products, in source order. */
  lemma ProductsTabLayout(query: string, categories: seq<Category>, companies: seq<Company>, products: seq<Product>)
    requires |query| > 1
    ensures var r := Run(query, Products, categories, companies, products).suggestions;
      var m := CompanyProductSearch.MatchedProducts(query, products);
      |r| == (if |m| <= MaxSuggestions then |m| else MaxSuggestions)
      && (forall i :: 0 <= i < |r| ==> r[i] == ProductHit(m[i]))
      && IsSubseq(m, products)
  {
    CompanyProductSearch.ProductsKeepOrder(query, products);
  }

  /** The kind of each entry of a categories-companies-products listing, by position. */
  lemma ListingRanks(a: seq<Category>, b: seq<Company>, c: seq<Product>)
    ensures var s := CategoryHits(a) + CompanyHits(b) + ProductHits(c);
      forall i :: 0 <= i < |s| ==> Rank(s[i]) == if i < |a| then 0 else if i < |a| + |b| then 1 else 2
  {
  }

  /** On the "all" tab categories come first, then companies, then products. */
  lemma AllTabOrdered(query: string, categories: seq<Category>, companies: seq<Company>, products: seq<Product>)
    ensures var r := Run(query, All, categories, companies, products).suggestions;
      forall i, j :: 0 <= i < j < |r| ==> Rank(r[i]) <= Rank(r[j])
  {
    if |query| > 1 {
      var a := MatchedCategories(query, categories);
      var b := MatchedCompanies(query, companies);
      var c := CompanyProductSearch.MatchedProducts(query, products);
      ListingRanks(a, b, c);
      PrefixRanked(CategoryHits(a) + CompanyHits(b) + ProductHits(c), MaxSuggestions);
    }
  }

  /** Hits whose kinds never go back in rank order. */
  predicate Ranked(s: seq<Hit>)
  {
    forall i, j :: 0 <= i < j < |s| ==> Rank(s[i]) <= Rank(s[j])
  }

  /** Cutting a ranked listing keeps it ranked. */
  lemma PrefixRanked(s: seq<Hit>, n: nat)
    requires Ranked(s)
    ensures Ranked(Take(s, n))
  {
    var r := Take(s, n);
    forall i, j | 0 <= i < j < |r|
      ensures Rank(r[i]) <= Rank(r[j])
    {
      assert r[i] == s[i] && r[j] == s[j];
    }
  }

  /** The first six of a categories-companies-products listing, position by position. */
  lemma ListingLayout(a: seq<Category>, b: seq<Company>, c: seq<Product>)
    ensures var r := Take(CategoryHits(a) + CompanyHits(b) + ProductHits(c), MaxSuggestions);
      |r| == (if |a| + |b| + |c| <= MaxSuggestions then |a| + |b| + |c| else MaxSuggestions)
      && (forall i :: 0 <= i < |r| && i < |a| ==> r[i] == CategoryHit(a[i]))
      && (forall i :: |a| <= i < |r| && i < |a| + |b| ==> r[i] == CompanyHit(b[i - |a|]))
      && (forall i :: |a| + |b| <= i < |r| ==> r[i] == ProductHit(c[i - |a| - |b|]))
  {
    var s := CategoryHits(a) + CompanyHits(b) + ProductHits(c);
    var r := Take(s, MaxSuggestions);
    forall i | 0 <= i < |r|
      ensures r[i] == s[i]
    {
    }
  }

  /**
   On the "all" tab the list is the first six of: the matched categories,
   then the matched companies, then the matched products, each in source order.
   */
  lemma AllTabLayout(query: string, categories: seq<Category>, companies: seq<Company>, products: seq<Product>)
    requires |query| > 1
    ensures var r := Run(query, All, categories, companies, products).suggestions;
      var a := MatchedCategories(query, categories);
      var b := MatchedCompanies(query, companies);
      var c := CompanyProductSearch.MatchedProducts(query, products);
      |r| == (if |a| + |b| + |c| <= MaxSuggestions then |a| + |b| + |c| else MaxSuggestions)
      && (forall i :: 0 <= i < |r| && i < |a| ==> r[i] == CategoryHit(a[i]))
      && (forall i :: |a| <= i < |r| && i < |a| + |b| ==> r[i] == CompanyHit(b[i - |a|]))
      && (forall i :: |a| + |b| <= i < |r| ==> r[i] == ProductHit(c[i - |a| - |b|]))
      && IsSubseq(a, categories) && IsSubseq(b, companies) && IsSubseq(c, products)
  {
    CompanyProductSearch.ProductsKeepOrder(query, products);
    ListingLayout(MatchedCategories(query, categories), MatchedCompanies(query, companies),
      CompanyProductSearch.MatchedProducts(query, products));
  }

  /** The category list reported on the categories tab is the one the category search box computes. */
  lemma CategoryUpdateIsCategorySearch(query: string, categories: seq<Category>, companies: seq<Company>, products: seq<Product>)
    requires |query| > 1
    ensures Run(query, Categories, categories, companies, products).categoryUpdate
      == Some(CategorySearch.HandleSearch(query, categories))
  {
  }

  /** The reported category list is not truncated: it can be longer than the suggestion list. */
  lemma CategoryUpdateUntruncated(query: string, categories: seq<Category>, companies: seq<Company>, products: seq<Product>)
    requires |query| > 1
    ensures var e := Run(query, Categories, categories, companies, products);
      |e.categoryUpdate.value| == |MatchedCategories(query, categories)|
      && e.suggestions == CategoryHits(MatchedCategories(query, categories)[..|e.suggestions|])
  {
  }

  /** Every company the company/product box matches is matched here too; this box also looks at the sector. */
  lemma CompanyRuleWider(query: string, c: Company)
    ensures CompanyProductSearch.CompanyMatches(query, c) ==> CompanyOrSectorMatches(query, c)
    ensures CompanyOrSectorMatches(query, c) && !Includes(c.sector, query) ==> CompanyProductSearch.CompanyMatches(query, c)
  {
  }

  /** So the companies matched here include, in order, those the company/product box matches. */
  lemma CompanyMatchesWider(query: string, companies: seq<Company>)
    ensures IsSubseq(CompanyProductSearch.MatchedCompanies(query, companies), MatchedCompanies(query, companies))
  {
    FilterNarrower(companies, c => CompanyProductSearch.CompanyMatches(query, c), c => CompanyOrSectorMatches(query, c));
  }
}
