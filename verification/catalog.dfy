/**
 The records the search boxes look at, reduced to the text fields they
 match on, and the tagged suggestion each box lists.
 */
module Catalog {
  import opened Text

  datatype Subcategory = Subcategory(name: string)

  /** A sector card: `title`, `description` and its `subcategories`. */
  datatype Category = Category(title: string, description: string, subcategories: seq<Subcategory>)

  datatype Company = Company(name: string, description: string, subsector: string, sector: string)

  datatype Product = Product(name: string, description: string, category: string)

  /** `{ type: "category" | "company" | "product", item }`. */
  datatype Hit = CategoryHit(category: Category) | CompanyHit(company: Company) | ProductHit(product: Product)

  /**
   The category rule shared by both category filters: the title, the
   description or the name of some subcategory includes the query,
   ignoring case.
   */
  predicate CategoryMatches(query: string, c: Category)
  {
    Includes(c.title, query) || Includes(c.description, query)
    || exists i :: 0 <= i < |c.subcategories| && Includes(c.subcategories[i].name, query)
  }

  /** The product rule shared by both suggestion boxes: name, description or category. */
  predicate ProductMatches(query: string, p: Product)
  {
    Includes(p.name, query) || Includes(p.description, query) || Includes(p.category, query)
  }

  /** `.map(x => ({ type: "company", item: x }))`. */
  function CompanyHits(cs: seq<Company>): (r: seq<Hit>)
    ensures |r| == |cs| && forall i :: 0 <= i < |r| ==> r[i] == CompanyHit(cs[i])
  {
    seq(|cs|, i requires 0 <= i < |cs| => CompanyHit(cs[i]))
  }

  /** `.map(x => ({ type: "product", item: x }))`. */
  function ProductHits(ps: seq<Product>): (r: seq<Hit>)
    ensures |r| == |ps| && forall i :: 0 <= i < |r| ==> r[i] == ProductHit(ps[i])
  {
    seq(|ps|, i requires 0 <= i < |ps| => ProductHit(ps[i]))
  }

  /** `.map(x => ({ type: "category", item: x }))`. */
  function CategoryHits(cs: seq<Category>): (r: seq<Hit>)
    ensures |r| == |cs| && forall i :: 0 <= i < |r| ==> r[i] == CategoryHit(cs[i])
  {
    seq(|cs|, i requires 0 <= i < |cs| => CategoryHit(cs[i]))
  }
}
