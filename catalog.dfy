/**
 The Notion database as the pipeline sees it: a sequence of pages and a query
 that returns the pages satisfying an "or" filter of equality clauses.
 */
module Catalog {
  import opened Wrappers
  import opened Properties

  /** One equality clause: on the title property, or on the URL-typed doi property. */
  datatype Clause = TitleEquals(title: string) | DoiUrlEquals(url: string)

  /** A compound `{"or": [...]}` filter. */
  datatype Filter = Or(clauses: seq<Clause>)

  /** A null URL property equals no string, so it never satisfies a URL clause. */
  predicate Holds(c: Clause, p: Page) {
    match c
    case TitleEquals(t) => p.title == t
    case DoiUrlEquals(u) => p.doi == Some(u)
  }

  predicate Satisfies(f: Filter, p: Page) {
    exists i :: 0 <= i < |f.clauses| && Holds(f.clauses[i], p)
  }

  /** `databases.query(filter=f)["results"]`: the matching pages. */
  function Query(pages: seq<Page>, f: Filter): (results: seq<Page>)
    ensures |results| <= |pages|
    ensures forall p :: p in results <==> p in pages && Satisfies(f, p)
  {
    if pages == [] then []
    else
      var rest := Query(pages[1..], f);
      if Satisfies(f, pages[0]) then [pages[0]] + rest else rest
  }

  /** The query has some result exactly when some page satisfies the filter. */
  lemma QueryNonEmpty(pages: seq<Page>, f: Filter)
    ensures |Query(pages, f)| > 0 <==> exists i :: 0 <= i < |pages| && Satisfies(f, pages[i])
  {
  }
}
