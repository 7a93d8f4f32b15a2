/**
 * The listing's URL parameters (page, search text, sort field and
 * direction) with their defaults, the page size, and the page count.
 */
module SearchParams {
  import opened Wrappers

  /** Servers per listing page. */
  const ITEMS_PER_PAGE: nat := 12

  /** `Math.ceil(n / d)` for a count `n` and a positive divisor. */
  function CeilDiv(n: nat, d: nat): (r: nat)
    requires d > 0
    ensures n <= r * d
    ensures r == 0 || (r - 1) * d < n
  {
    var q := (n + d - 1) / d;
    var m := (n + d - 1) % d;
    assert n + d - 1 == q * d + m;
    assert (q - 1) * d == q * d - d;
    q
  }

  lemma MulLe(a: int, b: int, d: nat)
    requires a <= b
    ensures a * d <= b * d
  {
    var k: nat := b - a;
    assert b * d == a * d + k * d;
  }

  /** The page count is the least count of pages that holds `n` items. */
  lemma CeilDivLeast(n: nat, d: nat, pages: nat)
    requires d > 0 && n <= pages * d
    ensures CeilDiv(n, d) <= pages
  {
    var r := CeilDiv(n, d);
    if r > 0 {
      if pages < r {
        MulLe(pages, r - 1, d);
      }
    }
  }

  /** `getTotalPages`: the number of listing pages for a count of servers. */
  function GetTotalPages(totalItems: nat): (pages: nat)
    ensures totalItems <= pages * ITEMS_PER_PAGE
    ensures totalItems > 0 ==> (pages - 1) * ITEMS_PER_PAGE < totalItems
    ensures totalItems == 0 ==> pages == 0
  {
    CeilDiv(totalItems, ITEMS_PER_PAGE)
  }

  /** The page count is exactly the ceiling: 0, 12 and 13 items take 0, 1 and 2 pages. */
  lemma TotalPagesExamples()
    ensures GetTotalPages(0) == 0
    ensures GetTotalPages(12) == 1
    ensures GetTotalPages(13) == 2
  {
    CeilDivLeast(12, ITEMS_PER_PAGE, 1);
    CeilDivLeast(13, ITEMS_PER_PAGE, 2);
  }

  /** The parsed listing parameters; `sort` and `dir` have no default. */
  datatype Params = Params(page: int, q: string, sort: Option<string>, dir: Option<string>)

  function Lookup(query: map<string, string>, key: string): (v: Option<string>)
    ensures v.Some? <==> key in query
    ensures v.Some? ==> v.value == query[key]
  {
    if key in query then Some(query[key]) else None
  }

  /**
   * `loadSearchParams`: `page` is the integer the parser reads from the
   * parameter, 1 when it is absent or unreadable; `q` is the text or "".
   */
  function LoadSearchParams(query: map<string, string>, parseInteger: string -> Option<int>): (p: Params)
    ensures "page" !in query ==> p.page == 1
    ensures "page" in query ==> p.page == parseInteger(query["page"]).GetOr(1)
    ensures p.q == (if "q" in query then query["q"] else "")
    ensures p.sort == Lookup(query, "sort") && p.dir == Lookup(query, "dir")
  {
    var page := match Lookup(query, "page")
      case None => 1
      case Some(v) => parseInteger(v).GetOr(1);
    Params(page, Lookup(query, "q").GetOr(""), Lookup(query, "sort"), Lookup(query, "dir"))
  }

  /** A query without parameters yields page 1, empty search text, no sort and no direction. */
  lemma EmptyQueryDefaults(parseInteger: string -> Option<int>)
    ensures LoadSearchParams(map[], parseInteger) == Params(1, "", None, None)
  {
  }
}
