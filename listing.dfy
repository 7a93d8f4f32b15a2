/**
 * The public listing read (`getServers`): every server, newest first, one
 * page of them projected to the listed columns, and the pagination record.
 * No search text, filter or sort option reaches the query.
 */
module Listing {
  import opened Wrappers
  import opened Schema
  import opened SearchParams

  const DEFAULT_PAGE: int := 1
  const DEFAULT_LIMIT: int := 12

  /** The columns the listing selects. */
  datatype Listed = Listed(
    id: Uuid,
    name: string,
    slug: string,
    shortDesc: string,
    homepageUrl: Option<string>,
    repoUrl: Option<string>,
    logoUrl: Option<string>,
    stars: Option<int>,
    license: Option<string>,
    createdAt: Timestamp)

  function Project(s: Server): Listed {
    Listed(s.id, s.name, s.slug, s.shortDesc, s.homepageUrl, s.repoUrl, s.logoUrl, s.stars, s.license, s.createdAt)
  }

  predicate NewestFirst(rows: seq<Server>) {
    forall i, j :: 0 <= i < j < |rows| ==> rows[i].createdAt >= rows[j].createdAt
  }

  /** Places `s` after the strictly newer rows of a newest-first sequence. */
  function Insert(s: Server, rows: seq<Server>): (r: seq<Server>)
    ensures |r| == |rows| + 1
    ensures r[0] == s || (rows != [] && r[0] == rows[0])
  {
    if rows == [] || rows[0].createdAt <= s.createdAt then [s] + rows
    else [rows[0]] + Insert(s, rows[1..])
  }

  /** Inserting into a newest-first sequence keeps it newest first. */
  lemma {:induction false} InsertSorted(s: Server, rows: seq<Server>)
    requires NewestFirst(rows)
    ensures NewestFirst(Insert(s, rows))
    decreases |rows|
  {
    if rows == [] || rows[0].createdAt <= s.createdAt {
      NewestFirstCons(s, rows);
    } else {
      NewestFirstTail(rows);
      InsertSorted(s, rows[1..]);
      NewestFirstCons(rows[0], Insert(s, rows[1..]));
    }
  }

  /** Inserting adds exactly the one row. */
  lemma {:induction false} InsertAddsRow(s: Server, rows: seq<Server>)
    ensures multiset(Insert(s, rows)) == multiset(rows) + multiset{s}
    decreases |rows|
  {
    if !(rows == [] || rows[0].createdAt <= s.createdAt) {
      InsertAddsRow(s, rows[1..]);
      assert rows == [rows[0]] + rows[1..];
      assert multiset(rows) == multiset{rows[0]} + multiset(rows[1..]);
    }
  }

  lemma NewestFirstTail(rows: seq<Server>)
    requires NewestFirst(rows) && rows != []
    ensures NewestFirst(rows[1..])
  {
    forall i, j | 0 <= i < j < |rows| - 1
      ensures rows[1..][i].createdAt >= rows[1..][j].createdAt
    {
      assert rows[1..][i] == rows[i + 1] && rows[1..][j] == rows[j + 1];
    }
  }

  lemma NewestFirstCons(x: Server, rows: seq<Server>)
    requires NewestFirst(rows)
    requires rows != [] ==> x.createdAt >= rows[0].createdAt
    ensures NewestFirst([x] + rows)
  {
    var r := [x] + rows;
    forall i, j | 0 <= i < j < |r|
      ensures r[i].createdAt >= r[j].createdAt
    {
      assert r[j] == rows[j - 1];
      if i > 0 {
        assert r[i] == rows[i - 1];
      } else {
        assert rows[0].createdAt >= rows[j - 1].createdAt;
      }
    }
  }

  /**
   * `ORDER BY created_at DESC`: a newest-first permutation of the table.
   * Rows with equal timestamps keep their table order.
   */
  function NewestFirstOrder(rows: seq<Server>): (r: seq<Server>)
    ensures NewestFirst(r)
    ensures multiset(r) == multiset(rows)
    ensures |r| == |rows|
  {
    if rows == [] then []
    else
      assert rows == [rows[0]] + rows[1..];
      InsertSorted(rows[0], NewestFirstOrder(rows[1..]));
      InsertAddsRow(rows[0], NewestFirstOrder(rows[1..]));
      Insert(rows[0], NewestFirstOrder(rows[1..]))
  }

  /** The page request; an absent field takes its default. */
  datatype PageRequest = PageRequest(page: Option<int>, limit: Option<int>)

  /** `totalPages` is `None` where the division yields no finite number (a zero limit). */
  datatype Pagination = Pagination(total: nat, totalPages: Option<nat>, currentPage: int, limit: int)

  datatype ServerPage = ServerPage(servers: seq<Listed>, pagination: Pagination)

  /** The database rejects a negative `OFFSET` or `LIMIT`. */
  datatype ListingError = NegativeOffset | NegativeLimit

  function Min(a: int, b: int): int {
    if a <= b then a else b
  }

  function PageOf(rows: seq<Server>, offset: nat, limit: nat): (r: seq<Listed>)
    ensures |r| == if offset >= |rows| then 0 else Min(limit, |rows| - offset)
    ensures forall i :: 0 <= i < |r| ==> r[i] == Project(rows[offset + i])
  {
    if offset >= |rows| then []
    else
      var end := Min(offset + limit, |rows|);
      seq(end - offset, i requires 0 <= i < end - offset => Project(rows[offset + i]))
  }

  /**
   * `p` is the page at `offset` of the newest-first table: at most `limit`
   * listings, the rows from `offset` on in that order, and the counts the
   * pagination reports.
   */
  predicate IsPageFor(table: seq<Server>, page: int, limit: nat, offset: nat, p: ServerPage) {
    var ordered := NewestFirstOrder(table);
    var servers := p.servers;
    && |servers| <= limit
    && |servers| == (if offset >= |table| then 0 else Min(limit, |table| - offset))
    && (forall i :: 0 <= i < |servers| ==> servers[i] == Project(ordered[offset + i]))
    && p.pagination.total == |table|
    && p.pagination.currentPage == page
    && p.pagination.limit == limit
    && (limit > 0 ==> p.pagination.totalPages == Some(CeilDiv(|table|, limit)))
    && (limit == 0 ==> p.pagination.totalPages.None?)
  }

  /** `getServers`. */
  function GetServers(table: seq<Server>, req: PageRequest): (r: Result<ServerPage, ListingError>)
    ensures var page := req.page.GetOr(DEFAULT_PAGE);
            var limit := req.limit.GetOr(DEFAULT_LIMIT);
            var offset := (page - 1) * limit;
            && (r.Err? <==> limit < 0 || offset < 0)
            && (r.Ok? ==> IsPageFor(table, page, limit, offset, r.value))
  {
    var page := req.page.GetOr(DEFAULT_PAGE);
    var limit := req.limit.GetOr(DEFAULT_LIMIT);
    var offset := (page - 1) * limit;
    if limit < 0 then Err(NegativeLimit)
    else if offset < 0 then Err(NegativeOffset)
    else
      var servers := PageOf(NewestFirstOrder(table), offset, limit);
      var totalPages := if limit == 0 then None else Some(CeilDiv(|table|, limit));
      Ok(ServerPage(servers, Pagination(|table|, totalPages, page, limit)))
  }

  /** The default request reads the twelve newest servers and counts pages of twelve. */
  lemma DefaultRequest(table: seq<Server>)
    ensures var r := GetServers(table, PageRequest(None, None));
            && r.Ok?
            && r.value.servers == PageOf(NewestFirstOrder(table), 0, 12)
            && r.value.pagination == Pagination(|table|, Some(GetTotalPages(|table|)), 1, 12)
  {
    var req := PageRequest(None, None);
    assert req.page.GetOr(DEFAULT_PAGE) == 1 && req.limit.GetOr(DEFAULT_LIMIT) == 12;
    assert (1 - 1) * 12 == 0;
    assert GetTotalPages(|table|) == CeilDiv(|table|, 12);
  }

  /**
   * The pages of a listing partition the ordered table: consecutive pages
   * continue where the previous one stopped.
   */
  lemma {:induction false} PagesCover(table: seq<Server>, limit: nat, pages: nat)
    requires limit > 0
    ensures |Concat(table, limit, pages)| == Min(pages * limit, |table|)
    ensures forall i :: 0 <= i < |Concat(table, limit, pages)| ==>
              Concat(table, limit, pages)[i] == Project(NewestFirstOrder(table)[i])
    decreases pages
  {
    if pages > 0 {
      PagesCover(table, limit, pages - 1);
      var offset := (pages - 1) * limit;
      MulLe(0, pages - 1, limit);
      assert offset + limit == pages * limit;
      var prev := Concat(table, limit, pages - 1);
      var servers := GetServers(table, PageRequest(Some(pages), Some(limit))).value.servers;
      assert Concat(table, limit, pages) == prev + servers;
      AppendPage(prev, servers, NewestFirstOrder(table), offset, limit);
    }
  }

  /** A page that starts where the listed prefix ends extends that prefix. */
  lemma AppendPage(prev: seq<Listed>, servers: seq<Listed>, ordered: seq<Server>, offset: nat, limit: nat)
    requires |prev| == Min(offset, |ordered|)
    requires forall i :: 0 <= i < |prev| ==> prev[i] == Project(ordered[i])
    requires |servers| == (if offset >= |ordered| then 0 else Min(limit, |ordered| - offset))
    requires forall i :: 0 <= i < |servers| ==> servers[i] == Project(ordered[offset + i])
    ensures |prev + servers| == Min(offset + limit, |ordered|)
    ensures forall i :: 0 <= i < |prev + servers| ==> (prev + servers)[i] == Project(ordered[i])
  {
    forall i | |prev| <= i < |prev + servers|
      ensures (prev + servers)[i] == Project(ordered[i])
    {
      assert |prev| == offset;
      assert (prev + servers)[i] == servers[i - offset];
    }
  }

  /** The servers of pages 1 to `pages`, one request after another. */
  function Concat(table: seq<Server>, limit: nat, pages: nat): seq<Listed>
    requires limit > 0
  {
    if pages == 0 then []
    else
      var r := GetServers(table, PageRequest(Some(pages), Some(limit)));
      assert (pages - 1) * limit >= 0 by { MulLe(0, pages - 1, limit); }
      Concat(table, limit, pages - 1) + r.value.servers
  }
}
