/**
 * The four tables of the directory (servers, categories, the server/category
 * link table and submissions) as rows held in sequences, the constraints the
 * database enforces on them (column widths, 32-bit integers, primary keys,
 * unique slugs, foreign keys with cascading deletes), and the statements
 * that change them. Each statement either yields new tables that satisfy
 * every constraint or fails with the error the database raises.
 */
module Schema {
  import opened Wrappers

  /**
   * A primary key value, held as the text the database prints for it:
   * `IsStoredUuid`, the 8-4-4-4-12 hexadecimal spelling in lower case.
   */
  type Uuid = string

  /** An instant, as stored by a `timestamp` column; the model never inspects it. */
  type Timestamp = int

  const INT32_MIN: int := -0x8000_0000
  const INT32_MAX: int := 0x7FFF_FFFF

  /** Column defaults. */
  const DEFAULT_STARS: int := 0
  const DEFAULT_SORT_ORDER: int := 0
  const DEFAULT_STATUS: string := "pending"

  datatype Server = Server(
    id: Uuid,
    name: string,
    slug: string,
    shortDesc: string,
    longDesc: Option<string>,
    homepageUrl: Option<string>,
    repoUrl: Option<string>,
    docsUrl: Option<string>,
    logoUrl: Option<string>,
    stars: Option<int>,
    lastCommit: Option<Timestamp>,
    license: Option<string>,
    readmeContent: Option<string>,
    createdAt: Timestamp,
    updatedAt: Timestamp)

  datatype Category = Category(id: Uuid, name: string, slug: string, sortOrder: Option<int>)

  /** A row of the link table; the pair is the primary key. */
  datatype Link = Link(serverId: Uuid, categoryId: Uuid)

  datatype Submission = Submission(
    id: Uuid,
    name: string,
    email: string,
    serverName: string,
    repoUrl: string,
    description: Option<string>,
    status: string,
    createdAt: Timestamp)

  datatype Tables = Tables(
    servers: seq<Server>,
    categories: seq<Category>,
    links: seq<Link>,
    submissions: seq<Submission>)

  /** The error a statement fails with. */
  datatype DbError =
    | DataError            // a value too long for its column, out of range, or not a uuid
    | UniqueViolation      // a primary key or unique column would hold a value twice
    | ForeignKeyViolation  // a link would reference a missing server or category
    | EmptyValues          // the query builder refuses an insert of no rows

  predicate IsHexDigit(c: char) {
    ('0' <= c <= '9') || ('a' <= c <= 'f') || ('A' <= c <= 'F')
  }

  predicate IsLowerHexDigit(c: char) {
    ('0' <= c <= '9') || ('a' <= c <= 'f')
  }

  /**
   * The 8-4-4-4-12 hexadecimal spelling of a uuid, with letters in either
   * case: the form the input validation accepts and the one the model lets
   * statements take. The database reads it as a 128-bit value, so spellings
   * that differ only in the case of their letters name the same uuid. The
   * database also reads other spellings (without hyphens, in braces); the
   * input validation refuses those and the model does not take them.
   */
  predicate IsUuid(s: string) {
    && |s| == 36
    && (forall i :: 0 <= i < 36 ==> (if i in {8, 13, 18, 23} then s[i] == '-' else IsHexDigit(s[i])))
  }

  /** The spelling the database prints for a uuid value: the same form, in lower case. */
  predicate IsStoredUuid(s: string) {
    && |s| == 36
    && (forall i :: 0 <= i < 36 ==> (if i in {8, 13, 18, 23} then s[i] == '-' else IsLowerHexDigit(s[i])))
  }

  function LowerHex(c: char): char {
    if 'A' <= c <= 'F' then (c as int + 32) as char else c
  }

  /** The value a uuid spelling names, written as the database prints it. */
  function UuidValue(s: string): (r: Uuid)
    ensures |r| == |s|
    ensures IsUuid(s) ==> IsStoredUuid(r)
    ensures IsStoredUuid(s) ==> r == s
    ensures forall i :: 0 <= i < |s| ==> r[i] == LowerHex(s[i])
  {
    var r := seq(|s|, i requires 0 <= i < |s| => LowerHex(s[i]));
    assert IsStoredUuid(s) ==> r == s by {
      if IsStoredUuid(s) {
        assert forall i :: 0 <= i < |s| ==> r[i] == s[i];
      }
    }
    r
  }

  /** The spelling with one hexadecimal digit `c` in all 32 places. */
  function RepeatedUuid(c: char): (r: string)
    requires IsHexDigit(c)
    ensures IsUuid(r)
    ensures IsLowerHexDigit(c) ==> IsStoredUuid(r)
    ensures forall i :: 0 <= i < |r| ==> r[i] == if i in {8, 13, 18, 23} then '-' else c
  {
    seq(36, i requires 0 <= i < 36 => if i in {8, 13, 18, 23} then '-' else c)
  }

  /**
   * "AAAAAAAA-AAAA-AAAA-AAAA-AAAAAAAAAAAA" names the uuid stored as
   * "aaaaaaaa-aaaa-aaaa-aaaa-aaaaaaaaaaaa".
   */
  lemma UpperCaseSpelling()
    ensures UuidValue(RepeatedUuid('A')) == RepeatedUuid('a')
  {
    SpellingsOfOneUuid(RepeatedUuid('A'), RepeatedUuid('a'));
  }

  /** Two spellings that differ only in the case of letters name one stored uuid. */
  lemma SpellingsOfOneUuid(a: string, b: string)
    requires |a| == |b|
    requires forall i :: 0 <= i < |a| ==> LowerHex(a[i]) == LowerHex(b[i])
    ensures UuidValue(a) == UuidValue(b)
  {
    assert forall i :: 0 <= i < |a| ==> UuidValue(a)[i] == UuidValue(b)[i];
  }

  predicate Varchar(s: string, n: nat) {
    |s| <= n
  }

  predicate OptVarchar(s: Option<string>, n: nat) {
    s.None? || |s.value| <= n
  }

  predicate OptInt32(i: Option<int>) {
    i.None? || INT32_MIN <= i.value <= INT32_MAX
  }

  predicate ServerFits(s: Server) {
    && IsStoredUuid(s.id)
    && Varchar(s.name, 255)
    && Varchar(s.slug, 255)
    && Varchar(s.shortDesc, 160)
    && OptVarchar(s.homepageUrl, 255)
    && OptVarchar(s.repoUrl, 255)
    && OptVarchar(s.docsUrl, 255)
    && OptInt32(s.stars)
    && OptVarchar(s.license, 50)
  }

  predicate CategoryFits(c: Category) {
    IsStoredUuid(c.id) && Varchar(c.name, 100) && Varchar(c.slug, 100) && OptInt32(c.sortOrder)
  }

  predicate LinkFits(l: Link) {
    IsStoredUuid(l.serverId) && IsStoredUuid(l.categoryId)
  }

  predicate SubmissionFits(s: Submission) {
    && IsStoredUuid(s.id)
    && Varchar(s.name, 255)
    && Varchar(s.email, 255)
    && Varchar(s.serverName, 255)
    && Varchar(s.repoUrl, 255)
    && Varchar(s.status, 50)
  }

  /** No value occurs twice. */
  predicate Distinct<T(==)>(s: seq<T>) {
    forall i, j :: 0 <= i < j < |s| ==> s[i] != s[j]
  }

  function ServerIds(rows: seq<Server>): (r: seq<Uuid>)
    ensures |r| == |rows| && forall i :: 0 <= i < |rows| ==> r[i] == rows[i].id
  {
    seq(|rows|, i requires 0 <= i < |rows| => rows[i].id)
  }

  function ServerSlugs(rows: seq<Server>): (r: seq<string>)
    ensures |r| == |rows| && forall i :: 0 <= i < |rows| ==> r[i] == rows[i].slug
  {
    seq(|rows|, i requires 0 <= i < |rows| => rows[i].slug)
  }

  function CategoryIds(rows: seq<Category>): (r: seq<Uuid>)
    ensures |r| == |rows| && forall i :: 0 <= i < |rows| ==> r[i] == rows[i].id
  {
    seq(|rows|, i requires 0 <= i < |rows| => rows[i].id)
  }

  function CategorySlugs(rows: seq<Category>): (r: seq<string>)
    ensures |r| == |rows| && forall i :: 0 <= i < |rows| ==> r[i] == rows[i].slug
  {
    seq(|rows|, i requires 0 <= i < |rows| => rows[i].slug)
  }

  function SubmissionIds(rows: seq<Submission>): (r: seq<Uuid>)
    ensures |r| == |rows| && forall i :: 0 <= i < |rows| ==> r[i] == rows[i].id
  {
    seq(|rows|, i requires 0 <= i < |rows| => rows[i].id)
  }

  /** Every value fits its column. */
  predicate AllFit(t: Tables) {
    && (forall i :: 0 <= i < |t.servers| ==> ServerFits(t.servers[i]))
    && (forall i :: 0 <= i < |t.categories| ==> CategoryFits(t.categories[i]))
    && (forall i :: 0 <= i < |t.links| ==> LinkFits(t.links[i]))
    && (forall i :: 0 <= i < |t.submissions| ==> SubmissionFits(t.submissions[i]))
  }

  /** Primary keys and unique columns hold no value twice. */
  predicate AllUnique(t: Tables) {
    && Distinct(ServerIds(t.servers))
    && Distinct(ServerSlugs(t.servers))
    && Distinct(CategoryIds(t.categories))
    && Distinct(CategorySlugs(t.categories))
    && Distinct(t.links)
    && Distinct(SubmissionIds(t.submissions))
  }

  /** Every link references an existing server and an existing category. */
  predicate LinksResolve(t: Tables) {
    forall i :: 0 <= i < |t.links| ==>
      t.links[i].serverId in ServerIds(t.servers) && t.links[i].categoryId in CategoryIds(t.categories)
  }

  /** Every constraint the schema declares. */
  predicate Valid(t: Tables) {
    AllFit(t) && AllUnique(t) && LinksResolve(t)
  }

  /** The error the database raises for tables that break a constraint, if any. */
  function Check(t: Tables): (r: Option<DbError>)
    ensures r.None? <==> Valid(t)
    ensures r == Some(DataError) <==> !AllFit(t)
    ensures r == Some(UniqueViolation) ==> AllFit(t) && !AllUnique(t)
    ensures r != Some(EmptyValues)
  {
    if !AllFit(t) then Some(DataError)
    else if !AllUnique(t) then Some(UniqueViolation)
    else if !LinksResolve(t) then Some(ForeignKeyViolation)
    else None
  }

  /** A statement's outcome: the proposed tables if they satisfy every constraint. */
  function Commit(next: Tables): (r: Result<Tables, DbError>)
    ensures r.Ok? <==> Valid(next)
    ensures r.Ok? ==> r.value == next
    ensures r != Err(EmptyValues)
  {
    match Check(next)
    case Some(e) => Err(e)
    case None => Ok(next)
  }

  lemma DistinctAppend<T>(s: seq<T>, x: T)
    ensures Distinct(s + [x]) <==> Distinct(s) && x !in s
  {
    var u := s + [x];
    assert forall i :: 0 <= i < |s| ==> u[i] == s[i];
    assert u[|s|] == x;
    if Distinct(u) {
      forall k | 0 <= k < |s|
        ensures s[k] != x
      {
        assert u[k] != u[|s|];
      }
    }
  }

  // ---------------------------------------------------------------------
  // Statements

  /** `INSERT INTO servers`: one new row at the end. */
  function InsertServer(t: Tables, row: Server): (r: Result<Tables, DbError>)
    ensures r.Ok? ==> r.value == t.(servers := t.servers + [row]) && Valid(r.value)
    ensures Valid(t) ==>
      (r.Ok? <==> ServerFits(row) && row.id !in ServerIds(t.servers) && row.slug !in ServerSlugs(t.servers))
  {
    var next := t.(servers := t.servers + [row]);
    assert ServerIds(next.servers) == ServerIds(t.servers) + [row.id];
    assert ServerSlugs(next.servers) == ServerSlugs(t.servers) + [row.slug];
    DistinctAppend(ServerIds(t.servers), row.id);
    DistinctAppend(ServerSlugs(t.servers), row.slug);
    assert forall i :: 0 <= i < |t.servers| ==> next.servers[i] == t.servers[i];
    assert next.servers[|t.servers|] == row;
    Commit(next)
  }

  /** The rows after `UPDATE servers SET … WHERE id = id`, with `f` giving an updated row. */
  function MapWhere(rows: seq<Server>, id: Uuid, f: Server -> Server): (r: seq<Server>)
    ensures |r| == |rows|
    ensures forall i :: 0 <= i < |rows| ==> r[i] == if rows[i].id == id then f(rows[i]) else rows[i]
  {
    seq(|rows|, i requires 0 <= i < |rows| => if rows[i].id == id then f(rows[i]) else rows[i])
  }

  /** The rows whose id is `id`, in table order: what `RETURNING` yields. */
  function WithId(rows: seq<Server>, id: Uuid): (r: seq<Server>)
    ensures forall x :: x in r ==> x in rows && x.id == id
    ensures (exists i :: 0 <= i < |rows| && rows[i].id == id) <==> r != []
  {
    if rows == [] then []
    else if rows[0].id == id then [rows[0]] + WithId(rows[1..], id)
    else
      assert forall i :: 1 <= i < |rows| ==> rows[i] == rows[1..][i - 1];
      WithId(rows[1..], id)
  }

  /** The rows whose id is not `id`, in table order. */
  function WithoutId(rows: seq<Server>, id: Uuid): (r: seq<Server>)
    ensures forall x :: x in r <==> x in rows && x.id != id
    ensures |r| <= |rows|
  {
    if rows == [] then []
    else if rows[0].id == id then WithoutId(rows[1..], id)
    else [rows[0]] + WithoutId(rows[1..], id)
  }

  /**
   * `UPDATE servers SET … WHERE id = id RETURNING *`: every row holding the
   * uuid that `id` spells is replaced by `f` of it; the updated rows are
   * returned.
   */
  function UpdateServer(t: Tables, id: Uuid, f: Server -> Server): (r: Result<(Tables, seq<Server>), DbError>)
    ensures !IsUuid(id) ==> r == Err(DataError)
    ensures r.Ok? <==> IsUuid(id) && Valid(t.(servers := MapWhere(t.servers, UuidValue(id), f)))
    ensures r.Ok? ==> Valid(r.value.0)
    ensures r.Ok? ==> r.value.0 == t.(servers := MapWhere(t.servers, UuidValue(id), f))
    ensures r.Ok? ==> r.value.1 == WithId(t.servers, UuidValue(id)) && (forall x :: x in r.value.1 ==> f(x) in r.value.0.servers)
  {
    if !IsUuid(id) then Err(DataError)
    else
      var key := UuidValue(id);
      var next := t.(servers := MapWhere(t.servers, key, f));
      match Commit(next)
      case Err(e) => Err(e)
      case Ok(n) =>
        assert forall x :: x in WithId(t.servers, key) ==> f(x) in n.servers by {
          forall x | x in WithId(t.servers, key)
            ensures f(x) in n.servers
          {
            var i :| 0 <= i < |t.servers| && t.servers[i] == x;
            assert n.servers[i] == f(x);
          }
        }
        Ok((n, WithId(t.servers, key)))
  }

  /** The links not satisfying `drop`. */
  function KeepLinks(links: seq<Link>, serverId: Option<Uuid>, categoryId: Option<Uuid>): (r: seq<Link>)
    ensures forall l :: l in r <==> l in links && Some(l.serverId) != serverId && Some(l.categoryId) != categoryId
  {
    if links == [] then []
    else
      var l := links[0];
      var rest := KeepLinks(links[1..], serverId, categoryId);
      if Some(l.serverId) == serverId || Some(l.categoryId) == categoryId then rest else [l] + rest
  }

  lemma {:induction false} KeepLinksDistinct(links: seq<Link>, serverId: Option<Uuid>, categoryId: Option<Uuid>)
    requires Distinct(links)
    ensures Distinct(KeepLinks(links, serverId, categoryId))
    decreases |links|
  {
    if links != [] {
      DistinctTail(links);
      KeepLinksDistinct(links[1..], serverId, categoryId);
      var rest := KeepLinks(links[1..], serverId, categoryId);
      if !(Some(links[0].serverId) == serverId || Some(links[0].categoryId) == categoryId) {
        DistinctCons(links[0], rest);
      }
    }
  }

  lemma DistinctCons<T>(x: T, s: seq<T>)
    requires Distinct(s) && x !in s
    ensures Distinct([x] + s)
  {
    var u := [x] + s;
    forall i, j | 0 <= i < j < |u|
      ensures u[i] != u[j]
    {
      assert u[j] == s[j - 1];
      if i > 0 {
        assert u[i] == s[i - 1];
      }
    }
  }

  lemma ServerColumnsCons(x: Server, rows: seq<Server>)
    ensures ServerIds([x] + rows) == [x.id] + ServerIds(rows)
    ensures ServerSlugs([x] + rows) == [x.slug] + ServerSlugs(rows)
  {
  }

  lemma ServerColumnsTail(rows: seq<Server>)
    requires rows != []
    ensures ServerIds(rows) == [rows[0].id] + ServerIds(rows[1..])
    ensures ServerSlugs(rows) == [rows[0].slug] + ServerSlugs(rows[1..])
  {
  }

  /** A value in a column of a sub-list of `rows` is in that column of `rows`. */
  lemma ServerColumnsSub(sub: seq<Server>, rows: seq<Server>)
    requires forall x :: x in sub ==> x in rows
    ensures forall v :: v in ServerIds(sub) ==> v in ServerIds(rows)
    ensures forall v :: v in ServerSlugs(sub) ==> v in ServerSlugs(rows)
  {
    forall k | 0 <= k < |sub|
      ensures sub[k].id in ServerIds(rows) && sub[k].slug in ServerSlugs(rows)
    {
      assert sub[k] in rows;
      var m :| 0 <= m < |rows| && rows[m] == sub[k];
      assert ServerIds(rows)[m] == sub[k].id;
      assert ServerSlugs(rows)[m] == sub[k].slug;
    }
  }

  lemma {:induction false} WithoutIdDistinct(rows: seq<Server>, id: Uuid)
    requires Distinct(ServerIds(rows)) && Distinct(ServerSlugs(rows))
    ensures Distinct(ServerIds(WithoutId(rows, id))) && Distinct(ServerSlugs(WithoutId(rows, id)))
    decreases |rows|
  {
    if rows != [] {
      var tl := rows[1..];
      ServerColumnsTail(rows);
      DistinctTail(ServerIds(rows));
      DistinctTail(ServerSlugs(rows));
      WithoutIdDistinct(tl, id);
      if rows[0].id != id {
        var rest := WithoutId(tl, id);
        ServerColumnsCons(rows[0], rest);
        ServerColumnsSub(rest, tl);
        DistinctCons(rows[0].id, ServerIds(rest));
        DistinctCons(rows[0].slug, ServerSlugs(rest));
      }
    }
  }

  lemma DistinctTail<T>(s: seq<T>)
    requires Distinct(s) && s != []
    ensures Distinct(s[1..]) && s[0] !in s[1..]
  {
    forall i, j | 0 <= i < j < |s[1..]|
      ensures s[1..][i] != s[1..][j]
    {
      assert s[1..][i] == s[i + 1] && s[1..][j] == s[j + 1];
    }
    forall k | 0 <= k < |s[1..]|
      ensures s[1..][k] != s[0]
    {
      assert s[1..][k] == s[k + 1];
    }
  }

  /**
   * `DELETE FROM servers WHERE id = id RETURNING *`: the row holding the uuid
   * that `id` spells goes, and so does every link to it (ON DELETE CASCADE).
   */
  function DeleteServer(t: Tables, id: Uuid): (r: Result<(Tables, seq<Server>), DbError>)
    ensures !IsUuid(id) <==> r == Err(DataError)
    ensures IsUuid(id) ==> r.Ok?
    ensures r.Ok? ==> Valid(t) ==> Valid(r.value.0)
    ensures r.Ok? ==> r.value.1 == WithId(t.servers, UuidValue(id))
    ensures r.Ok? ==> var n := r.value.0;
      && n.servers == WithoutId(t.servers, UuidValue(id))
      && n.links == KeepLinks(t.links, Some(UuidValue(id)), None)
      && n.categories == t.categories && n.submissions == t.submissions
  {
    if !IsUuid(id) then Err(DataError)
    else
      var key := UuidValue(id);
      var next := t.(servers := WithoutId(t.servers, key), links := KeepLinks(t.links, Some(key), None));
      if Valid(t) then
        DeleteServerValid(t, key);
        Ok((next, WithId(t.servers, key)))
      else Ok((next, WithId(t.servers, key)))
  }

  lemma DeleteServerValid(t: Tables, id: Uuid)
    requires Valid(t)
    ensures Valid(t.(servers := WithoutId(t.servers, id), links := KeepLinks(t.links, Some(id), None)))
  {
    var next := t.(servers := WithoutId(t.servers, id), links := KeepLinks(t.links, Some(id), None));
    WithoutIdDistinct(t.servers, id);
    KeepLinksDistinct(t.links, Some(id), None);
    DeleteServerFits(t, id);
    DeleteServerResolves(t, id);
    assert AllUnique(next);
  }

  lemma DeleteServerFits(t: Tables, id: Uuid)
    requires AllFit(t)
    ensures AllFit(t.(servers := WithoutId(t.servers, id), links := KeepLinks(t.links, Some(id), None)))
  {
    var next := t.(servers := WithoutId(t.servers, id), links := KeepLinks(t.links, Some(id), None));
    assert forall i :: 0 <= i < |next.servers| ==> next.servers[i] in t.servers;
    assert forall i :: 0 <= i < |next.links| ==> next.links[i] in t.links;
  }

  lemma DeleteServerResolves(t: Tables, id: Uuid)
    requires LinksResolve(t)
    ensures LinksResolve(t.(servers := WithoutId(t.servers, id), links := KeepLinks(t.links, Some(id), None)))
  {
    var servers := WithoutId(t.servers, id);
    var links := KeepLinks(t.links, Some(id), None);
    forall i | 0 <= i < |links|
      ensures links[i].serverId in ServerIds(servers)
      ensures links[i].categoryId in CategoryIds(t.categories)
    {
      var l := links[i];
      var j :| 0 <= j < |t.links| && t.links[j] == l;
      var k :| 0 <= k < |t.servers| && t.servers[k].id == l.serverId;
      assert t.servers[k] in servers;
      var m :| 0 <= m < |servers| && servers[m] == t.servers[k];
      assert ServerIds(servers)[m] == l.serverId;
    }
  }

  /** The categories whose id is not `id`, in table order. */
  function CategoriesWithoutId(rows: seq<Category>, id: Uuid): (r: seq<Category>)
    ensures forall x :: x in r <==> x in rows && x.id != id
  {
    if rows == [] then []
    else if rows[0].id == id then CategoriesWithoutId(rows[1..], id)
    else [rows[0]] + CategoriesWithoutId(rows[1..], id)
  }

  /** `DELETE FROM categories WHERE id = id`: links to the category go too (ON DELETE CASCADE). */
  function DeleteCategory(t: Tables, id: Uuid): (r: Result<Tables, DbError>)
    ensures !IsUuid(id) <==> r == Err(DataError)
    ensures r.Ok? ==> var n := r.value;
      && n.categories == CategoriesWithoutId(t.categories, id)
      && n.links == KeepLinks(t.links, None, Some(id))
      && n.servers == t.servers && n.submissions == t.submissions
      && (forall l :: l in n.links ==> l.categoryId != id)
  {
    if !IsUuid(id) then Err(DataError)
    else Ok(t.(categories := CategoriesWithoutId(t.categories, id), links := KeepLinks(t.links, None, Some(id))))
  }

  /** `INSERT INTO categories VALUES …`: all rows or none; an empty list is refused. */
  function InsertCategories(t: Tables, rows: seq<Category>): (r: Result<Tables, DbError>)
    ensures rows == [] <==> r == Err(EmptyValues)
    ensures r.Ok? <==> rows != [] && Valid(t.(categories := t.categories + rows))
    ensures r.Ok? ==> r.value == t.(categories := t.categories + rows)
  {
    if rows == [] then Err(EmptyValues) else Commit(t.(categories := t.categories + rows))
  }

  /** `DELETE FROM servers_to_categories WHERE server_id = serverId`. */
  function DeleteLinksOf(t: Tables, serverId: Uuid): (r: Result<Tables, DbError>)
    ensures !IsUuid(serverId) <==> r == Err(DataError)
    ensures r.Ok? ==> r.value == t.(links := KeepLinks(t.links, Some(serverId), None))
    ensures r.Ok? ==> forall l :: l in r.value.links <==> l in t.links && l.serverId != serverId
    ensures r.Ok? && Valid(t) ==> Valid(r.value)
  {
    if !IsUuid(serverId) then Err(DataError)
    else
      var next := t.(links := KeepLinks(t.links, Some(serverId), None));
      if Valid(t) then
        KeepLinksDistinct(t.links, Some(serverId), None);
        assert forall i :: 0 <= i < |next.links| ==> next.links[i] in t.links;
        Ok(next)
      else Ok(next)
  }

  /** `INSERT INTO servers_to_categories VALUES …`: all rows or none; an empty list is refused. */
  function InsertLinks(t: Tables, rows: seq<Link>): (r: Result<Tables, DbError>)
    ensures rows == [] <==> r == Err(EmptyValues)
    ensures r.Ok? <==> rows != [] && Valid(t.(links := t.links + rows))
    ensures r.Ok? ==> r.value == t.(links := t.links + rows)
  {
    if rows == [] then Err(EmptyValues) else Commit(t.(links := t.links + rows))
  }

  /** `INSERT INTO submissions`: one new row at the end. */
  function InsertSubmission(t: Tables, row: Submission): (r: Result<Tables, DbError>)
    ensures r.Ok? ==> r.value == t.(submissions := t.submissions + [row]) && Valid(r.value)
    ensures Valid(t) ==> (r.Ok? <==> SubmissionFits(row) && row.id !in SubmissionIds(t.submissions))
  {
    var next := t.(submissions := t.submissions + [row]);
    assert SubmissionIds(next.submissions) == SubmissionIds(t.submissions) + [row.id];
    DistinctAppend(SubmissionIds(t.submissions), row.id);
    assert forall i :: 0 <= i < |t.submissions| ==> next.submissions[i] == t.submissions[i];
    assert next.submissions[|t.submissions|] == row;
    Commit(next)
  }
}
