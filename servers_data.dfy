/**
 * The data-access functions the enrichment workflow uses on the servers and
 * categories tables: server creation with a unique slug, the stats and
 * content updates, category creation and the clear-then-insert assignment of
 * categories to a server.
 *
 * Each operation is a value-level function from the tables before to the
 * tables after plus its outcome (the statements are not run in a
 * transaction, so a later failure leaves the earlier statements' effects in
 * place), and a method that performs it on a `Store`.
 */
module ServersData {
  import opened Wrappers
  import opened Text
  import opened Schema
  import opened Database

  /** What `createServer` receives. */
  datatype CreateServerInput = CreateServerInput(
    name: string,
    homepageUrl: string,
    repoUrl: Option<string>,
    docsUrl: Option<string>,
    logoUrl: Option<string>)

  /** The placeholder description a server holds until its content is generated. */
  const PROCESSING_DESC: string := "Processing..."
  const UNKNOWN_LICENSE: string := "unknown"

  // ---------------------------------------------------------------------
  // Unique slugs

  /** The `n`-th alternative to a taken slug: `${base}-${n}`. */
  function Candidate(base: string, n: nat): string {
    base + "-" + NatToString(n)
  }

  lemma CandidateInjective(base: string, a: nat, b: nat)
    requires Candidate(base, a) == Candidate(base, b)
    ensures a == b
  {
    var p := base + "-";
    assert Candidate(base, a) == p + NatToString(a);
    assert Candidate(base, b) == p + NatToString(b);
    assert (p + NatToString(a))[|p|..] == NatToString(a);
    assert (p + NatToString(b))[|p|..] == NatToString(b);
    NatToStringInjective(a, b);
  }

  /** A set of suffixes whose candidates are all taken has at most as many elements as there are slugs. */
  lemma {:induction false} TakenBound(taken: seq<string>, base: string, s: set<nat>)
    requires forall k :: k in s ==> Candidate(base, k) in taken
    ensures |s| <= |taken|
    decreases |taken|
  {
    if taken == [] {
      assert s == {};
    } else {
      var x := taken[0];
      var rest := taken[1..];
      assert taken == [x] + rest;
      var s' := set k | k in s && Candidate(base, k) != x;
      assert forall k :: k in s' ==> Candidate(base, k) in rest;
      TakenBound(rest, base, s');
      if k0 :| k0 in s && Candidate(base, k0) == x {
        forall k | k in s && Candidate(base, k) == x
          ensures k == k0
        {
          CandidateInjective(base, k, k0);
        }
        assert s' == s - {k0};
      } else {
        assert s' == s;
      }
    }
  }

  /** The suffixes 1..n. */
  function Range(n: nat): (r: set<nat>)
    ensures forall k :: k in r <==> 1 <= k <= n
    ensures |r| == n
  {
    if n == 0 then {} else Range(n - 1) + {n}
  }

  /** At most `|taken|` consecutive candidates from 1 can all be taken. */
  lemma AllTakenBound(taken: seq<string>, base: string, n: nat)
    requires forall k :: 1 <= k <= n ==> Candidate(base, k) in taken
    ensures n <= |taken|
  {
    TakenBound(taken, base, Range(n));
  }

  /** The first suffix from `k` whose candidate is free, searching at most `fuel` further. */
  function FirstFree(taken: seq<string>, base: string, k: nat, fuel: nat): (r: nat)
    ensures k <= r <= k + fuel
    ensures forall j :: k <= j < r ==> Candidate(base, j) in taken
    ensures Candidate(base, r) !in taken || r == k + fuel
    decreases fuel
  {
    if fuel == 0 || Candidate(base, k) !in taken then k
    else FirstFree(taken, base, k + 1, fuel - 1)
  }

  /** The least `n >= 1` such that `${base}-${n}` is not taken. */
  function FreeSuffix(taken: seq<string>, base: string): (n: nat)
    ensures n >= 1 && Candidate(base, n) !in taken
    ensures forall k :: 1 <= k < n ==> Candidate(base, k) in taken
  {
    var n := FirstFree(taken, base, 1, |taken|);
    if Candidate(base, n) in taken then
      AllTakenBound(taken, base, n);
      assert false;
      n
    else n
  }

  /** The least free suffix is the only suffix with its two properties. */
  lemma FreeSuffixUnique(taken: seq<string>, base: string, n: nat)
    requires n >= 1 && Candidate(base, n) !in taken
    requires forall k :: 1 <= k < n ==> Candidate(base, k) in taken
    ensures n == FreeSuffix(taken, base)
  {
  }

  /** The slug `createServer` settles on for a generated base slug, given the slugs in use. */
  function ChooseSlug(taken: seq<string>, base: string): (r: string)
    ensures r !in taken
    ensures base !in taken ==> r == base
    ensures base in taken ==> r == Candidate(base, FreeSuffix(taken, base))
  {
    if base !in taken then base else Candidate(base, FreeSuffix(taken, base))
  }

  /** The row `createServer` inserts. */
  function NewServerRow(input: CreateServerInput, slug: string, id: Uuid, now: Timestamp): Server {
    Server(
      id := id,
      name := input.name,
      slug := slug,
      shortDesc := PROCESSING_DESC,
      longDesc := None,
      homepageUrl := Some(input.homepageUrl),
      repoUrl := OrNull(input.repoUrl),
      docsUrl := OrNull(input.docsUrl),
      logoUrl := OrNull(input.logoUrl),
      stars := Some(0),
      lastCommit := Some(now),
      license := Some(UNKNOWN_LICENSE),
      readmeContent := None,
      createdAt := now,
      updatedAt := now)
  }

  /**
   * `createServer`: the new server gets `generateSlug(name)` if no server
   * has it, else the first free `${slug}-${n}`; then one row is inserted.
   */
  function CreateServerOp(t: Tables, input: CreateServerInput, generateSlug: string -> string, id: Uuid, now: Timestamp)
    : (o: (Tables, Result<Server, DbError>))
    ensures o.1.Ok? ==> o.0 == t.(servers := t.servers + [o.1.value]) && Valid(o.0)
    ensures o.1.Ok? ==> o.1.value.slug !in ServerSlugs(t.servers)
    ensures o.1.Ok? ==> o.1.value == NewServerRow(input, ChooseSlug(ServerSlugs(t.servers), generateSlug(input.name)), id, now)
    ensures o.1.Err? ==> o.0 == t
    ensures Valid(t) ==>
      (o.1.Ok? <==> ServerFits(NewServerRow(input, ChooseSlug(ServerSlugs(t.servers), generateSlug(input.name)), id, now))
                    && id !in ServerIds(t.servers))
  {
    var row := NewServerRow(input, ChooseSlug(ServerSlugs(t.servers), generateSlug(input.name)), id, now);
    match InsertServer(t, row)
    case Ok(t') => (t', Ok(row))
    case Err(e) => (t, Err(e))
  }

  /** A new server starts out with the placeholder description, no stars and an unknown license. */
  lemma CreatedServerDefaults(t: Tables, input: CreateServerInput, generateSlug: string -> string, id: Uuid, now: Timestamp)
    requires CreateServerOp(t, input, generateSlug, id, now).1.Ok?
    ensures var s := CreateServerOp(t, input, generateSlug, id, now).1.value;
      && s.shortDesc == PROCESSING_DESC && s.stars == Some(0) && s.license == Some(UNKNOWN_LICENSE)
      && s.homepageUrl == Some(input.homepageUrl)
      && (s.repoUrl.None? <==> input.repoUrl.None? || input.repoUrl == Some(""))
      && (s.docsUrl.None? <==> input.docsUrl.None? || input.docsUrl == Some(""))
      && (s.logoUrl.None? <==> input.logoUrl.None? || input.logoUrl == Some(""))
  {
  }

  /** Whether some server has slug `s`: `SELECT id FROM servers WHERE slug = s LIMIT 1` returned a row. */
  function SlugExists(rows: seq<Server>, s: string): (b: bool)
    ensures b <==> s in ServerSlugs(rows)
  {
    exists i :: 0 <= i < |rows| && rows[i].slug == s
  }

  /**
   * The slug search of `createServer` over the current rows: the generated
   * slug if unused, else `${slug}-1`, `${slug}-2`, … until one is unused.
   */
  method UniqueSlug(rows: seq<Server>, base: string) returns (slug: string)
    ensures slug == ChooseSlug(ServerSlugs(rows), base)
    ensures slug !in ServerSlugs(rows)
  {
    ghost var taken := ServerSlugs(rows);
    slug := base;
    if SlugExists(rows, base) {
      var counter: nat := 1;
      var uniqueSlug := Candidate(base, counter);
      while true
        invariant counter >= 1 && uniqueSlug == Candidate(base, counter)
        invariant forall k :: 1 <= k < counter ==> Candidate(base, k) in taken
        decreases |taken| + 1 - counter
      {
        if !SlugExists(rows, uniqueSlug) {
          slug := uniqueSlug;
          FreeSuffixUnique(taken, base, counter);
          break;
        }
        AllTakenBound(taken, base, counter);
        counter := counter + 1;
        uniqueSlug := Candidate(base, counter);
      }
    }
  }

  method CreateServer(db: Store, input: CreateServerInput, generateSlug: string -> string, id: Uuid, now: Timestamp)
    returns (r: Result<Server, DbError>)
    modifies db
    ensures (db.Snapshot(), r) == CreateServerOp(old(db.Snapshot()), input, generateSlug, id, now)
  {
    var slug := UniqueSlug(db.servers, generateSlug(input.name));
    var row := NewServerRow(input, slug, id, now);
    var e := db.Run(InsertServer(db.Snapshot(), row));
    r := if e.None? then Ok(row) else Err(e.value);
  }

  // ---------------------------------------------------------------------
  // Stats and content updates

  /** The change `updateServerStats` makes to the matching row. */
  function StatsUpdate(stars: int, lastCommit: Timestamp, license: string, now: Timestamp): Server -> Server {
    (s: Server) => s.(stars := Some(stars), lastCommit := Some(lastCommit), license := Some(license), updatedAt := now)
  }

  /** The change `updateServerContent` makes to the matching row. */
  function ContentUpdate(shortDesc: string, longDesc: Option<string>, now: Timestamp): Server -> Server {
    (s: Server) => s.(shortDesc := shortDesc, longDesc := longDesc, updatedAt := now)
  }

  /** The outcome of an update run only for its effect. */
  function UpdateOutcome(t: Tables, id: Uuid, f: Server -> Server): (o: (Tables, Option<DbError>))
    ensures o.1.None? ==> o.0 == t.(servers := MapWhere(t.servers, UuidValue(id), f)) && Valid(o.0)
    ensures o.1.Some? ==> o.0 == t
  {
    match UpdateServer(t, id, f)
    case Ok((t', _)) => (t', None)
    case Err(e) => (t, Some(e))
  }

  /**
   * `updateServerStats`: the rows with that id get the new stars, last
   * commit, license and update time; every other field and row is kept.
   * The caller's README text is not among the fields written.
   */
  method UpdateServerStats(db: Store, serverId: Uuid, stars: int, lastCommit: Timestamp, license: string, now: Timestamp)
    returns (e: Option<DbError>)
    modifies db
    ensures (db.Snapshot(), e) == UpdateOutcome(old(db.Snapshot()), serverId, StatsUpdate(stars, lastCommit, license, now))
    ensures e.None? ==> |db.servers| == |old(db.servers)| && forall i :: 0 <= i < |db.servers| ==>
      var was := old(db.servers[i]);
      db.servers[i] == if was.id == UuidValue(serverId)
        then was.(stars := Some(stars), lastCommit := Some(lastCommit), license := Some(license), updatedAt := now)
        else was
    ensures e.None? ==> db.servers != [] ==> forall i :: 0 <= i < |db.servers| ==> db.servers[i].readmeContent == old(db.servers[i]).readmeContent
  {
    var o := UpdateOutcome(db.Snapshot(), serverId, StatsUpdate(stars, lastCommit, license, now));
    db.Put(o.0);
    e := o.1;
  }

  /** `updateServerContent`: the rows with that id get the new descriptions and update time. */
  method UpdateServerContent(db: Store, serverId: Uuid, shortDesc: string, longDesc: Option<string>, now: Timestamp)
    returns (e: Option<DbError>)
    modifies db
    ensures (db.Snapshot(), e) == UpdateOutcome(old(db.Snapshot()), serverId, ContentUpdate(shortDesc, longDesc, now))
    ensures e.None? ==> |db.servers| == |old(db.servers)| && forall i :: 0 <= i < |db.servers| ==>
      var was := old(db.servers[i]);
      db.servers[i] == if was.id == UuidValue(serverId) then was.(shortDesc := shortDesc, longDesc := longDesc, updatedAt := now) else was
  {
    var o := UpdateOutcome(db.Snapshot(), serverId, ContentUpdate(shortDesc, longDesc, now));
    db.Put(o.0);
    e := o.1;
  }

  // ---------------------------------------------------------------------
  // Categories

  /** The rows `createCategories` inserts: one per name, slug generated, sort order 0. */
  function CategoryRows(names: seq<string>, generateSlug: string -> string, newId: string -> Uuid): (r: seq<Category>)
    ensures |r| == |names|
    ensures forall i :: 0 <= i < |names| ==>
      r[i] == Category(newId(names[i]), names[i], generateSlug(names[i]), Some(DEFAULT_SORT_ORDER))
  {
    seq(|names|, i requires 0 <= i < |names| =>
      Category(newId(names[i]), names[i], generateSlug(names[i]), Some(DEFAULT_SORT_ORDER)))
  }

  /** `createCategories`: nothing for no names; otherwise one insert of all rows, returned in order. */
  function CreateCategoriesOp(t: Tables, names: seq<string>, generateSlug: string -> string, newId: string -> Uuid)
    : (o: (Tables, Result<seq<Category>, DbError>))
    ensures names == [] ==> o == (t, Ok([]))
    ensures o.1.Ok? ==> o.1.value == CategoryRows(names, generateSlug, newId)
    ensures o.1.Ok? ==> o.0 == t.(categories := t.categories + o.1.value)
    ensures o.1.Ok? && (names != [] || Valid(t)) ==> Valid(o.0)
    ensures names != [] ==> (o.1.Ok? <==> Valid(t.(categories := t.categories + CategoryRows(names, generateSlug, newId))))
    ensures o.1.Err? ==> o.0 == t
  {
    if names == [] then (t, Ok([]))
    else
      var rows := CategoryRows(names, generateSlug, newId);
      assert rows != [];
      match InsertCategories(t, rows)
      case Ok(t') => (t', Ok(rows))
      case Err(e) => (t, Err(e))
  }

  lemma {:induction false} DistinctConcat<T>(a: seq<T>, b: seq<T>)
    requires Distinct(a) && Distinct(b)
    requires forall x :: x in a ==> x !in b
    ensures Distinct(a + b)
  {
    var u := a + b;
    forall i, j | 0 <= i < j < |u|
      ensures u[i] != u[j]
    {
      if j < |a| {
        assert u[i] == a[i] && u[j] == a[j];
      } else if i >= |a| {
        assert u[i] == b[i - |a|] && u[j] == b[j - |a|];
      } else {
        assert u[i] == a[i] && u[j] == b[j - |a|];
        assert a[i] in a;
      }
    }
  }

  /**
   * Category names are not checked against the existing ones: in valid
   * tables the insert succeeds whenever the new rows fit and their ids and
   * slugs are new and distinct, whatever their names.
   */
  lemma CreateCategoriesIgnoresNames(t: Tables, names: seq<string>, generateSlug: string -> string, newId: string -> Uuid)
    requires Valid(t) && names != []
    requires var rows := CategoryRows(names, generateSlug, newId);
      && (forall i :: 0 <= i < |rows| ==> CategoryFits(rows[i]))
      && Distinct(CategoryIds(rows)) && Distinct(CategorySlugs(rows))
      && (forall i :: 0 <= i < |rows| ==> rows[i].id !in CategoryIds(t.categories) && rows[i].slug !in CategorySlugs(t.categories))
    ensures CreateCategoriesOp(t, names, generateSlug, newId).1.Ok?
  {
    var rows := CategoryRows(names, generateSlug, newId);
    var next := t.(categories := t.categories + rows);
    AppendedCategoriesUnique(t.categories, rows);
    AppendedCategoriesFit(t.categories, rows);
    AppendedCategoriesResolve(t, rows);
    assert Valid(next);
  }

  lemma AppendedCategoriesUnique(cats: seq<Category>, rows: seq<Category>)
    requires Distinct(CategoryIds(cats)) && Distinct(CategorySlugs(cats))
    requires Distinct(CategoryIds(rows)) && Distinct(CategorySlugs(rows))
    requires forall i :: 0 <= i < |rows| ==> rows[i].id !in CategoryIds(cats) && rows[i].slug !in CategorySlugs(cats)
    ensures Distinct(CategoryIds(cats + rows)) && Distinct(CategorySlugs(cats + rows))
  {
    assert CategoryIds(cats + rows) == CategoryIds(cats) + CategoryIds(rows);
    assert CategorySlugs(cats + rows) == CategorySlugs(cats) + CategorySlugs(rows);
    DistinctConcat(CategoryIds(cats), CategoryIds(rows));
    DistinctConcat(CategorySlugs(cats), CategorySlugs(rows));
  }

  lemma AppendedCategoriesFit(cats: seq<Category>, rows: seq<Category>)
    requires forall i :: 0 <= i < |cats| ==> CategoryFits(cats[i])
    requires forall i :: 0 <= i < |rows| ==> CategoryFits(rows[i])
    ensures forall i :: 0 <= i < |cats + rows| ==> CategoryFits((cats + rows)[i])
  {
    forall i | 0 <= i < |cats + rows|
      ensures CategoryFits((cats + rows)[i])
    {
      if i >= |cats| {
        assert (cats + rows)[i] == rows[i - |cats|];
      }
    }
  }

  lemma AppendedCategoriesResolve(t: Tables, rows: seq<Category>)
    requires LinksResolve(t)
    ensures LinksResolve(t.(categories := t.categories + rows))
  {
    var next := t.(categories := t.categories + rows);
    forall i | 0 <= i < |next.links|
      ensures next.links[i].categoryId in CategoryIds(next.categories)
    {
      var k :| 0 <= k < |t.categories| && CategoryIds(t.categories)[k] == next.links[i].categoryId;
      assert CategoryIds(next.categories)[k] == CategoryIds(t.categories)[k];
    }
  }

  method CreateCategories(db: Store, names: seq<string>, generateSlug: string -> string, newId: string -> Uuid)
    returns (r: Result<seq<Category>, DbError>)
    modifies db
    ensures (db.Snapshot(), r) == CreateCategoriesOp(old(db.Snapshot()), names, generateSlug, newId)
  {
    if |names| == 0 {
      return Ok([]);
    }
    var rows := CategoryRows(names, generateSlug, newId);
    var e := db.Run(InsertCategories(db.Snapshot(), rows));
    r := if e.None? then Ok(rows) else Err(e.value);
  }

  /** The categories whose name is in `names`, in table order: `WHERE name IN (…)`. */
  function Matching(cats: seq<Category>, names: seq<string>): (r: seq<Category>)
    ensures forall c :: c in r <==> c in cats && c.name in names
  {
    if cats == [] then []
    else if cats[0].name in names then [cats[0]] + Matching(cats[1..], names)
    else Matching(cats[1..], names)
  }

  function LinksTo(serverId: Uuid, cats: seq<Category>): (r: seq<Link>)
    ensures |r| == |cats| && forall i :: 0 <= i < |cats| ==> r[i] == Link(serverId, cats[i].id)
  {
    seq(|cats|, i requires 0 <= i < |cats| => Link(serverId, cats[i].id))
  }

  function NamesOf(cats: seq<Category>): (r: seq<string>)
    ensures |r| == |cats| && forall i :: 0 <= i < |cats| ==> r[i] == cats[i].name
  {
    seq(|cats|, i requires 0 <= i < |cats| => cats[i].name)
  }

  /**
   * `assignCategoriesToServer`: delete the server's links; for a non-empty
   * list, link the server to every category whose name is listed and return
   * those categories' names.
   */
  function AssignOp(t: Tables, serverId: Uuid, names: seq<string>): (o: (Tables, Result<seq<string>, DbError>))
    ensures !IsUuid(serverId) ==> o == (t, Err(DataError))
    ensures IsUuid(serverId) ==> o.0.servers == t.servers && o.0.categories == t.categories && o.0.submissions == t.submissions
    ensures IsUuid(serverId) ==> forall l: Link :: l.serverId != serverId ==> (l in o.0.links <==> l in t.links)
    ensures IsUuid(serverId) && names == [] ==> o.1 == Ok([])
    ensures o.1.Ok? && names != [] ==> o.1.value == NamesOf(Matching(t.categories, names))
    ensures o.1.Ok? ==> forall n :: n in o.1.value ==> n in names
  {
    match DeleteLinksOf(t, serverId)
    case Err(e) => (t, Err(e))
    case Ok(t1) =>
      if names == [] then (t1, Ok([]))
      else
        var records := Matching(t1.categories, names);
        match InsertLinks(t1, LinksTo(serverId, records))
        case Err(e) => (t1, Err(e))
        case Ok(t2) => (t2, Ok(NamesOf(records)))
  }

  /**
   * After a successful assignment the server is linked to exactly the
   * categories whose name is listed.
   */
  lemma AssignLinksExact(t: Tables, serverId: Uuid, names: seq<string>, categoryId: Uuid)
    requires AssignOp(t, serverId, names).1.Ok?
    ensures Link(serverId, categoryId) in AssignOp(t, serverId, names).0.links
      <==> exists c :: c in t.categories && c.id == categoryId && c.name in names
  {
    var t1 := DeleteLinksOf(t, serverId).value;
    assert Link(serverId, categoryId) !in t1.links;
    if names != [] {
      var records := Matching(t1.categories, names);
      var ls := LinksTo(serverId, records);
      assert AssignOp(t, serverId, names).0.links == t1.links + ls;
      LinksToExact(serverId, records, categoryId);
    }
  }

  /** The links to a list of categories reach exactly the ids in it. */
  lemma LinksToExact(serverId: Uuid, records: seq<Category>, categoryId: Uuid)
    ensures Link(serverId, categoryId) in LinksTo(serverId, records)
      <==> exists c :: c in records && c.id == categoryId
  {
    var ls := LinksTo(serverId, records);
    if Link(serverId, categoryId) in ls {
      var k :| 0 <= k < |ls| && ls[k] == Link(serverId, categoryId);
      assert records[k] in records;
    }
    if c :| c in records && c.id == categoryId {
      var k :| 0 <= k < |records| && records[k] == c;
      assert ls[k] == Link(serverId, categoryId);
    }
  }

  /** A list naming no category fails the insert after the server's links are gone. */
  lemma AssignUnknownNamesFails(t: Tables, serverId: Uuid, names: seq<string>)
    requires IsStoredUuid(serverId) && names != []
    requires forall c :: c in t.categories ==> c.name !in names
    ensures AssignOp(t, serverId, names).1 == Err(EmptyValues)
    ensures forall l :: l in AssignOp(t, serverId, names).0.links ==> l.serverId != serverId
  {
    var t1 := DeleteLinksOf(t, serverId).value;
    MatchingNone(t1.categories, names);
  }

  lemma {:induction false} MatchingNone(cats: seq<Category>, names: seq<string>)
    requires forall c :: c in cats ==> c.name !in names
    ensures Matching(cats, names) == []
    decreases |cats|
  {
    if cats != [] {
      assert forall c :: c in cats[1..] ==> c in cats;
      MatchingNone(cats[1..], names);
    }
  }

  lemma {:induction false} KeepLinksConcat(a: seq<Link>, b: seq<Link>, s: Option<Uuid>, c: Option<Uuid>)
    ensures KeepLinks(a + b, s, c) == KeepLinks(a, s, c) + KeepLinks(b, s, c)
    decreases |a|
  {
    if a != [] {
      assert (a + b)[0] == a[0];
      assert (a + b)[1..] == a[1..] + b;
      KeepLinksConcat(a[1..], b, s, c);
    } else {
      assert a + b == b;
    }
  }

  lemma {:induction false} KeepLinksIdempotent(a: seq<Link>, s: Option<Uuid>, c: Option<Uuid>)
    ensures KeepLinks(KeepLinks(a, s, c), s, c) == KeepLinks(a, s, c)
    decreases |a|
  {
    if a != [] {
      KeepLinksIdempotent(a[1..], s, c);
      var rest := KeepLinks(a[1..], s, c);
      if !(Some(a[0].serverId) == s || Some(a[0].categoryId) == c) {
        assert ([a[0]] + rest)[0] == a[0];
        assert ([a[0]] + rest)[1..] == rest;
      }
    }
  }

  lemma {:induction false} KeepLinksOfServer(ls: seq<Link>, serverId: Uuid)
    requires forall i :: 0 <= i < |ls| ==> ls[i].serverId == serverId
    ensures KeepLinks(ls, Some(serverId), None) == []
    decreases |ls|
  {
    if ls != [] {
      assert forall i :: 0 <= i < |ls[1..]| ==> ls[1..][i] == ls[i + 1];
      KeepLinksOfServer(ls[1..], serverId);
    }
  }

  lemma CategoryIdsTail(cats: seq<Category>)
    requires Distinct(CategoryIds(cats)) && cats != []
    ensures Distinct(CategoryIds(cats[1..]))
    ensures forall r :: r in cats[1..] ==> r.id != cats[0].id
  {
    var ids := CategoryIds(cats);
    DistinctTail(ids);
    assert ids[1..] == CategoryIds(cats[1..]);
    forall r | r in cats[1..]
      ensures r.id != cats[0].id
    {
      var k :| 0 <= k < |cats[1..]| && cats[1..][k] == r;
      assert ids[1..][k] == r.id;
    }
  }

  lemma CategoryIdsCons(x: Category, rows: seq<Category>)
    ensures CategoryIds([x] + rows) == [x.id] + CategoryIds(rows)
  {
  }

  /** The matching categories keep the table's distinct ids. */
  lemma {:induction false} MatchingDistinct(cats: seq<Category>, names: seq<string>)
    requires Distinct(CategoryIds(cats))
    ensures Distinct(CategoryIds(Matching(cats, names)))
    decreases |cats|
  {
    if cats != [] {
      CategoryIdsTail(cats);
      MatchingDistinct(cats[1..], names);
      if cats[0].name in names {
        var rest := Matching(cats[1..], names);
        assert Matching(cats, names) == [cats[0]] + rest;
        CategoryIdsCons(cats[0], rest);
        MatchingFreshId(cats, names);
        DistinctCons(cats[0].id, CategoryIds(rest));
      }
    }
  }

  lemma MatchingFreshId(cats: seq<Category>, names: seq<string>)
    requires Distinct(CategoryIds(cats)) && cats != []
    ensures cats[0].id !in CategoryIds(Matching(cats[1..], names))
  {
    var rest := Matching(cats[1..], names);
    CategoryIdsTail(cats);
    forall i | 0 <= i < |rest|
      ensures CategoryIds(rest)[i] != cats[0].id
    {
      assert rest[i] in rest;
      assert rest[i] in cats[1..];
    }
  }

  /** Links from one server to categories with distinct ids are distinct. */
  lemma LinksToDistinct(serverId: Uuid, cats: seq<Category>)
    requires Distinct(CategoryIds(cats))
    ensures Distinct(LinksTo(serverId, cats))
  {
    var ls := LinksTo(serverId, cats);
    forall i, j | 0 <= i < j < |ls|
      ensures ls[i] != ls[j]
    {
      assert CategoryIds(cats)[i] != CategoryIds(cats)[j];
    }
  }

  /** New links from an existing server to existing categories fit and resolve. */
  lemma NewLinksResolve(t: Tables, serverId: Uuid, records: seq<Category>)
    requires Valid(t) && serverId in ServerIds(t.servers)
    requires forall r :: r in records ==> r in t.categories
    ensures var ls := LinksTo(serverId, records);
      forall i :: 0 <= i < |ls| ==>
        LinkFits(ls[i]) && ls[i].serverId in ServerIds(t.servers) && ls[i].categoryId in CategoryIds(t.categories)
  {
    var k :| 0 <= k < |t.servers| && t.servers[k].id == serverId;
    assert ServerFits(t.servers[k]);
    var ls := LinksTo(serverId, records);
    forall i | 0 <= i < |ls|
      ensures LinkFits(ls[i]) && ls[i].categoryId in CategoryIds(t.categories)
    {
      var r := records[i];
      assert r in records;
      var j :| 0 <= j < |t.categories| && t.categories[j] == r;
      assert CategoryFits(t.categories[j]);
      assert CategoryIds(t.categories)[j] == r.id;
    }
  }

  /** Appending links that fit, resolve and are new keeps valid tables valid. */
  lemma AppendLinksValid(t: Tables, ls: seq<Link>)
    requires Valid(t) && Distinct(ls) && forall l :: l in t.links ==> l !in ls
    requires forall i :: 0 <= i < |ls| ==>
      LinkFits(ls[i]) && ls[i].serverId in ServerIds(t.servers) && ls[i].categoryId in CategoryIds(t.categories)
    ensures Valid(t.(links := t.links + ls))
  {
    DistinctConcat(t.links, ls);
    var next := t.(links := t.links + ls);
    forall i | 0 <= i < |next.links|
      ensures LinkFits(next.links[i])
      ensures next.links[i].serverId in ServerIds(next.servers) && next.links[i].categoryId in CategoryIds(next.categories)
    {
      if i < |t.links| {
        assert next.links[i] == t.links[i];
      } else {
        assert next.links[i] == ls[i - |t.links|];
      }
    }
  }

  /**
   * On valid tables, assigning an existing server a list that names at
   * least one category succeeds.
   */
  lemma AssignSucceeds(t: Tables, serverId: Uuid, names: seq<string>)
    requires Valid(t) && serverId in ServerIds(t.servers)
    requires exists c :: c in t.categories && c.name in names
    ensures AssignOp(t, serverId, names).1.Ok?
    ensures AssignOp(t, serverId, names).1.value != []
  {
    var k :| 0 <= k < |t.servers| && t.servers[k].id == serverId;
    assert ServerFits(t.servers[k]);
    var t1 := DeleteLinksOf(t, serverId).value;
    var records := Matching(t1.categories, names);
    var ls := LinksTo(serverId, records);
    var c :| c in t.categories && c.name in names;
    assert c in records;
    assert names != [];
    MatchingDistinct(t1.categories, names);
    LinksToDistinct(serverId, records);
    NewLinksResolve(t1, serverId, records);
    AppendLinksValid(t1, ls);
  }

  /** Clear-then-insert makes assignment idempotent: running it again changes nothing. */
  lemma AssignIdempotent(t: Tables, serverId: Uuid, names: seq<string>)
    requires AssignOp(t, serverId, names).1.Ok?
    ensures AssignOp(AssignOp(t, serverId, names).0, serverId, names) == AssignOp(t, serverId, names)
  {
    var t1 := DeleteLinksOf(t, serverId).value;
    var o := AssignOp(t, serverId, names);
    KeepLinksIdempotent(t.links, Some(serverId), None);
    if names == [] {
      assert DeleteLinksOf(o.0, serverId).value == t1;
    } else {
      var ls := LinksTo(serverId, Matching(t1.categories, names));
      assert o.0.links == t1.links + ls;
      KeepLinksConcat(t1.links, ls, Some(serverId), None);
      KeepLinksOfServer(ls, serverId);
      assert DeleteLinksOf(o.0, serverId).value == t1;
    }
  }

  method AssignCategoriesToServer(db: Store, serverId: Uuid, names: seq<string>)
    returns (r: Result<seq<string>, DbError>)
    modifies db
    ensures (db.Snapshot(), r) == AssignOp(old(db.Snapshot()), serverId, names)
  {
    var e := db.Run(DeleteLinksOf(db.Snapshot(), serverId));
    if e.Some? {
      return Err(e.value);
    }
    if |names| == 0 {
      return Ok([]);
    }
    var records := Matching(db.categories, names);
    e := db.Run(InsertLinks(db.Snapshot(), LinksTo(serverId, records)));
    r := if e.None? then Ok(NamesOf(records)) else Err(e.value);
  }
}
