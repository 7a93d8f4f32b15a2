/**
 * The admin server actions: create, update and delete a server, and
 * invalidate a cache tag. Each runs the admin procedure first, then checks
 * its input against the action's schema, then runs its statement; every
 * successful mutation invalidates the "servers" tag.
 */
module AdminActions {
  import opened Wrappers
  import opened Schema
  import opened Database
  import opened SafeAction
  import opened Cache

  const SERVER_NOT_FOUND: string := "Server not found"

  /** The fields of the create and update forms; `None` is an absent key. */
  datatype ServerInput = ServerInput(
    name: string,
    slug: string,
    shortDesc: string,
    longDesc: Option<string>,
    homepageUrl: Option<string>,
    repoUrl: Option<string>,
    docsUrl: Option<string>,
    logoUrl: Option<string>,
    stars: Option<int>,
    license: Option<string>)

  /** An optional URL field: absent, empty, or a URL by `isUrl`. */
  predicate UrlField(u: Option<string>, isUrl: string -> bool) {
    u.None? || u.value == "" || isUrl(u.value)
  }

  /** `createServerSchema`. */
  predicate CreateAccepts(i: ServerInput, isUrl: string -> bool) {
    && |i.name| >= 1
    && |i.slug| >= 1
    && 1 <= |i.shortDesc| <= 160
    && UrlField(i.homepageUrl, isUrl)
    && UrlField(i.repoUrl, isUrl)
    && UrlField(i.docsUrl, isUrl)
    && UrlField(i.logoUrl, isUrl)
    && (i.stars.None? || i.stars.value >= 0)
  }

  /** `updateServerSchema`: the create schema plus a uuid id. */
  predicate UpdateAccepts(id: string, i: ServerInput, isUrl: string -> bool) {
    IsUuid(id) && CreateAccepts(i, isUrl)
  }

  /** The message a failing statement throws with, as the driver words it. */
  function DbMessage(e: DbError): string {
    match e
    case DataError => "invalid input value"
    case UniqueViolation => "duplicate key value violates unique constraint"
    case ForeignKeyViolation => "insert or update violates foreign key constraint"
    case EmptyValues => "values() must be called with at least one value"
  }

  /** The row `insert(servers).values(input)` adds: the columns' defaults fill the rest. */
  function InsertedRow(i: ServerInput, id: Uuid, now: Timestamp): Server {
    Server(id, i.name, i.slug, i.shortDesc, i.longDesc, i.homepageUrl, i.repoUrl, i.docsUrl, i.logoUrl,
           Some(i.stars.GetOr(DEFAULT_STARS)), None, i.license, None, now, now)
  }

  function Keep<T>(given: Option<T>, current: Option<T>): Option<T> {
    if given.Some? then given else current
  }

  /** `set({...data, updatedAt})`: absent keys leave their column as it is. */
  function Patch(i: ServerInput, now: Timestamp): Server -> Server {
    (s: Server) => s.(name := i.name, slug := i.slug, shortDesc := i.shortDesc,
            longDesc := Keep(i.longDesc, s.longDesc),
            homepageUrl := Keep(i.homepageUrl, s.homepageUrl),
            repoUrl := Keep(i.repoUrl, s.repoUrl),
            docsUrl := Keep(i.docsUrl, s.docsUrl),
            logoUrl := Keep(i.logoUrl, s.logoUrl),
            stars := Keep(i.stars, s.stars),
            license := Keep(i.license, s.license),
            updatedAt := now)
  }

  /** The refusal of the admin procedure, or of the schema, before any statement. */
  function Gate<T>(session: Option<Session>, accepted: bool): (r: Option<ActionOutcome<T>>)
    ensures r.None? <==> AdminProcedure(session).Ok? && accepted
  {
    match AdminProcedure(session)
    case Err(message) => Some(Thrown(message))
    case Ok(_) => if accepted then None else Some(InvalidInput)
  }

  /** `createServerAction`. */
  function CreateServerActionOp(t: Tables, log: seq<string>, session: Option<Session>, input: ServerInput,
                                isUrl: string -> bool, id: Uuid, now: Timestamp)
    : (o: (Tables, seq<string>, ActionOutcome<Server>))
    ensures AdminProcedure(session).Err? ==> o == (t, log, Thrown(AdminProcedure(session).error))
    ensures AdminProcedure(session).Ok? && !CreateAccepts(input, isUrl) ==> o == (t, log, InvalidInput)
    ensures !o.2.Returned? ==> o.0 == t && o.1 == log
    ensures o.2.Returned? ==>
      && o.2.value == InsertedRow(input, id, now)
      && o.0 == t.(servers := t.servers + [o.2.value])
      && o.1 == log + [SERVERS_TAG]
    ensures Valid(t) && AdminProcedure(session).Ok? && CreateAccepts(input, isUrl) ==>
      (o.2.Returned? <==> ServerFits(InsertedRow(input, id, now)) && id !in ServerIds(t.servers)
                          && input.slug !in ServerSlugs(t.servers))
    ensures Valid(t) ==> Valid(o.0)
  {
    match Gate(session, CreateAccepts(input, isUrl))
    case Some(refusal) => (t, log, refusal)
    case None =>
      var row := InsertedRow(input, id, now);
      match InsertServer(t, row)
      case Err(e) => (t, log, Thrown(DbMessage(e)))
      case Ok(next) => (next, log + [SERVERS_TAG], Returned(row))
  }

  /** `updateServerAction`. */
  function UpdateServerActionOp(t: Tables, log: seq<string>, session: Option<Session>, id: string,
                                input: ServerInput, isUrl: string -> bool, now: Timestamp)
    : (o: (Tables, seq<string>, ActionOutcome<Server>))
    ensures AdminProcedure(session).Err? ==> o == (t, log, Thrown(AdminProcedure(session).error))
    ensures AdminProcedure(session).Ok? && !UpdateAccepts(id, input, isUrl) ==> o == (t, log, InvalidInput)
    ensures !o.2.Returned? ==> o.0 == t && o.1 == log
    ensures o.2.Returned? ==>
      && o.0 == t.(servers := MapWhere(t.servers, UuidValue(id), Patch(input, now)))
      && o.1 == log + [SERVERS_TAG]
      && (exists old_ :: old_ in t.servers && old_.id == UuidValue(id) && o.2.value == Patch(input, now)(old_))
    // a missing id is reported and changes nothing
    ensures Valid(t) && AdminProcedure(session).Ok? && UpdateAccepts(id, input, isUrl) && UuidValue(id) !in ServerIds(t.servers) ==>
      o == (t, log, Thrown(SERVER_NOT_FOUND))
    // an accepted update of a present id, in any spelling, succeeds whenever the patched tables stay valid
    ensures AdminProcedure(session).Ok? && UpdateAccepts(id, input, isUrl) && UuidValue(id) in ServerIds(t.servers) &&
            Valid(t.(servers := MapWhere(t.servers, UuidValue(id), Patch(input, now)))) ==>
      o.2.Returned?
    ensures Valid(t) ==> Valid(o.0)
  {
    match Gate(session, UpdateAccepts(id, input, isUrl))
    case Some(refusal) => (t, log, refusal)
    case None =>
      MissingIdUpdate(t, id, Patch(input, now));
      PresentIdMatches(t.servers, UuidValue(id));
      match UpdateServer(t, id, Patch(input, now))
      case Err(e) => (t, log, Thrown(DbMessage(e)))
      case Ok((next, updated)) =>
        if updated == [] then
          NoMatchNoChange(t.servers, UuidValue(id), Patch(input, now));
          (t, log, Thrown(SERVER_NOT_FOUND))
        else
          assert updated[0] in updated;
          (next, log + [SERVERS_TAG], Returned(Patch(input, now)(updated[0])))
  }

  /** Updating a valid table at a uuid it does not hold succeeds, changes nothing and returns no row. */
  lemma MissingIdUpdate(t: Tables, id: string, f: Server -> Server)
    ensures Valid(t) && IsUuid(id) && UuidValue(id) !in ServerIds(t.servers) ==> UpdateServer(t, id, f) == Ok((t, []))
  {
    var key := UuidValue(id);
    if Valid(t) && IsUuid(id) && key !in ServerIds(t.servers) {
      assert forall i :: 0 <= i < |t.servers| ==> t.servers[i].id != key by {
        forall i | 0 <= i < |t.servers|
          ensures t.servers[i].id != key
        {
          assert ServerIds(t.servers)[i] == t.servers[i].id;
        }
      }
      assert WithId(t.servers, key) == [];
      NoMatchNoChange(t.servers, key, f);
      assert t.(servers := t.servers) == t;
    }
  }

  /** A table holding `id` has a row with that id. */
  lemma PresentIdMatches(rows: seq<Server>, id: Uuid)
    ensures id in ServerIds(rows) ==> WithId(rows, id) != []
  {
    if id in ServerIds(rows) {
      var i :| 0 <= i < |rows| && ServerIds(rows)[i] == id;
      assert rows[i].id == id;
    }
  }

  lemma NoMatchNoChange(rows: seq<Server>, id: Uuid, f: Server -> Server)
    requires WithId(rows, id) == []
    ensures MapWhere(rows, id, f) == rows
  {
  }

  /** `deleteServerAction`: `true` is `{ success: true }`. */
  function DeleteServerActionOp(t: Tables, log: seq<string>, session: Option<Session>, id: string)
    : (o: (Tables, seq<string>, ActionOutcome<bool>))
    ensures AdminProcedure(session).Err? ==> o == (t, log, Thrown(AdminProcedure(session).error))
    ensures AdminProcedure(session).Ok? && !IsUuid(id) ==> o == (t, log, InvalidInput)
    ensures !o.2.Returned? ==> o.0 == t && o.1 == log
    ensures o.2.Returned? ==>
      && o.2.value
      && o.0 == t.(servers := WithoutId(t.servers, UuidValue(id)), links := KeepLinks(t.links, Some(UuidValue(id)), None))
      && o.1 == log + [SERVERS_TAG]
    // the row goes whichever case the id's letters are spelled in
    ensures AdminProcedure(session).Ok? && IsUuid(id) && Valid(t) ==>
      (o.2.Returned? <==> UuidValue(id) in ServerIds(t.servers))
      && (!o.2.Returned? ==> o.2 == Thrown(SERVER_NOT_FOUND))
    ensures Valid(t) ==> Valid(o.0)
  {
    match Gate(session, IsUuid(id))
    case Some(refusal) => (t, log, refusal)
    case None =>
      var key := UuidValue(id);
      var (next, deleted) := DeleteServer(t, id).value;
      if deleted == [] then
        assert forall k :: 0 <= k < |t.servers| ==> ServerIds(t.servers)[k] != key;
        (t, log, Thrown(SERVER_NOT_FOUND))
      else
        assert key in ServerIds(t.servers) by {
          var x := deleted[0];
          assert x in deleted;
          var k :| 0 <= k < |t.servers| && t.servers[k] == x;
          assert ServerIds(t.servers)[k] == key;
        }
        (next, log + [SERVERS_TAG], Returned(true))
  }

  /** `revalidateCacheAction`: exactly the given tag is invalidated. */
  function RevalidateCacheActionOp(log: seq<string>, session: Option<Session>, tag: string)
    : (o: (seq<string>, ActionOutcome<bool>))
    ensures AdminProcedure(session).Err? ==> o == (log, Thrown(AdminProcedure(session).error))
    ensures AdminProcedure(session).Ok? ==> o == (log + [tag], Returned(true))
  {
    match AdminProcedure(session)
    case Err(message) => (log, Thrown(message))
    case Ok(_) => (log + [tag], Returned(true))
  }

  // ---------------------------------------------------------------------
  // Properties

  lemma WithoutFreshId(rows: seq<Server>, row: Server)
    requires row.id !in ServerIds(rows)
    ensures WithoutId(rows + [row], row.id) == rows
  {
    WithoutIdSnoc(rows, row);
    forall x | x in rows
      ensures x.id != row.id
    {
      var k :| 0 <= k < |rows| && rows[k] == x;
      assert ServerIds(rows)[k] == x.id;
    }
    WithoutIdKeepsAll(rows, row.id);
  }

  lemma {:induction false} WithoutIdSnoc(rows: seq<Server>, row: Server)
    ensures WithoutId(rows + [row], row.id) == WithoutId(rows, row.id)
    decreases |rows|
  {
    if rows == [] {
      assert [] + [row] == [row];
      assert [row][1..] == [];
    } else {
      assert (rows + [row])[0] == rows[0];
      assert (rows + [row])[1..] == rows[1..] + [row];
      WithoutIdSnoc(rows[1..], row);
    }
  }

  lemma {:induction false} WithoutIdKeepsAll(rows: seq<Server>, id: Uuid)
    requires forall x :: x in rows ==> x.id != id
    ensures WithoutId(rows, id) == rows
    decreases |rows|
  {
    if rows != [] {
      assert rows[0] in rows;
      assert forall x :: x in rows[1..] ==> x in rows;
      WithoutIdKeepsAll(rows[1..], id);
      assert rows == [rows[0]] + rows[1..];
    }
  }

  lemma {:induction false} KeepLinksOfUnlinked(links: seq<Link>, id: Uuid)
    requires forall i :: 0 <= i < |links| ==> links[i].serverId != id
    ensures KeepLinks(links, Some(id), None) == links
    decreases |links|
  {
    if links != [] {
      KeepLinksOfUnlinked(links[1..], id);
      assert links == [links[0]] + links[1..];
    }
  }

  /**
   * Deleting a server just created restores the tables; the "servers" tag
   * is invalidated by each action.
   */
  lemma CreateThenDeleteRestores(t: Tables, log: seq<string>, session: Option<Session>, input: ServerInput,
                                 isUrl: string -> bool, id: Uuid, now: Timestamp)
    requires Valid(t)
    requires CreateServerActionOp(t, log, session, input, isUrl, id, now).2.Returned?
    ensures var (t1, log1, _) := CreateServerActionOp(t, log, session, input, isUrl, id, now);
            DeleteServerActionOp(t1, log1, session, id) == (t, log + [SERVERS_TAG, SERVERS_TAG], Returned(true))
  {
    var o := CreateServerActionOp(t, log, session, input, isUrl, id, now);
    var row := InsertedRow(input, id, now);
    assert o.0 == t.(servers := t.servers + [row]) && o.1 == log + [SERVERS_TAG];
    assert ServerFits(row) && id !in ServerIds(t.servers);
    assert UuidValue(id) == id;
    var t1 := o.0;
    assert t1.servers[|t.servers|] == row;
    assert WithId(t1.servers, id) != [];
    WithoutFreshId(t.servers, row);
    forall i | 0 <= i < |t.links|
      ensures t.links[i].serverId != id
    {
      assert t.links[i].serverId in ServerIds(t.servers);
    }
    KeepLinksOfUnlinked(t.links, id);
    assert log + [SERVERS_TAG] + [SERVERS_TAG] == log + [SERVERS_TAG, SERVERS_TAG];
  }

  /**
   * Deleting by any spelling of a stored id removes that row: the uuid
   * column compares values, not text.
   */
  lemma DeleteByAnySpelling(t: Tables, log: seq<string>, session: Option<Session>, id: string, k: nat)
    requires Valid(t) && AdminProcedure(session).Ok?
    requires k < |t.servers|
    requires IsUuid(id) && |id| == |t.servers[k].id|
    requires forall i :: 0 <= i < |id| ==> LowerHex(id[i]) == LowerHex(t.servers[k].id[i])
    ensures var (t1, _, r) := DeleteServerActionOp(t, log, session, id);
            r == Returned(true) && t1.servers == WithoutId(t.servers, t.servers[k].id)
  {
    var stored := t.servers[k].id;
    assert ServerFits(t.servers[k]);
    SpellingsOfOneUuid(id, stored);
    assert UuidValue(id) == stored;
    assert ServerIds(t.servers)[k] == stored;
  }

  /** A second delete of the same id finds nothing. */
  lemma DeleteTwiceNotFound(t: Tables, log: seq<string>, session: Option<Session>, id: string)
    requires Valid(t)
    requires DeleteServerActionOp(t, log, session, id).2.Returned?
    ensures var (t1, log1, _) := DeleteServerActionOp(t, log, session, id);
            DeleteServerActionOp(t1, log1, session, id) == (t1, log1, Thrown(SERVER_NOT_FOUND))
  {
    var (t1, log1, _) := DeleteServerActionOp(t, log, session, id);
    var key := UuidValue(id);
    forall k | 0 <= k < |t1.servers|
      ensures ServerIds(t1.servers)[k] != key
    {
      assert t1.servers[k] in WithoutId(t.servers, key);
    }
  }

  /**
   * A successful update rewrites the row with that id and no other: every
   * row keeps its id and creation time, and the rest are untouched.
   */
  lemma UpdateOnlyThatRow(t: Tables, log: seq<string>, session: Option<Session>, id: string,
                          input: ServerInput, isUrl: string -> bool, now: Timestamp, k: nat)
    requires k < |t.servers|
    requires UpdateServerActionOp(t, log, session, id, input, isUrl, now).2.Returned?
    ensures var t1 := UpdateServerActionOp(t, log, session, id, input, isUrl, now).0;
            && |t1.servers| == |t.servers|
            && t1.servers[k].id == t.servers[k].id
            && t1.servers[k].createdAt == t.servers[k].createdAt
            && (t.servers[k].id != UuidValue(id) ==> t1.servers[k] == t.servers[k])
            && (t.servers[k].id == UuidValue(id) ==> t1.servers[k].name == input.name && t1.servers[k].updatedAt == now)
            && (t.servers[k].id == UuidValue(id) && input.stars.None? ==> t1.servers[k].stars == t.servers[k].stars)
            && t1.links == t.links && t1.categories == t.categories && t1.submissions == t.submissions
  {
  }

  /** Patching twice with the same input is patching once. */
  lemma PatchIdempotent(input: ServerInput, now: Timestamp, s: Server)
    ensures Patch(input, now)(Patch(input, now)(s)) == Patch(input, now)(s)
  {
  }

  /** Repeating a successful update leaves the tables as the first one left them. */
  lemma UpdateTwiceSameTables(t: Tables, log: seq<string>, session: Option<Session>, id: string,
                              input: ServerInput, isUrl: string -> bool, now: Timestamp)
    requires Valid(t)
    requires UpdateServerActionOp(t, log, session, id, input, isUrl, now).2.Returned?
    ensures var (t1, log1, _) := UpdateServerActionOp(t, log, session, id, input, isUrl, now);
            var (t2, log2, r2) := UpdateServerActionOp(t1, log1, session, id, input, isUrl, now);
            t2 == t1 && r2.Returned? && log2 == log1 + [SERVERS_TAG]
  {
    var (t1, log1, _) := UpdateServerActionOp(t, log, session, id, input, isUrl, now);
    var k := UpdateReturnedRow(t, log, session, id, input, isUrl, now);
    UpdateAgainReturns(t1, log1, session, id, input, isUrl, now, k);
  }

  /** A returned update was accepted, and its rows hold the id and are fixed by the patch. */
  lemma UpdateReturnedRow(t: Tables, log: seq<string>, session: Option<Session>, id: string,
                          input: ServerInput, isUrl: string -> bool, now: Timestamp) returns (k: nat)
    requires UpdateServerActionOp(t, log, session, id, input, isUrl, now).2.Returned?
    ensures var t1 := UpdateServerActionOp(t, log, session, id, input, isUrl, now).0;
            && Gate<Server>(session, UpdateAccepts(id, input, isUrl)).None?
            && MapWhere(t1.servers, UuidValue(id), Patch(input, now)) == t1.servers
            && k < |t1.servers| && t1.servers[k].id == UuidValue(id)
  {
    var (t1, log1, r1) := UpdateServerActionOp(t, log, session, id, input, isUrl, now);
    var f := Patch(input, now);
    var key := UuidValue(id);
    PatchTwiceSameRows(t.servers, key, input, now);
    var old_ :| old_ in t.servers && old_.id == key && r1.value == f(old_);
    var i :| 0 <= i < |t.servers| && t.servers[i] == old_;
    k := i;
    assert t1.servers[k].id == key;
  }

  /** Patching the rows a second time changes none of them. */
  lemma PatchTwiceSameRows(rows: seq<Server>, id: Uuid, input: ServerInput, now: Timestamp)
    ensures var f := Patch(input, now); MapWhere(MapWhere(rows, id, f), id, f) == MapWhere(rows, id, f)
  {
    var f := Patch(input, now);
    var once := MapWhere(rows, id, f);
    forall k | 0 <= k < |once|
      ensures MapWhere(once, id, f)[k] == once[k]
    {
      PatchIdempotent(input, now, rows[k]);
    }
  }

  /** An accepted update of tables whose rows its patch leaves as they are returns them unchanged. */
  lemma UpdateAgainReturns(t1: Tables, log1: seq<string>, session: Option<Session>, id: string,
                           input: ServerInput, isUrl: string -> bool, now: Timestamp, k: nat)
    requires Valid(t1) && Gate<Server>(session, UpdateAccepts(id, input, isUrl)).None?
    requires MapWhere(t1.servers, UuidValue(id), Patch(input, now)) == t1.servers
    requires k < |t1.servers| && t1.servers[k].id == UuidValue(id)
    ensures var (t2, log2, r2) := UpdateServerActionOp(t1, log1, session, id, input, isUrl, now);
            t2 == t1 && r2.Returned? && log2 == log1 + [SERVERS_TAG]
  {
    assert WithId(t1.servers, UuidValue(id)) != [];
    assert t1.(servers := t1.servers) == t1;
  }

  // ---------------------------------------------------------------------
  // The actions against the store and the tag log

  method CreateServerAction(db: Store, log: TagLog, session: Option<Session>, input: ServerInput,
                            isUrl: string -> bool, id: Uuid, now: Timestamp)
    returns (r: ActionOutcome<Server>)
    modifies db, log
    ensures (db.Snapshot(), log.tags, r) == CreateServerActionOp(old(db.Snapshot()), old(log.tags), session, input, isUrl, id, now)
  {
    var refusal := Gate(session, CreateAccepts(input, isUrl));
    if refusal.Some? {
      return refusal.value;
    }
    var row := InsertedRow(input, id, now);
    var e := db.Run(InsertServer(db.Snapshot(), row));
    if e.Some? {
      return Thrown(DbMessage(e.value));
    }
    var _ := log.Invalidate(SERVERS_TAG, _ => false);
    r := Returned(row);
  }

  method UpdateServerAction(db: Store, log: TagLog, session: Option<Session>, id: string,
                            input: ServerInput, isUrl: string -> bool, now: Timestamp)
    returns (r: ActionOutcome<Server>)
    modifies db, log
    ensures (db.Snapshot(), log.tags, r) == UpdateServerActionOp(old(db.Snapshot()), old(log.tags), session, id, input, isUrl, now)
  {
    var refusal := Gate(session, UpdateAccepts(id, input, isUrl));
    if refusal.Some? {
      return refusal.value;
    }
    var outcome := UpdateServer(db.Snapshot(), id, Patch(input, now));
    if outcome.Err? {
      return Thrown(DbMessage(outcome.error));
    }
    var (next, updated) := outcome.value;
    if updated == [] {
      return Thrown(SERVER_NOT_FOUND);
    }
    db.Put(next);
    var _ := log.Invalidate(SERVERS_TAG, _ => false);
    r := Returned(Patch(input, now)(updated[0]));
  }

  method DeleteServerAction(db: Store, log: TagLog, session: Option<Session>, id: string)
    returns (r: ActionOutcome<bool>)
    modifies db, log
    ensures (db.Snapshot(), log.tags, r) == DeleteServerActionOp(old(db.Snapshot()), old(log.tags), session, id)
  {
    var refusal := Gate(session, IsUuid(id));
    if refusal.Some? {
      return refusal.value;
    }
    var (next, deleted) := DeleteServer(db.Snapshot(), id).value;
    if deleted == [] {
      return Thrown(SERVER_NOT_FOUND);
    }
    db.Put(next);
    var _ := log.Invalidate(SERVERS_TAG, _ => false);
    r := Returned(true);
  }

  method RevalidateCacheAction(log: TagLog, session: Option<Session>, tag: string)
    returns (r: ActionOutcome<bool>)
    modifies log
    ensures (log.tags, r) == RevalidateCacheActionOp(old(log.tags), session, tag)
  {
    var auth := AdminProcedure(session);
    if auth.Err? {
      return Thrown(auth.error);
    }
    var _ := log.Invalidate(tag, _ => false);
    r := Returned(true);
  }
}
