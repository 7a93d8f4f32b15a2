/**
 * The admin page's client state: the list of servers shown and the id of
 * the server being deleted, updated by the callbacks of the admin actions.
 * Alerts and navigation are presentation and are not modelled.
 */
module AdminClient {
  import opened Wrappers
  import opened Schema
  import opened SafeAction
  import opened AdminActions

  /** The list after a successful create: the returned server at the end. */
  function AfterCreate(list: seq<Server>, data: Server): (r: seq<Server>)
    ensures |r| == |list| + 1 && r[..|list|] == list && r[|list|] == data
  {
    list + [data]
  }

  /** The list after a successful update: every element with the returned id is replaced. */
  function AfterUpdate(list: seq<Server>, data: Server): (r: seq<Server>)
    ensures |r| == |list|
    ensures forall k :: 0 <= k < |list| ==> r[k] == if list[k].id == data.id then data else list[k]
  {
    MapWhere(list, data.id, _ => data)
  }

  /**
   * The list and pending id after a successful delete, where `seen` is the
   * pending id the success callback reads: with a (non-empty) `seen` its
   * server goes and the pending id is cleared; otherwise the list and the
   * current pending id `pending` stay as they are.
   */
  function AfterDelete(list: seq<Server>, pending: Option<string>, seen: Option<string>)
    : (r: (seq<Server>, Option<string>))
    ensures seen.Some? && seen.value != "" ==>
      r.1.None? && forall x :: x in r.0 <==> x in list && x.id != seen.value
    ensures seen.None? || seen.value == "" ==> r == (list, pending)
  {
    if seen.Some? && seen.value != "" then (WithoutId(list, seen.value), None)
    else (list, pending)
  }

  class AdminClientState {
    var servers: seq<Server>
    var deletingId: Option<string>
    var isCreatePending: bool
    var isUpdatePending: bool
    var isDeletePending: bool

    constructor (initialServers: seq<Server>)
      ensures servers == initialServers && deletingId.None?
      ensures !isCreatePending && !isUpdatePending && !isDeletePending
    {
      servers := initialServers;
      deletingId := None;
      isCreatePending, isUpdatePending, isDeletePending := false, false, false;
    }

    /** The table is busy while a create, an update or a delete is pending. */
    function IsLoading(): (b: bool)
      reads this
      ensures b <==> isCreatePending || isUpdatePending || isDeletePending
    {
      isCreatePending || isUpdatePending || isDeletePending
    }

    /** The create callbacks: a returned server is appended; an error changes nothing. */
    method OnCreateSettled(outcome: ActionOutcome<Server>)
      modifies this
      ensures outcome.Returned? ==> servers == AfterCreate(old(servers), outcome.value)
      ensures !outcome.Returned? ==> servers == old(servers)
      ensures deletingId == old(deletingId)
    {
      if outcome.Returned? {
        servers := servers + [outcome.value];
      }
    }

    /** The update callbacks: the returned server replaces the one with its id. */
    method OnUpdateSettled(outcome: ActionOutcome<Server>)
      modifies this
      ensures outcome.Returned? ==> servers == AfterUpdate(old(servers), outcome.value)
      ensures !outcome.Returned? ==> servers == old(servers)
      ensures deletingId == old(deletingId)
    {
      if outcome.Returned? {
        var data := outcome.value;
        var next := [];
        for k := 0 to |servers|
          invariant |next| == k
          invariant forall j :: 0 <= j < k ==> next[j] == if servers[j].id == data.id then data else servers[j]
        {
          next := next + [if servers[k].id == data.id then data else servers[k]];
        }
        servers := next;
      }
    }

    /**
     * The delete callbacks. They read the pending id through the closure
     * they were made in, so `seen` is the `deletingId` of the render whose
     * callbacks run, which need not be the current one. Success drops the
     * server `seen` names; failure only clears the pending id.
     */
    method OnDeleteSettled(outcome: ActionOutcome<bool>, seen: Option<string>)
      modifies this
      ensures outcome.Returned? ==> (servers, deletingId) == AfterDelete(old(servers), old(deletingId), seen)
      ensures !outcome.Returned? ==> servers == old(servers) && deletingId.None?
    {
      if outcome.Returned? {
        if seen.Some? && seen.value != "" {
          servers := WithoutId(servers, seen.value);
          deletingId := None;
        }
      } else {
        deletingId := None;
      }
    }

    /**
     * `handleDeleteServer`: the pending id is recorded before the delete is
     * sent. `seen` is the pending id the callbacks that run will read:
     * `Some(id)` if the action hook calls the callbacks of the render after
     * the pending id was set, the earlier pending id if it calls those of
     * the render that sent the delete.
     */
    method HandleDeleteServer(id: string, seen: Option<string>, outcome: ActionOutcome<bool>)
      modifies this
      ensures outcome.Returned? ==> (servers, deletingId) == AfterDelete(old(servers), Some(id), seen)
      ensures outcome.Returned? && seen == Some(id) && id != "" ==>
        servers == WithoutId(old(servers), id) && deletingId.None?
      // a callback made before the click, with nothing pending, leaves the row listed
      ensures outcome.Returned? && seen.None? ==> servers == old(servers) && deletingId == Some(id)
      ensures !outcome.Returned? ==> servers == old(servers) && deletingId.None?
    {
      deletingId := Some(id);
      OnDeleteSettled(outcome, seen);
    }
  }

  // ---------------------------------------------------------------------
  // The client list follows the store

  /** A successful create leaves the client list equal to the stored servers. */
  lemma CreateKeepsMirror(t: Tables, log: seq<string>, session: Option<Session>, input: ServerInput,
                          isUrl: string -> bool, id: Uuid, now: Timestamp)
    requires CreateServerActionOp(t, log, session, input, isUrl, id, now).2.Returned?
    ensures var (t1, _, r) := CreateServerActionOp(t, log, session, input, isUrl, id, now);
            AfterCreate(t.servers, r.value) == t1.servers
  {
  }

  /** With unique ids, replacing the one row `f` patches by its patched value is the same as patching. */
  lemma ReplaceUniqueRow(rows: seq<Server>, f: Server -> Server, before: Server)
    requires Distinct(ServerIds(rows))
    requires before in rows && f(before).id == before.id
    ensures AfterUpdate(rows, f(before)) == MapWhere(rows, before.id, f)
  {
    var m :| 0 <= m < |rows| && rows[m] == before;
    forall k | 0 <= k < |rows|
      ensures AfterUpdate(rows, f(before))[k] == MapWhere(rows, before.id, f)[k]
    {
      if rows[k].id == before.id {
        assert ServerIds(rows)[k] == ServerIds(rows)[m];
      }
    }
  }

  /** A successful update leaves the client list equal to the stored servers, ids being unique. */
  lemma UpdateKeepsMirror(t: Tables, log: seq<string>, session: Option<Session>, id: string,
                          input: ServerInput, isUrl: string -> bool, now: Timestamp)
    requires Valid(t)
    requires UpdateServerActionOp(t, log, session, id, input, isUrl, now).2.Returned?
    ensures var (t1, _, r) := UpdateServerActionOp(t, log, session, id, input, isUrl, now);
            AfterUpdate(t.servers, r.value) == t1.servers
  {
    var o := UpdateServerActionOp(t, log, session, id, input, isUrl, now);
    var f := Patch(input, now);
    var before :| before in t.servers && before.id == UuidValue(id) && o.2.value == f(before);
    assert Distinct(ServerIds(t.servers));
    ReplaceUniqueRow(t.servers, f, before);
  }

  /** A successful delete of the pending id leaves the client list equal to the stored servers. */
  lemma DeleteKeepsMirror(t: Tables, log: seq<string>, session: Option<Session>, id: string)
    requires IsStoredUuid(id)
    requires DeleteServerActionOp(t, log, session, id).2.Returned?
    ensures AfterDelete(t.servers, Some(id), Some(id)) == (DeleteServerActionOp(t, log, session, id).0.servers, None)
  {
  }

  /**
   * If the success callback that runs was made before the click, when
   * nothing was pending, the client list keeps the row the store deleted.
   */
  lemma StaleCallbackKeepsDeletedRow(t: Tables, log: seq<string>, session: Option<Session>, id: string)
    requires Valid(t)
    requires DeleteServerActionOp(t, log, session, id).2.Returned?
    ensures AfterDelete(t.servers, Some(id), None) == (t.servers, Some(id))
    ensures DeleteServerActionOp(t, log, session, id).0.servers != t.servers
  {
    var key := UuidValue(id);
    assert key in ServerIds(t.servers);
    var k :| 0 <= k < |t.servers| && ServerIds(t.servers)[k] == key;
    assert t.servers[k] !in WithoutId(t.servers, key);
  }
}
