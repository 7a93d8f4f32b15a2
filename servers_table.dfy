/**
 * The admin servers table: how a row shows its description and star
 * count, and the form state behind the edit and add buttons. Submitting
 * the form hands the values to the update or the create callback; the
 * callbacks themselves belong to the admin page.
 */
module ServersTable {
  import opened Wrappers
  import opened Schema
  import opened AdminActions

  const DESCRIPTION_LIMIT: nat := 50
  const ELLIPSIS: string := "..."

  /** The description cell: at most 50 characters of the text, and "..." when it was cut. */
  function TruncateDescription(desc: string): (r: string)
    ensures |desc| <= DESCRIPTION_LIMIT ==> r == desc
    ensures |desc| > DESCRIPTION_LIMIT ==>
      |r| == DESCRIPTION_LIMIT + |ELLIPSIS| && r[..DESCRIPTION_LIMIT] == desc[..DESCRIPTION_LIMIT]
      && r[DESCRIPTION_LIMIT..] == ELLIPSIS
    ensures |r| <= DESCRIPTION_LIMIT + |ELLIPSIS|
  {
    if |desc| > DESCRIPTION_LIMIT then desc[..DESCRIPTION_LIMIT] + ELLIPSIS else desc
  }

  /** A cut description is cut again to itself: showing it twice changes nothing more. */
  lemma TruncateIdempotent(desc: string)
    ensures TruncateDescription(TruncateDescription(desc)) == TruncateDescription(desc)
  {
    if |desc| > DESCRIPTION_LIMIT {
      var r := TruncateDescription(desc);
      assert r[..DESCRIPTION_LIMIT] == desc[..DESCRIPTION_LIMIT];
      assert TruncateDescription(r) == r[..DESCRIPTION_LIMIT] + ELLIPSIS;
    }
  }

  /** Two descriptions show the same cell only if they agree on their first 50 characters. */
  lemma TruncateKeepsPrefix(a: string, b: string)
    requires TruncateDescription(a) == TruncateDescription(b)
    ensures |a| > DESCRIPTION_LIMIT <==> |b| > DESCRIPTION_LIMIT
    ensures |a| <= DESCRIPTION_LIMIT ==> a == b
    ensures |a| > DESCRIPTION_LIMIT ==> a[..DESCRIPTION_LIMIT] == b[..DESCRIPTION_LIMIT]
  {
    assert |TruncateDescription(a)| > DESCRIPTION_LIMIT <==> |a| > DESCRIPTION_LIMIT;
    assert |TruncateDescription(b)| > DESCRIPTION_LIMIT <==> |b| > DESCRIPTION_LIMIT;
  }

  /** The stars cell: `stars || 0`, so a null count shows as 0. */
  function StarsShown(stars: Option<int>): (r: int)
    ensures r == 0 <==> stars.None? || stars.value == 0
    ensures stars.Some? ==> r == stars.value
  {
    if stars.Some? && stars.value != 0 then stars.value else 0
  }

  /** What a form submission asks of the admin page. */
  datatype Dispatch = UpdateRequest(id: Uuid, data: ServerInput) | CreateRequest(data: ServerInput)

  /** The request for the form's values: an update of the server being edited, else a create. */
  function DispatchFor(editingServer: Option<Server>, data: ServerInput): (d: Dispatch)
    ensures d.data == data
    ensures d.UpdateRequest? <==> editingServer.Some?
    ensures d.UpdateRequest? ==> d.id == editingServer.value.id
  {
    match editingServer
    case Some(server) => UpdateRequest(server.id, data)
    case None => CreateRequest(data)
  }

  class ServersTableState {
    var editingServer: Option<Server>
    var showForm: bool

    constructor ()
      ensures editingServer.None? && !showForm
    {
      editingServer := None;
      showForm := false;
    }

    /** The pencil button of a row: that server is edited in the opened form. */
    method EditServer(server: Server)
      modifies this
      ensures editingServer == Some(server) && showForm
    {
      editingServer := Some(server);
      showForm := true;
    }

    /** The "Add Server" button: the form opens empty. */
    method AddServer()
      modifies this
      ensures editingServer.None? && showForm
    {
      editingServer := None;
      showForm := true;
    }

    /** The dialog opening or closing itself; the edited server is left as it is. */
    method OpenChange(open: bool)
      modifies this
      ensures showForm == open && editingServer == old(editingServer)
    {
      showForm := open;
    }

    /** `handleFormSubmit`: the request for the values, then the form closes and forgets the server. */
    method Submit(data: ServerInput) returns (d: Dispatch)
      modifies this
      ensures d == DispatchFor(old(editingServer), data)
      ensures !showForm && editingServer.None?
    {
      if editingServer.Some? {
        d := UpdateRequest(editingServer.value.id, data);
      } else {
        d := CreateRequest(data);
      }
      showForm := false;
      editingServer := None;
    }

    /** `handleFormCancel`: the form closes and forgets the server. */
    method Cancel()
      modifies this
      ensures !showForm && editingServer.None?
    {
      showForm := false;
      editingServer := None;
    }
  }

  /** Editing a row and submitting asks for an update of that row. */
  method EditThenSubmit(table: ServersTableState, server: Server, data: ServerInput) returns (d: Dispatch)
    modifies table
    ensures d == UpdateRequest(server.id, data)
    ensures !table.showForm && table.editingServer.None?
  {
    table.EditServer(server);
    d := table.Submit(data);
  }

  /** Adding and submitting asks for a create, whatever row was edited before. */
  method AddThenSubmit(table: ServersTableState, data: ServerInput) returns (d: Dispatch)
    modifies table
    ensures d == CreateRequest(data)
    ensures !table.showForm && table.editingServer.None?
  {
    table.AddServer();
    d := table.Submit(data);
  }
}
