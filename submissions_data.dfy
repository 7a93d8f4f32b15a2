/**
 * The submission data-access layer: storing a submission and the two
 * duplicate checks that precede it, both keyed on the repository URL.
 */
module SubmissionsData {
  import opened Wrappers
  import opened Schema
  import opened Database
  import opened SubmissionInput

  /** The `repo_url` column of the submissions table. */
  function SubmissionRepoUrls(rows: seq<Submission>): (r: seq<string>)
    ensures |r| == |rows| && forall i :: 0 <= i < |rows| ==> r[i] == rows[i].repoUrl
  {
    seq(|rows|, i requires 0 <= i < |rows| => rows[i].repoUrl)
  }

  /** The `repo_url` column of the servers table; null never equals a string. */
  function ServerRepoUrls(rows: seq<Server>): (r: seq<Option<string>>)
    ensures |r| == |rows| && forall i :: 0 <= i < |rows| ==> r[i] == rows[i].repoUrl
  {
    seq(|rows|, i requires 0 <= i < |rows| => rows[i].repoUrl)
  }

  /** `checkIfSubmissionExists`: some submission has this repository URL. */
  function SubmissionExists(rows: seq<Submission>, repoUrl: string): (b: bool)
    ensures b <==> repoUrl in SubmissionRepoUrls(rows)
  {
    exists i :: 0 <= i < |rows| && rows[i].repoUrl == repoUrl
  }

  /** `checkIfServerExists`: some listed server has this repository URL. */
  function ServerExists(rows: seq<Server>, repoUrl: string): (b: bool)
    ensures b <==> Some(repoUrl) in ServerRepoUrls(rows)
  {
    exists i :: 0 <= i < |rows| && rows[i].repoUrl == Some(repoUrl)
  }

  /**
   * The row `createSubmission` inserts: the form's fields, a fresh id, the
   * column default status "pending" and the current time.
   */
  function NewSubmissionRow(data: SubmitInput, id: Uuid, now: Timestamp): (r: Submission)
    ensures r.status == DEFAULT_STATUS && r.id == id && r.createdAt == now
    ensures r.name == data.name && r.email == data.email && r.serverName == data.serverName
    ensures r.repoUrl == data.repoUrl && r.description == data.description
  {
    Submission(id, data.name, data.email, data.serverName, data.repoUrl, data.description, DEFAULT_STATUS, now)
  }

  /** A form the schema accepts fits the submissions table's columns, given a generated id. */
  lemma AcceptedInputFits(data: SubmitInput, isUrl: string -> bool, id: Uuid, now: Timestamp)
    requires Accepts(data, isUrl) && IsStoredUuid(id)
    ensures SubmissionFits(NewSubmissionRow(data, id, now))
  {
  }

  /**
   * `createSubmission` as a statement: the new row appended, or the
   * database's error with the table unchanged.
   */
  function CreateSubmissionOp(t: Tables, data: SubmitInput, id: Uuid, now: Timestamp): (o: (Tables, Result<Submission, DbError>))
    ensures o.1.Ok? ==> o.1.value == NewSubmissionRow(data, id, now)
    ensures o.1.Ok? ==> o.0 == t.(submissions := t.submissions + [o.1.value]) && Valid(o.0)
    ensures o.1.Err? ==> o.0 == t && o.1.error != EmptyValues
    ensures Valid(t) ==> (o.1.Ok? <==> SubmissionFits(NewSubmissionRow(data, id, now)) && id !in SubmissionIds(t.submissions))
  {
    var row := NewSubmissionRow(data, id, now);
    match InsertSubmission(t, row)
    case Ok(next) => (next, Ok(row))
    case Err(e) => (t, Err(e))
  }

  /** `createSubmission` against the store; `id` and `now` stand for the column defaults. */
  method CreateSubmission(db: Store, data: SubmitInput, id: Uuid, now: Timestamp) returns (r: Result<Submission, DbError>)
    modifies db
    ensures (db.Snapshot(), r) == CreateSubmissionOp(old(db.Snapshot()), data, id, now)
  {
    var row := NewSubmissionRow(data, id, now);
    var e := db.Run(InsertSubmission(db.Snapshot(), row));
    if e.Some? {
      r := Err(e.value);
    } else {
      r := Ok(row);
    }
  }
}
