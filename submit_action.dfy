/**
 * The public `submitServer` action: schema validation, the per-address
 * rate limit, the two duplicate checks and the insert, with every failure
 * reported as a result rather than thrown.
 */
module SubmitAction {
  import opened Wrappers
  import opened Text
  import opened Schema
  import opened Database
  import opened RateLimit
  import opened SafeAction
  import opened SubmissionInput
  import opened SubmissionsData

  /** What the handler returns to the form. */
  datatype SubmitResult = SubmitResult(success: bool, message: string, data: Option<Submission>)

  const SERVER_EXISTS_MESSAGE: string := "This MCP server already exists in our directory."
  const ALREADY_SUBMITTED_MESSAGE: string := "This MCP server has already been submitted and is pending review."
  const SUBMITTED_MESSAGE: string := "MCP server submitted successfully! We'll review it shortly."
  const SUBMIT_FAILED_MESSAGE: string := "An error occurred while submitting your MCP server."

  /** The refusal when the window is used up; `resetText` is the reset time as a local time of day. */
  function RateLimitMessage(limit: int, resetText: string): string {
    "Rate limit exceeded. You can submit " + IntToString(limit) + " servers per hour. Try again at " + resetText + "."
  }

  /** The rate-limit verdict for this request: the submissions limiter keyed by the client address. */
  function SubmitLimit(h: Headers, limiter: (LimiterKind, string) -> LimiterReply, now: int): RateLimitResult {
    CheckRateLimit(limiter(Submissions, GetClientIp(h)), now)
  }

  /**
   * `submitServer` on tables `t`. `isUrl` is the schema's URL check,
   * `limiter` the limiter's reply for a kind and an identifier, `now` the
   * clock, `timeText` `toLocaleTimeString`, `id` the new row's uuid.
   */
  function SubmitOp(t: Tables, h: Headers, input: SubmitInput, isUrl: string -> bool,
                    limiter: (LimiterKind, string) -> LimiterReply, now: int,
                    timeText: int -> string, id: Uuid): (o: (Tables, ActionOutcome<SubmitResult>))
    // validation runs before the handler, and the handler catches everything
    ensures o.1 == InvalidInput <==> !Accepts(input, isUrl)
    ensures !o.1.Thrown?
    ensures o.1.Returned? ==> (o.1.value.success <==> o.1.value.data.Some?)
    // a refusal changes nothing
    ensures !(o.1.Returned? && o.1.value.success) ==> o.0 == t
    // the checks, in order
    ensures Accepts(input, isUrl) && !SubmitLimit(h, limiter, now).success ==>
      var rl := SubmitLimit(h, limiter, now);
      o.1 == Returned(SubmitResult(false, RateLimitMessage(rl.limit, timeText(rl.resetTime)), None))
    ensures Accepts(input, isUrl) && SubmitLimit(h, limiter, now).success && ServerExists(t.servers, input.repoUrl) ==>
      o.1 == Returned(SubmitResult(false, SERVER_EXISTS_MESSAGE, None))
    ensures (Accepts(input, isUrl) && SubmitLimit(h, limiter, now).success && !ServerExists(t.servers, input.repoUrl)
             && SubmissionExists(t.submissions, input.repoUrl)) ==>
      o.1 == Returned(SubmitResult(false, ALREADY_SUBMITTED_MESSAGE, None))
    // acceptance: exactly one new row, the form's, and only for an unseen repository
    ensures o.1.Returned? && o.1.value.success ==>
      && o.1.value.message == SUBMITTED_MESSAGE
      && o.1.value.data == Some(NewSubmissionRow(input, id, now))
      && o.0 == t.(submissions := t.submissions + [NewSubmissionRow(input, id, now)])
      && Valid(o.0)
      && SubmitLimit(h, limiter, now).success
      && !ServerExists(t.servers, input.repoUrl)
      && !SubmissionExists(t.submissions, input.repoUrl)
    ensures o.1.Returned? && !o.1.value.success && o.1.value.message == SUBMIT_FAILED_MESSAGE ==>
      !Valid(t) || !IsStoredUuid(id) || id in SubmissionIds(t.submissions)
    // on a consistent database the only other way to fail is a bad or colliding id
    ensures Valid(t) && Accepts(input, isUrl) ==>
      (o.1.Returned? && o.1.value.success <==>
        && SubmitLimit(h, limiter, now).success
        && !ServerExists(t.servers, input.repoUrl)
        && !SubmissionExists(t.submissions, input.repoUrl)
        && IsStoredUuid(id) && id !in SubmissionIds(t.submissions))
  {
    if !Accepts(input, isUrl) then (t, InvalidInput)
    else
      var rl := SubmitLimit(h, limiter, now);
      if !rl.success then
        (t, Returned(SubmitResult(false, RateLimitMessage(rl.limit, timeText(rl.resetTime)), None)))
      else if ServerExists(t.servers, input.repoUrl) then
        (t, Returned(SubmitResult(false, SERVER_EXISTS_MESSAGE, None)))
      else if SubmissionExists(t.submissions, input.repoUrl) then
        (t, Returned(SubmitResult(false, ALREADY_SUBMITTED_MESSAGE, None)))
      else
        AcceptedInputWhenUuid(input, isUrl, id, now);
        var (next, r) := CreateSubmissionOp(t, input, id, now);
        if r.Ok? then (next, Returned(SubmitResult(true, SUBMITTED_MESSAGE, Some(r.value))))
        else (t, Returned(SubmitResult(false, SUBMIT_FAILED_MESSAGE, None)))
  }

  lemma AcceptedInputWhenUuid(input: SubmitInput, isUrl: string -> bool, id: Uuid, now: Timestamp)
    requires Accepts(input, isUrl)
    ensures IsStoredUuid(id) ==> SubmissionFits(NewSubmissionRow(input, id, now))
  {
    if IsStoredUuid(id) {
      AcceptedInputFits(input, isUrl, id, now);
    }
  }

  /** Submissions made through the form never share a repository URL. */
  lemma SubmitKeepsRepoUrlsDistinct(t: Tables, h: Headers, input: SubmitInput, isUrl: string -> bool,
                                    limiter: (LimiterKind, string) -> LimiterReply, now: int,
                                    timeText: int -> string, id: Uuid)
    requires Distinct(SubmissionRepoUrls(t.submissions))
    ensures Distinct(SubmissionRepoUrls(SubmitOp(t, h, input, isUrl, limiter, now, timeText, id).0.submissions))
  {
    var o := SubmitOp(t, h, input, isUrl, limiter, now, timeText, id);
    if o.0 != t {
      var row := NewSubmissionRow(input, id, now);
      assert SubmissionRepoUrls(o.0.submissions) == SubmissionRepoUrls(t.submissions) + [row.repoUrl];
      DistinctAppend(SubmissionRepoUrls(t.submissions), row.repoUrl);
    }
  }

  /** A limiter that fails lets the submission through to the duplicate checks. */
  lemma FailingLimiterAdmits(t: Tables, h: Headers, input: SubmitInput, isUrl: string -> bool,
                             limiter: (LimiterKind, string) -> LimiterReply, now: int,
                             timeText: int -> string, id: Uuid)
    requires Valid(t) && Accepts(input, isUrl) && limiter(Submissions, GetClientIp(h)) == LimiterThrows
    requires !ServerExists(t.servers, input.repoUrl) && !SubmissionExists(t.submissions, input.repoUrl)
    requires IsStoredUuid(id) && id !in SubmissionIds(t.submissions)
    ensures SubmitOp(t, h, input, isUrl, limiter, now, timeText, id).1.value.success
  {
    FailOpen(now);
  }

  /** `submitServer` against the store. */
  method SubmitServer(db: Store, h: Headers, input: SubmitInput, isUrl: string -> bool,
                      limiter: (LimiterKind, string) -> LimiterReply, now: int,
                      timeText: int -> string, id: Uuid) returns (out: ActionOutcome<SubmitResult>)
    modifies db
    ensures (db.Snapshot(), out) == SubmitOp(old(db.Snapshot()), h, input, isUrl, limiter, now, timeText, id)
  {
    if !Accepts(input, isUrl) {
      return InvalidInput;
    }
    var ip := GetClientIp(h);
    var rl := CheckRateLimit(limiter(Submissions, ip), now);
    if !rl.success {
      return Returned(SubmitResult(false, RateLimitMessage(rl.limit, timeText(rl.resetTime)), None));
    }
    if ServerExists(db.servers, input.repoUrl) {
      return Returned(SubmitResult(false, SERVER_EXISTS_MESSAGE, None));
    }
    if SubmissionExists(db.submissions, input.repoUrl) {
      return Returned(SubmitResult(false, ALREADY_SUBMITTED_MESSAGE, None));
    }
    var r := CreateSubmission(db, input, id, now);
    if r.Ok? {
      out := Returned(SubmitResult(true, SUBMITTED_MESSAGE, Some(r.value)));
    } else {
      out := Returned(SubmitResult(false, SUBMIT_FAILED_MESSAGE, None));
    }
  }
}
