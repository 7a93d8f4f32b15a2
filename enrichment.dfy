/**
 * The `handleServerCreated` background job: create the server, fetch its
 * GitHub statistics, generate its description, categorize it, and report.
 * Each step after the first catches its own failures and falls back to
 * defaults. GitHub, the language model, the clock and the id generator are
 * oracles.
 */
module Enrichment {
  import opened Wrappers
  import opened Text
  import opened Schema
  import opened Database
  import opened ServersData
  import opened GitHub

  /** The `server/created` event's data; every field may be missing. */
  datatype Payload = Payload(
    name: Option<string>,
    homepageUrl: Option<string>,
    repoUrl: Option<string>,
    docsUrl: Option<string>,
    logoUrl: Option<string>,
    aiContext: Option<string>,
    submissionId: Option<string>)

  const MISSING_FIELDS_MESSAGE: string := "Missing required fields: name and homepageUrl"
  const DEFAULT_DESCRIPTION: string := "MCP server description"
  const MISCELLANEOUS: string := "Miscellaneous"
  const GITHUB_HOST: string := "github.com"

  /** A JavaScript-truthy optional string: present and not "". */
  predicate Truthy(s: Option<string>) {
    s.Some? && s.value != ""
  }

  // ---------------------------------------------------------------------
  // Stats step

  /**
   * The repository to read statistics from: the repository URL if given,
   * else the homepage when it mentions github.com, else none.
   */
  function TargetRepoUrl(repoUrl: Option<string>, homepageUrl: string): (r: Option<string>)
    ensures Truthy(repoUrl) ==> r == repoUrl
    ensures !Truthy(repoUrl) ==> (r.Some? <==> Contains(homepageUrl, GITHUB_HOST))
    ensures !Truthy(repoUrl) && r.Some? ==> r.value == homepageUrl
    ensures r.Some? ==> r.value != ""
  {
    if Truthy(repoUrl) then repoUrl
    else if Contains(homepageUrl, GITHUB_HOST) then Some(homepageUrl)
    else None
  }

  /** The statistics the job reports. */
  datatype Stats = Stats(stars: int, lastCommit: Timestamp, license: string, forks: int)

  function DefaultStats(now: Timestamp): Stats {
    Stats(0, now, UNKNOWN_LICENSE, 0)
  }

  /** `githubStats.license.key || "unknown"`. */
  function LicenseOf(g: RepoStats): (l: string)
    ensures l != ""
    ensures Truthy(g.licenseKey) ==> l == g.licenseKey.value
    ensures !Truthy(g.licenseKey) ==> l == UNKNOWN_LICENSE
  {
    if Truthy(g.licenseKey) then g.licenseKey.value else UNKNOWN_LICENSE
  }

  /** The statistics read from GitHub; `parseDate` is `new Date(…)` on the push time. */
  function FetchedStats(g: RepoStats, parseDate: string -> Timestamp): Stats {
    Stats(g.stars, parseDate(g.lastCommit), LicenseOf(g), g.forks)
  }

  /** Every server row but those holding the uuid `id` spells is kept, and no row changes its id or slug. */
  predicate OnlyRowChanged(before: seq<Server>, after: seq<Server>, id: Uuid) {
    && |after| == |before|
    && (forall i :: 0 <= i < |before| && before[i].id != UuidValue(id) ==> after[i] == before[i])
    && (forall i :: 0 <= i < |before| ==> after[i].id == before[i].id && after[i].slug == before[i].slug)
  }

  /** The other tables are the same. */
  predicate ServersOnly(t: Tables, t': Tables) {
    t'.categories == t.categories && t'.links == t.links && t'.submissions == t.submissions
  }

  lemma UpdateOnlyRow(t: Tables, id: Uuid, f: Server -> Server)
    requires forall s: Server :: f(s).id == s.id && f(s).slug == s.slug
    ensures OnlyRowChanged(t.servers, UpdateOutcome(t, id, f).0.servers, id)
    ensures ServersOnly(t, UpdateOutcome(t, id, f).0)
  {
  }

  /**
   * The `fetch-github-stats` step: without a target, or when the lookup or
   * the update fails, the defaults (no stars, no forks, license "unknown")
   * and nothing written; otherwise the fetched figures, written to the row.
   */
  function StatsStep(t: Tables, serverId: Uuid, target: Option<string>,
                     fetchRepo: RepoRef -> Option<RepoData>, parseDate: string -> Timestamp, now: Timestamp)
    : (o: (Tables, Stats))
    ensures target.None? ==> o == (t, DefaultStats(now))
    ensures target.Some? && GetGitHubStats(target.value, fetchRepo).Err? ==> o == (t, DefaultStats(now))
    ensures target.Some? && GetGitHubStats(target.value, fetchRepo).Ok? ==>
      var g := GetGitHubStats(target.value, fetchRepo).value;
      var u := UpdateOutcome(t, serverId, StatsUpdate(g.stars, parseDate(g.lastCommit), LicenseOf(g), now));
      o == (if u.1.None? then (u.0, FetchedStats(g, parseDate)) else (t, DefaultStats(now)))
    ensures o.1.license != ""
    ensures OnlyRowChanged(t.servers, o.0.servers, serverId) && ServersOnly(t, o.0)
    ensures Valid(t) ==> Valid(o.0)
  {
    if target.None? then (t, DefaultStats(now))
    else
      match GetGitHubStats(target.value, fetchRepo)
      case Err(_) => (t, DefaultStats(now))
      case Ok(g) =>
        var f := StatsUpdate(g.stars, parseDate(g.lastCommit), LicenseOf(g), now);
        UpdateOnlyRow(t, serverId, f);
        var (t', e) := UpdateOutcome(t, serverId, f);
        if e.None? then (t', FetchedStats(g, parseDate)) else (t, DefaultStats(now))
  }

  // ---------------------------------------------------------------------
  // Content step

  /** What the content prompt yields: a failure, a reply without an object, or an object's `summary`. */
  datatype ContentReply = ContentFailed | ContentNoObject | ContentObject(summary: Option<string>)

  datatype Content = Content(shortDesc: string, longDesc: string, features: seq<string>)

  function DefaultContent(): Content {
    Content(DEFAULT_DESCRIPTION, DEFAULT_DESCRIPTION, [])
  }

  /** `aiResult.summary || "MCP server description"`. */
  function SummaryOr(summary: Option<string>): (d: string)
    ensures d != ""
    ensures Truthy(summary) ==> d == summary.value
    ensures !Truthy(summary) ==> d == DEFAULT_DESCRIPTION
  {
    if Truthy(summary) then summary.value else DEFAULT_DESCRIPTION
  }

  /**
   * The `generate-ai-content` step: an object reply stores its summary (or
   * the default) as the short description and clears the long one; any
   * failure keeps the default content and writes nothing.
   */
  function ContentStep(t: Tables, serverId: Uuid, reply: ContentReply, now: Timestamp): (o: (Tables, Content))
    ensures !reply.ContentObject? ==> o == (t, DefaultContent())
    ensures reply.ContentObject? ==>
      var d := SummaryOr(reply.summary);
      var u := UpdateOutcome(t, serverId, ContentUpdate(d, None, now));
      o == (if u.1.None? then (u.0, Content(d, "", [])) else (t, DefaultContent()))
    ensures o.1.shortDesc != "" && o.1.features == []
    ensures OnlyRowChanged(t.servers, o.0.servers, serverId) && ServersOnly(t, o.0)
    ensures Valid(t) ==> Valid(o.0)
  {
    match reply
    case ContentObject(summary) =>
      var d := SummaryOr(summary);
      var f := ContentUpdate(d, None, now);
      UpdateOnlyRow(t, serverId, f);
      var (t', e) := UpdateOutcome(t, serverId, f);
      if e.None? then (t', Content(d, "", [])) else (t, DefaultContent())
    case _ => (t, DefaultContent())
  }

  // ---------------------------------------------------------------------
  // Categorize step

  /**
   * What the categorization prompt yields: a failure, or an object whose
   * `categories` and `categoriesToAdd` are arrays of names or something
   * else (`None`). A reply without an object reads as an empty object.
   */
  datatype CategorizeReply = CategorizeFailed | CategorizeObject(categories: Option<seq<string>>, categoriesToAdd: Option<seq<string>>)

  /** The names to create; a non-array is treated as none. */
  function ToAdd(reply: CategorizeReply): seq<string> {
    if reply.CategorizeObject? && reply.categoriesToAdd.Some? then reply.categoriesToAdd.value else []
  }

  /** The existing names the model matched; a non-array is treated as none. */
  function Matched(reply: CategorizeReply): seq<string> {
    if reply.CategorizeObject? && reply.categories.Some? then reply.categories.value else []
  }

  /** The names to assign: matched then added, or "Miscellaneous" when both are empty. */
  function AssignedNames(reply: CategorizeReply): (names: seq<string>)
    ensures names != []
    ensures Matched(reply) + ToAdd(reply) != [] ==> names == Matched(reply) + ToAdd(reply)
    ensures Matched(reply) + ToAdd(reply) == [] ==> names == [MISCELLANEOUS]
  {
    if Matched(reply) + ToAdd(reply) == [] then [MISCELLANEOUS] else Matched(reply) + ToAdd(reply)
  }

  /**
   * Assigning the merged names; `t1` has the added categories. The
   * fallback category is created first when `createFallback` holds; any
   * failure yields no names.
   */
  function AssignStep(t1: Tables, serverId: Uuid, reply: CategorizeReply, createFallback: bool,
                      generateSlug: string -> string, newId: string -> Uuid): (o: (Tables, seq<string>))
  {
    var merged := Matched(reply) + ToAdd(reply);
    var (t2, created) :=
      if merged == [] && createFallback then CreateCategoriesOp(t1, [MISCELLANEOUS], generateSlug, newId)
      else (t1, Ok([]));
    if created.Err? then (t2, [])
    else
      var (t3, r) := AssignOp(t2, serverId, AssignedNames(reply));
      if r.Ok? then (t3, r.value) else (t3, [])
  }

  /**
   * The `categorize-server` step as the code runs it: it creates the new
   * names (when there are any), and creates "Miscellaneous" every time the
   * merged list is empty, whether or not that category exists.
   */
  function CategorizeStepAsWritten(t: Tables, serverId: Uuid, reply: CategorizeReply,
                                   generateSlug: string -> string, newId: string -> Uuid): (o: (Tables, seq<string>))
    ensures reply.CategorizeFailed? ==> o == (t, [])
    ensures o.0.servers == t.servers && o.0.submissions == t.submissions
    ensures forall l: Link :: l.serverId != serverId ==> (l in o.0.links <==> l in t.links)
    ensures o.1 != [] ==> o.1 == NamesOf(Matching(o.0.categories, AssignedNames(reply)))
    ensures forall n :: n in o.1 ==> n in AssignedNames(reply)
    ensures ToAdd(reply) != [] ==>
      o.0.categories == t.categories || o.0.categories == t.categories + CategoryRows(ToAdd(reply), generateSlug, newId)
    ensures Matched(reply) != [] && ToAdd(reply) == [] ==> o.0.categories == t.categories
    // the fallback row is attempted whatever the existing categories are
    ensures Matched(reply) + ToAdd(reply) == [] ==>
      o.0.categories == t.categories || o.0.categories == t.categories + CategoryRows([MISCELLANEOUS], generateSlug, newId)
    ensures Valid(t) ==> Valid(o.0)
  {
    if reply.CategorizeFailed? then (t, [])
    else
      var (t1, added) :=
        if ToAdd(reply) != [] then CreateCategoriesOp(t, ToAdd(reply), generateSlug, newId) else (t, Ok([]));
      if added.Err? then (t1, [])
      else
        AssignStepFrame(t1, serverId, reply, true, generateSlug, newId);
        AssignStepNames(t1, serverId, reply, true, generateSlug, newId);
        AssignStepValid(t1, serverId, reply, true, generateSlug, newId);
        AssignStep(t1, serverId, reply, true, generateSlug, newId)
  }

  /** The categories named "Miscellaneous" exist already. */
  predicate HasFallback(cats: seq<Category>) {
    exists i :: 0 <= i < |cats| && cats[i].name == MISCELLANEOUS
  }

  /**
   * The `categorize-server` step: the new names are created when there
   * are any; with nothing matched or added, "Miscellaneous" is created
   * only when no category of that name exists; the server is then assigned
   * the merged names and the matched names are returned. A failure
   * anywhere yields no names, with the writes done before it kept.
   */
  function CategorizeStep(t: Tables, serverId: Uuid, reply: CategorizeReply,
                          generateSlug: string -> string, newId: string -> Uuid): (o: (Tables, seq<string>))
    ensures reply.CategorizeFailed? ==> o == (t, [])
    ensures o.0.servers == t.servers && o.0.submissions == t.submissions
    ensures forall l: Link :: l.serverId != serverId ==> (l in o.0.links <==> l in t.links)
    ensures o.1 != [] ==> o.1 == NamesOf(Matching(o.0.categories, AssignedNames(reply)))
    ensures forall n :: n in o.1 ==> n in AssignedNames(reply)
    // categories are created only for new names, or for a missing fallback
    ensures ToAdd(reply) != [] ==>
      o.0.categories == t.categories || o.0.categories == t.categories + CategoryRows(ToAdd(reply), generateSlug, newId)
    ensures Matched(reply) != [] && ToAdd(reply) == [] ==> o.0.categories == t.categories
    ensures Matched(reply) + ToAdd(reply) == [] ==>
      o.0.categories == t.categories
      || (!HasFallback(t.categories) && o.0.categories == t.categories + CategoryRows([MISCELLANEOUS], generateSlug, newId))
    ensures Valid(t) ==> Valid(o.0)
  {
    if reply.CategorizeFailed? then (t, [])
    else
      var (t1, added) :=
        if ToAdd(reply) != [] then CreateCategoriesOp(t, ToAdd(reply), generateSlug, newId) else (t, Ok([]));
      if added.Err? then (t1, [])
      else
        AssignStepFrame(t1, serverId, reply, !HasFallback(t1.categories), generateSlug, newId);
        AssignStepNames(t1, serverId, reply, !HasFallback(t1.categories), generateSlug, newId);
        AssignStepValid(t1, serverId, reply, !HasFallback(t1.categories), generateSlug, newId);
        AssignStep(t1, serverId, reply, !HasFallback(t1.categories), generateSlug, newId)
  }

  /**
   * The code's step and the corrected one differ only in the fallback: they
   * agree whenever something was matched or added, or "Miscellaneous" is missing.
   */
  lemma AsWrittenCategorizeAgrees(t: Tables, serverId: Uuid, reply: CategorizeReply,
                                  generateSlug: string -> string, newId: string -> Uuid)
    requires Matched(reply) + ToAdd(reply) != [] || !HasFallback(t.categories)
    ensures CategorizeStepAsWritten(t, serverId, reply, generateSlug, newId)
         == CategorizeStep(t, serverId, reply, generateSlug, newId)
  {
    if !reply.CategorizeFailed? && Matched(reply) + ToAdd(reply) != [] {
      var (t1, added) :=
        if ToAdd(reply) != [] then CreateCategoriesOp(t, ToAdd(reply), generateSlug, newId) else (t, Ok([]));
      assert AssignStep(t1, serverId, reply, true, generateSlug, newId)
          == AssignStep(t1, serverId, reply, !HasFallback(t1.categories), generateSlug, newId);
    }
  }

  lemma AssignKeepsValid(t: Tables, serverId: Uuid, names: seq<string>)
    requires Valid(t)
    ensures Valid(AssignOp(t, serverId, names).0)
  {
  }

  /** What the assignment step leaves of the tables: only the server's links and the fallback row change. */
  lemma AssignStepFrame(t1: Tables, serverId: Uuid, reply: CategorizeReply, createFallback: bool,
                        generateSlug: string -> string, newId: string -> Uuid)
    ensures var o := AssignStep(t1, serverId, reply, createFallback, generateSlug, newId);
      && o.0.servers == t1.servers && o.0.submissions == t1.submissions
      && (forall l: Link :: l.serverId != serverId ==> (l in o.0.links <==> l in t1.links))
      && (Matched(reply) + ToAdd(reply) != [] || !createFallback ==> o.0.categories == t1.categories)
      && (o.0.categories == t1.categories || o.0.categories == t1.categories + CategoryRows([MISCELLANEOUS], generateSlug, newId))
  {
  }

  /** The names the assignment step returns are the assigned names found in the categories. */
  lemma AssignStepNames(t1: Tables, serverId: Uuid, reply: CategorizeReply, createFallback: bool,
                        generateSlug: string -> string, newId: string -> Uuid)
    ensures var o := AssignStep(t1, serverId, reply, createFallback, generateSlug, newId);
      && (o.1 != [] ==> o.1 == NamesOf(Matching(o.0.categories, AssignedNames(reply))))
      && (forall n :: n in o.1 ==> n in AssignedNames(reply))
  {
  }

  /** The assignment step keeps the tables valid. */
  lemma AssignStepValid(t1: Tables, serverId: Uuid, reply: CategorizeReply, createFallback: bool,
                        generateSlug: string -> string, newId: string -> Uuid)
    ensures Valid(t1) ==> Valid(AssignStep(t1, serverId, reply, createFallback, generateSlug, newId).0)
  {
    var merged := Matched(reply) + ToAdd(reply);
    var (t2, created) :=
      if merged == [] && createFallback then CreateCategoriesOp(t1, [MISCELLANEOUS], generateSlug, newId)
      else (t1, Ok([]));
    if Valid(t1) && created.Ok? && IsUuid(serverId) {
      AssignKeepsValid(t2, serverId, AssignedNames(reply));
    }
  }

  /**
   * The code's fallback fails once "Miscellaneous" exists: creating it again
   * breaks the unique slug, the step yields no names and the server stays
   * without a category.
   */
  lemma AsWrittenFallbackFails(t: Tables, serverId: Uuid, reply: CategorizeReply, c: Category,
                               generateSlug: string -> string, newId: string -> Uuid)
    requires Valid(t) && c in t.categories && c.name == MISCELLANEOUS && c.slug == generateSlug(MISCELLANEOUS)
    requires reply.CategorizeObject? && Matched(reply) + ToAdd(reply) == []
    ensures CategorizeStepAsWritten(t, serverId, reply, generateSlug, newId) == (t, [])
  {
    var rows := CategoryRows([MISCELLANEOUS], generateSlug, newId);
    var next := t.(categories := t.categories + rows);
    var k :| 0 <= k < |t.categories| && t.categories[k] == c;
    assert CategorySlugs(next.categories)[k] == CategorySlugs(next.categories)[|t.categories|];
    assert !Valid(next);
  }

  lemma SeqAssoc<T>(x: seq<T>, y: seq<T>, z: seq<T>)
    ensures x + (y + z) == (x + y) + z
  {
  }

  /** Matching distributes over concatenation. */
  lemma {:induction false} MatchingAppend(a: seq<Category>, b: seq<Category>, names: seq<string>)
    ensures Matching(a + b, names) == Matching(a, names) + Matching(b, names)
    decreases |a|
  {
    if a != [] {
      var ab := a + b;
      assert ab[0] == a[0] && ab[1..] == a[1..] + b;
      MatchingAppend(a[1..], b, names);
      if a[0].name in names {
        assert Matching(ab, names) == [a[0]] + Matching(a[1..] + b, names);
        assert Matching(a, names) == [a[0]] + Matching(a[1..], names);
        SeqAssoc([a[0]], Matching(a[1..], names), Matching(b, names));
        assert Matching(a + b, names) == Matching(a, names) + Matching(b, names);
      } else {
        assert Matching(ab, names) == Matching(a[1..] + b, names);
        assert Matching(a, names) == Matching(a[1..], names);
        assert Matching(a + b, names) == Matching(a, names) + Matching(b, names);
      }
    } else {
      assert a + b == b;
      assert Matching(a + b, names) == Matching(a, names) + Matching(b, names);
    }
  }

  /**
   * With "Miscellaneous" present, the step assigns the server to it when the
   * model neither matches nor adds anything.
   */
  lemma FallbackAssignsExisting(t: Tables, serverId: Uuid, reply: CategorizeReply, c: Category,
                                generateSlug: string -> string, newId: string -> Uuid)
    requires Valid(t) && serverId in ServerIds(t.servers)
    requires c in t.categories && c.name == MISCELLANEOUS
    requires reply.CategorizeObject? && Matched(reply) + ToAdd(reply) == []
    ensures var o := CategorizeStep(t, serverId, reply, generateSlug, newId);
      o.1 != [] && (forall n :: n in o.1 ==> n == MISCELLANEOUS) && Link(serverId, c.id) in o.0.links
  {
    assert AssignedNames(reply) == [MISCELLANEOUS];
    AssignSucceeds(t, serverId, AssignedNames(reply));
    FallbackStepFacts(t, serverId, reply, c, generateSlug, newId);
  }

  /** The same, from a successful assignment of the fallback name. */
  lemma FallbackStepFacts(t: Tables, serverId: Uuid, reply: CategorizeReply, c: Category,
                          generateSlug: string -> string, newId: string -> Uuid)
    requires c in t.categories && c.name == MISCELLANEOUS
    requires reply.CategorizeObject? && Matched(reply) + ToAdd(reply) == []
    requires AssignOp(t, serverId, AssignedNames(reply)).1.Ok?
    requires AssignOp(t, serverId, AssignedNames(reply)).1.value != []
    ensures var o := CategorizeStep(t, serverId, reply, generateSlug, newId);
      o.1 != [] && (forall n :: n in o.1 ==> n == MISCELLANEOUS) && Link(serverId, c.id) in o.0.links
  {
    var k :| 0 <= k < |t.categories| && t.categories[k] == c;
    assert HasFallback(t.categories);
    var names := AssignedNames(reply);
    assert names == [MISCELLANEOUS];
    assert c.name in names;
    var o := CategorizeStep(t, serverId, reply, generateSlug, newId);
    var a := AssignOp(t, serverId, names);
    StepWithFallbackPresent(t, serverId, reply, generateSlug, newId);
    assert o == (a.0, a.1.value);
    forall n | n in o.1
      ensures n == MISCELLANEOUS
    {
      assert n in names;
    }
    assert Link(serverId, c.id) in o.0.links by {
      AssignLinksExact(t, serverId, names, c.id);
    }
  }

  /** With "Miscellaneous" present and nothing to add, the step is the plain assignment. */
  lemma StepWithFallbackPresent(t: Tables, serverId: Uuid, reply: CategorizeReply,
                                generateSlug: string -> string, newId: string -> Uuid)
    requires HasFallback(t.categories)
    requires reply.CategorizeObject? && ToAdd(reply) == []
    ensures var a := AssignOp(t, serverId, AssignedNames(reply));
      CategorizeStep(t, serverId, reply, generateSlug, newId) == (a.0, if a.1.Ok? then a.1.value else [])
  {
    var a := AssignOp(t, serverId, AssignedNames(reply));
    assert AssignStep(t, serverId, reply, false, generateSlug, newId) == (a.0, if a.1.Ok? then a.1.value else []);
  }

  /** Only the new row matches "Miscellaneous" after it is added to a table without one. */
  lemma MatchingFallbackRow(cats: seq<Category>, row: Category)
    requires !HasFallback(cats) && row.name == MISCELLANEOUS
    ensures Matching(cats + [row], [MISCELLANEOUS]) == [row]
  {
    forall x | x in cats
      ensures x.name !in [MISCELLANEOUS]
    {
      var i :| 0 <= i < |cats| && cats[i] == x;
    }
    MatchingNone(cats, [MISCELLANEOUS]);
    MatchingAppend(cats, [row], [MISCELLANEOUS]);
    assert Matching([row], [MISCELLANEOUS]) == [row] + Matching([], [MISCELLANEOUS]);
  }

  /**
   * Without "Miscellaneous", the step creates it and assigns the server to
   * it, when the new row fits.
   */
  lemma FallbackCreatesMissing(t: Tables, serverId: Uuid, reply: CategorizeReply,
                               generateSlug: string -> string, newId: string -> Uuid)
    requires Valid(t) && serverId in ServerIds(t.servers) && !HasFallback(t.categories)
    requires Valid(t.(categories := t.categories + CategoryRows([MISCELLANEOUS], generateSlug, newId)))
    requires reply.CategorizeObject? && Matched(reply) + ToAdd(reply) == []
    ensures CategorizeStep(t, serverId, reply, generateSlug, newId).1 == [MISCELLANEOUS]
  {
    var rows := CategoryRows([MISCELLANEOUS], generateSlug, newId);
    var t2 := t.(categories := t.categories + rows);
    assert CreateCategoriesOp(t, [MISCELLANEOUS], generateSlug, newId) == (t2, Ok(rows));
    assert rows == [rows[0]];
    assert rows[0] in t2.categories;
    AssignSucceeds(t2, serverId, [MISCELLANEOUS]);
    FallbackCreatedStep(t, serverId, reply, generateSlug, newId);
  }

  /** The same, from a successful creation of the fallback and a successful assignment to it. */
  lemma FallbackCreatedStep(t: Tables, serverId: Uuid, reply: CategorizeReply,
                            generateSlug: string -> string, newId: string -> Uuid)
    requires !HasFallback(t.categories)
    requires reply.CategorizeObject? && Matched(reply) + ToAdd(reply) == []
    requires var rows := CategoryRows([MISCELLANEOUS], generateSlug, newId);
      && CreateCategoriesOp(t, [MISCELLANEOUS], generateSlug, newId) == (t.(categories := t.categories + rows), Ok(rows))
      && AssignOp(t.(categories := t.categories + rows), serverId, [MISCELLANEOUS]).1.Ok?
      && AssignOp(t.(categories := t.categories + rows), serverId, [MISCELLANEOUS]).1.value != []
    ensures CategorizeStep(t, serverId, reply, generateSlug, newId).1 == [MISCELLANEOUS]
  {
    var rows := CategoryRows([MISCELLANEOUS], generateSlug, newId);
    var t2 := t.(categories := t.categories + rows);
    assert rows == [rows[0]];
    MatchingFallbackRow(t.categories, rows[0]);
    assert NamesOf(Matching(t2.categories, [MISCELLANEOUS])) == [MISCELLANEOUS];
    assert AssignedNames(reply) == [MISCELLANEOUS];
    assert CategorizeStep(t, serverId, reply, generateSlug, newId)
      == AssignStep(t, serverId, reply, true, generateSlug, newId);
  }

  // ---------------------------------------------------------------------
  // The job

  /** Why the job fails: the required fields are missing, or the server could not be created. */
  datatype JobError = MissingFields | CreateFailed(error: DbError)

  /** What the job returns. */
  datatype JobResult = JobResult(
    serverId: Uuid,
    slug: string,
    name: string,
    shortDesc: string,
    longDesc: string,
    features: seq<string>,
    repoStats: Stats,
    logoUrl: Option<string>,
    categories: seq<string>,
    processingComplete: bool)

  /**
   * The job's oracles: slug generation, the new server's id, category ids
   * by name, the clock, the GitHub repository lookup, date parsing and the
   * two model replies.
   */
  datatype Oracles = Oracles(
    generateSlug: string -> string,
    serverId: Uuid,
    categoryId: string -> Uuid,
    now: Timestamp,
    fetchRepo: RepoRef -> Option<RepoData>,
    parseDate: string -> Timestamp,
    contentReply: ContentReply,
    categorizeReply: CategorizeReply)

  function ServerInput(p: Payload): CreateServerInput
    requires Truthy(p.name) && Truthy(p.homepageUrl)
  {
    CreateServerInput(p.name.value, p.homepageUrl.value, p.repoUrl, p.docsUrl, p.logoUrl)
  }

  /** The row the `create-server` step inserts. */
  function CreatedRow(t: Tables, p: Payload, env: Oracles): Server
    requires Truthy(p.name) && Truthy(p.homepageUrl)
  {
    NewServerRow(ServerInput(p), ChooseSlug(ServerSlugs(t.servers), env.generateSlug(p.name.value)), env.serverId, env.now)
  }

  /** The tables once the job has inserted the server row. */
  function AfterCreate(t: Tables, p: Payload, env: Oracles): Tables
    requires Truthy(p.name) && Truthy(p.homepageUrl)
  {
    t.(servers := t.servers + [CreatedRow(t, p, env)])
  }

  /** The tables after the stats step has run on the inserted row. */
  function AfterStats(t: Tables, p: Payload, env: Oracles): Tables
    requires Truthy(p.name) && Truthy(p.homepageUrl)
  {
    StatsStep(AfterCreate(t, p, env), env.serverId, TargetRepoUrl(p.repoUrl, p.homepageUrl.value),
              env.fetchRepo, env.parseDate, env.now).0
  }

  /** The tables after the content step has run as well. */
  function AfterContent(t: Tables, p: Payload, env: Oracles): Tables
    requires Truthy(p.name) && Truthy(p.homepageUrl)
  {
    ContentStep(AfterStats(t, p, env), env.serverId, env.contentReply, env.now).0
  }

  /**
   * `handleServerCreated`: throws before any step without a name and a
   * homepage; fails when the server cannot be created; otherwise runs the
   * three enrichment steps in turn and always reports completion.
   */
  function HandleServerCreatedOp(t: Tables, p: Payload, env: Oracles): (o: (Tables, Result<JobResult, JobError>))
    ensures !(Truthy(p.name) && Truthy(p.homepageUrl)) ==> o == (t, Err(MissingFields))
    ensures o.1.Err? ==> o.0 == t
    ensures Truthy(p.name) && Truthy(p.homepageUrl) && Valid(t) ==>
      (o.1.Ok? <==> ServerFits(CreatedRow(t, p, env)) && env.serverId !in ServerIds(t.servers))
    ensures o.1.Ok? ==>
      var r := o.1.value;
      && r.processingComplete
      && r.serverId == env.serverId && r.name == p.name.value && r.logoUrl == p.logoUrl
      && r.slug == CreatedRow(t, p, env).slug && r.slug !in ServerSlugs(t.servers)
      && r.shortDesc != "" && r.features == [] && r.repoStats.license != ""
      && (TargetRepoUrl(p.repoUrl, p.homepageUrl.value).None? ==> r.repoStats == DefaultStats(env.now))
      && (env.categorizeReply.CategorizeFailed? ==> r.categories == [])
    // each reported field is the output of its step, run on the tables the previous steps left
    ensures Truthy(p.name) && Truthy(p.homepageUrl) && o.1.Ok? ==>
      var r := o.1.value;
      var content := ContentStep(AfterStats(t, p, env), env.serverId, env.contentReply, env.now).1;
      var categorized := CategorizeStep(AfterContent(t, p, env), env.serverId, env.categorizeReply, env.generateSlug, env.categoryId);
      && r.repoStats == StatsStep(AfterCreate(t, p, env), env.serverId, TargetRepoUrl(p.repoUrl, p.homepageUrl.value),
                                  env.fetchRepo, env.parseDate, env.now).1
      && r.shortDesc == content.shortDesc && r.longDesc == content.longDesc && r.features == content.features
      && r.categories == categorized.1
      && o.0 == categorized.0
    // exactly one new server, every other row and other servers' links untouched
    ensures o.1.Ok? ==>
      && |o.0.servers| == |t.servers| + 1
      && o.0.servers[..|t.servers|] == t.servers
      && o.0.servers[|t.servers|].id == env.serverId
      && o.0.servers[|t.servers|].slug == o.1.value.slug
      && o.0.submissions == t.submissions
      && (forall l: Link :: l.serverId != env.serverId ==> (l in o.0.links <==> l in t.links))
    ensures Valid(t) ==> Valid(o.0)
  {
    if !(Truthy(p.name) && Truthy(p.homepageUrl)) then (t, Err(MissingFields))
    else
      var (t1, created) := CreateServerOp(t, ServerInput(p), env.generateSlug, env.serverId, env.now);
      if created.Err? then (t, Err(CreateFailed(created.error)))
      else
        var server := created.value;
        var target := TargetRepoUrl(p.repoUrl, p.homepageUrl.value);
        var (t2, stats) := StatsStep(t1, server.id, target, env.fetchRepo, env.parseDate, env.now);
        var (t3, content) := ContentStep(t2, server.id, env.contentReply, env.now);
        var (t4, categories) := CategorizeStep(t3, server.id, env.categorizeReply, env.generateSlug, env.categoryId);
        NewRowOnly(t, t1, t2, t3, t4, server);
        (t4, Ok(JobResult(server.id, server.slug, p.name.value, content.shortDesc, content.longDesc,
                          content.features, stats, p.logoUrl, categories, true)))
  }

  /** The updates after the insert touch only the inserted row, whose id is new. */
  lemma NewRowOnly(t: Tables, t1: Tables, t2: Tables, t3: Tables, t4: Tables, server: Server)
    requires t1 == t.(servers := t.servers + [server]) && Valid(t1)
    requires OnlyRowChanged(t1.servers, t2.servers, server.id) && ServersOnly(t1, t2)
    requires OnlyRowChanged(t2.servers, t3.servers, server.id) && ServersOnly(t2, t3)
    requires t4.servers == t3.servers
    ensures |t4.servers| == |t.servers| + 1 && t4.servers[..|t.servers|] == t.servers
    ensures t4.servers[|t.servers|].id == server.id && t4.servers[|t.servers|].slug == server.slug
  {
    assert ServerFits(t1.servers[|t.servers|]);
    assert UuidValue(server.id) == server.id;
    forall i | 0 <= i < |t.servers|
      ensures t1.servers[i].id != server.id
    {
      assert ServerIds(t1.servers)[i] != ServerIds(t1.servers)[|t.servers|];
    }
    assert forall i :: 0 <= i < |t.servers| ==> t2.servers[i] == t1.servers[i];
    assert forall i :: 0 <= i < |t.servers| ==> t2.servers[i].id != server.id;
    assert forall i :: 0 <= i < |t.servers| ==> t3.servers[i] == t.servers[i];
  }

  // ---------------------------------------------------------------------
  // The job against the store

  method StatsStepRun(db: Store, serverId: Uuid, target: Option<string>,
                      fetchRepo: RepoRef -> Option<RepoData>, parseDate: string -> Timestamp, now: Timestamp)
    returns (stats: Stats)
    modifies db
    ensures (db.Snapshot(), stats) == StatsStep(old(db.Snapshot()), serverId, target, fetchRepo, parseDate, now)
  {
    stats := DefaultStats(now);
    if target.Some? {
      var fetched := GetGitHubStats(target.value, fetchRepo);
      if fetched.Ok? {
        var g := fetched.value;
        var license := LicenseOf(g);
        var e := UpdateServerStats(db, serverId, g.stars, parseDate(g.lastCommit), license, now);
        if e.None? {
          stats := Stats(g.stars, parseDate(g.lastCommit), license, g.forks);
        }
      }
    }
  }

  method ContentStepRun(db: Store, serverId: Uuid, reply: ContentReply, now: Timestamp) returns (content: Content)
    modifies db
    ensures (db.Snapshot(), content) == ContentStep(old(db.Snapshot()), serverId, reply, now)
  {
    content := DefaultContent();
    if reply.ContentObject? {
      var shortDesc := SummaryOr(reply.summary);
      var e := UpdateServerContent(db, serverId, shortDesc, None, now);
      if e.None? {
        content := Content(shortDesc, "", []);
      }
    }
  }

  method CategorizeStepRun(db: Store, serverId: Uuid, reply: CategorizeReply,
                           generateSlug: string -> string, newId: string -> Uuid)
    returns (categories: seq<string>)
    modifies db
    ensures (db.Snapshot(), categories) == CategorizeStep(old(db.Snapshot()), serverId, reply, generateSlug, newId)
  {
    categories := [];
    if reply.CategorizeFailed? {
      return;
    }
    var existing := NamesOf(db.categories);
    var toAdd := ToAdd(reply);
    if |toAdd| > 0 {
      var added := CreateCategories(db, toAdd, generateSlug, newId);
      if added.Err? {
        return;
      }
    }
    var fallbackMissing := MISCELLANEOUS !in existing;
    assert Matched(reply) + toAdd == [] ==> (fallbackMissing <==> !HasFallback(db.categories));
    categories := AssignStepRun(db, serverId, reply, fallbackMissing, generateSlug, newId);
  }

  /** The fallback and the assignment, once the new names exist. */
  method AssignStepRun(db: Store, serverId: Uuid, reply: CategorizeReply, createFallback: bool,
                       generateSlug: string -> string, newId: string -> Uuid)
    returns (categories: seq<string>)
    modifies db
    ensures (db.Snapshot(), categories) == AssignStep(old(db.Snapshot()), serverId, reply, createFallback, generateSlug, newId)
  {
    ghost var t1 := db.Snapshot();
    categories := [];
    var all := Matched(reply) + ToAdd(reply);
    if |all| == 0 {
      all := all + [MISCELLANEOUS];
      if createFallback {
        var created := CreateCategories(db, [MISCELLANEOUS], generateSlug, newId);
        if created.Err? {
          return;
        }
      }
    }
    assert all == AssignedNames(reply);
    ghost var t2 := db.Snapshot();
    assert t2 == (if Matched(reply) + ToAdd(reply) == [] && createFallback
                  then CreateCategoriesOp(t1, [MISCELLANEOUS], generateSlug, newId).0 else t1);
    var linked := AssignCategoriesToServer(db, serverId, all);
    if linked.Ok? {
      categories := linked.value;
    }
  }

  /** `handleServerCreated` against the store. */
  method HandleServerCreated(db: Store, p: Payload, env: Oracles) returns (r: Result<JobResult, JobError>)
    modifies db
    ensures (db.Snapshot(), r) == HandleServerCreatedOp(old(db.Snapshot()), p, env)
  {
    if !(Truthy(p.name) && Truthy(p.homepageUrl)) {
      return Err(MissingFields);
    }
    var created := CreateServer(db, ServerInput(p), env.generateSlug, env.serverId, env.now);
    if created.Err? {
      return Err(CreateFailed(created.error));
    }
    var server := created.value;
    var target := TargetRepoUrl(p.repoUrl, p.homepageUrl.value);
    var stats := StatsStepRun(db, server.id, target, env.fetchRepo, env.parseDate, env.now);
    var content := ContentStepRun(db, server.id, env.contentReply, env.now);
    var categories := CategorizeStepRun(db, server.id, env.categorizeReply, env.generateSlug, env.categoryId);
    r := Ok(JobResult(server.id, server.slug, p.name.value, content.shortDesc, content.longDesc,
                      content.features, stats, p.logoUrl, categories, true));
  }
}
