# MCP servers directory — a verified model

This project models the core of the MCP servers directory (mcpserverslist), a
website that lists Model Context Protocol servers. The parts modelled are:

- **The directory store.** The four tables (servers, categories,
  server–category links, submissions) with their declared constraints:
  column widths, 32-bit integers, primary keys, unique slugs, and link
  references that cascade on delete. On top of them sit the data-access
  functions: unique-slug creation, stats and content updates, category
  creation, and clear-then-insert category assignment.
- **The admin server actions and the admin page's client state.** Create,
  update and delete behind the admin procedure, cache-tag invalidation, the
  servers table's edit/create dispatch, and the create dialog.
- **The public submission path.** The form schema, the fail-open rate limit
  keyed by the client address, the two duplicate checks, and the insert.
- **The enrichment job that runs after a server is created.** It checks the
  required fields, fetches stats, generates content, categorizes the server
  with a "Miscellaneous" fallback, and reports its result.
- **The listing read.** All servers, newest first, paginated. The page count,
  the page window with ellipses, and the sort menu's URL parameters.
- **The string transformations.** Prompt templating, GitHub owner/repository
  parsing, the slug expression, the README clean-up, favicon and logo
  precedence, the structured data (JSON-LD) of a server page, and the sitemap.
- **Access control.** The admin-path middleware and the two action
  procedures.

The database is an in-memory value, `Schema.Tables`. Every statement is a
function from tables to tables or an error, and a statement takes effect
only when the resulting tables satisfy every constraint. `Database.Store` is
the mutable store. The methods that change it are proved equal to those
functions, as in `ensures (db.Snapshot(), r) == Op(old(db.Snapshot()), ...)`.
The properties are then proved about the functions.

The following effects are parameters of the model, modelled as oracles:
- the clock;
- fresh row ids;
- `generateSlug`;
- the host name that `new URL` extracts;
- the schema library's URL check;
- the GitHub API;
- the language model;
- the rate limiter's reply;
- `toLocaleTimeString` and `toISOString`.

JavaScript truthiness is modelled explicitly: an empty string counts as
absent (`Text.OrNull`).

Where a comment and the code disagree, the model follows the code. For example:
- The submission limiter allows 10 submissions per hour, although its
  comment says 2.
- The listing read always orders by creation time and filters nothing,
  although the listing page shows a search box and a sort menu.

Three functions in the code are evidently wrong (see "## Findings"): the
GitHub URL parse, the "Miscellaneous" fallback of the categorization step and
the README clean-up. For each, the model has two members: one as written
(`GitHub.ParseRepoAsWritten`, `Enrichment.CategorizeStepAsWritten`,
`Markdown.CleanedContentAsWritten`) and one corrected (`GitHub.ParseRepo`,
`Enrichment.CategorizeStep`, `Markdown.CleanedContent`). The lookups, the
enrichment job and the README renderer are built on the corrected members.
"## Left out" names them, and lemmas state where the two versions agree and
where they differ.

## Model

| member | source | states |
|---|---|---|
| Schema.Check | src/lib/db/schema.ts:14-63 | no error exactly when every declared constraint holds (column widths, 32-bit integers, primary keys, unique slugs, link references); a value too wide for its column is reported as a data error |
| Schema.Commit | src/lib/db/schema.ts:14-63 | a statement takes effect exactly when its resulting tables satisfy every constraint, and then yields those tables |
| Schema.InsertServer | src/lib/db/schema.ts:17-19 | inserting a server appends exactly that row; on valid tables it succeeds iff the row fits its columns and neither its id nor its slug is already taken |
| Schema.UuidValue | src/lib/db/schema.ts:17 | a uuid spelling in either case becomes the lower-case text the database stores for that value, character by character; a stored spelling is its own value |
| Schema.SpellingsOfOneUuid | src/lib/db/schema.ts:17 | two spellings that differ only in the case of their hexadecimal letters name the same stored uuid |
| Schema.UpperCaseSpelling | src/lib/db/schema.ts:17 | "AAAAAAAA-AAAA-AAAA-AAAA-AAAAAAAAAAAA" names the uuid stored as "aaaaaaaa-aaaa-aaaa-aaaa-aaaaaaaaaaaa" |
| Schema.UpdateServer | src/lib/db/schema.ts:17-35 | an update replaces exactly the rows holding the uuid the given id spells, whichever case its letters are in, and returns the matched rows as they were before the update (pre-update), each of whose updated form is in the new table; it rejects a non-uuid id, and succeeds exactly when the id is a uuid and the updated tables are valid |
| Schema.DeleteServer | src/lib/db/schema.ts:53-55 | deleting a server removes the rows holding the uuid the id spells, whichever case its letters are in, and every link to them (cascade), returns the removed rows, touches no other table, keeps valid tables valid, and fails only for a non-uuid id |
| Schema.DeleteCategory | src/lib/db/schema.ts:56-58 | deleting a category removes it and all of its links (cascade) and leaves the servers and submissions unchanged |
| Schema.InsertCategories | src/lib/db/schema.ts:43-48 | inserting categories appends all rows or none; an empty list is refused; it succeeds iff the result is valid (category slugs stay unique) |
| Schema.DeleteLinksOf | src/lib/db/schema.ts:50-63 | removing a server's links keeps exactly the links of other servers and preserves validity |
| Schema.InsertLinks | src/lib/db/schema.ts:60-62 | inserting links appends all rows or none; an empty list is refused; a pair already present (composite primary key) or an unknown server or category makes it fail |
| Schema.InsertSubmission | src/lib/db/schema.ts:150-161 | inserting a submission appends exactly that row; on valid tables it succeeds iff the row fits its columns and its id is new |
| Schema.KeepLinksDistinct | src/lib/db/schema.ts:61 | removing links keeps every (server, category) pair unique |
| Schema.WithoutIdDistinct | src/lib/db/schema.ts:17-19 | removing rows keeps server ids and slugs unique |
| ServersData.CandidateInjective | src/data-access/servers.ts:39 | different counters give different `${slug}-${counter}` candidates |
| ServersData.AllTakenBound | src/data-access/servers.ts:40-48 | no more consecutive candidates from 1 can be taken than there are slugs, so the search loop ends on a finite table |
| ServersData.FreeSuffix | src/data-access/servers.ts:38-48 | the counter the loop stops at is the least n >= 1 whose candidate is untaken |
| ServersData.FreeSuffixUnique | src/data-access/servers.ts:38-48 | any n >= 1 whose candidate is free while all smaller ones are taken is that counter |
| ServersData.ChooseSlug | src/data-access/servers.ts:33-49 | the chosen slug is never taken; the generated slug is kept when free, else the first free `${slug}-${n}` |
| ServersData.SlugExists | src/data-access/servers.ts:36 | the existence query is true iff some server has that slug |
| ServersData.UniqueSlug | src/data-access/servers.ts:33-49 | the slug loop returns the chosen slug, which no server holds |
| ServersData.CreateServerOp | src/data-access/servers.ts:32-70 | creation appends exactly the new row, whose slug is unused; on valid tables it succeeds iff the row fits and its id is new; a failure changes nothing |
| ServersData.CreatedServerDefaults | src/data-access/servers.ts:53-66 | a new server has the "Processing..." description, 0 stars and license "unknown", keeps its homepage, and stores empty optional URLs as null |
| ServersData.CreateServer | src/data-access/servers.ts:32-70 | the store ends as the creation function says, with the same result |
| ServersData.UpdateOutcome | src/data-access/servers.ts:76-84 | an update run for its effect replaces the matching rows when the tables stay valid and otherwise changes nothing |
| ServersData.UpdateServerStats | src/data-access/servers.ts:75-85 | only the rows with that id change, and only in stars, last commit, license and update time; README text is never written |
| ServersData.UpdateServerContent | src/data-access/servers.ts:90-99 | only the rows with that id change, and only in short and long description and update time |
| ServersData.CategoryRows | src/data-access/servers.ts:118-122 | one category row per name, in order, with the generated slug and sort order 0 |
| ServersData.CreateCategoriesOp | src/data-access/servers.ts:113-128 | no names gives [] and no insert; otherwise all rows are appended and returned in order, or none on a constraint error |
| ServersData.CreateCategoriesIgnoresNames | src/data-access/servers.ts:118-127 | existing category names are not checked: on valid tables the insert succeeds whenever the new rows fit and their ids and slugs are new, whatever their names |
| ServersData.CreateCategories | src/data-access/servers.ts:113-128 | the store ends as the category creation function says |
| ServersData.Matching | src/data-access/servers.ts:142-145 | `WHERE name IN (...)` keeps exactly the categories whose name is listed |
| ServersData.AssignOp | src/data-access/servers.ts:133-156 | the server's links are deleted first and other servers' links are untouched; an empty list returns []; otherwise the returned names are those of the matched categories |
| ServersData.AssignLinksExact | src/data-access/servers.ts:137-155 | after a successful assignment the server is linked to a category iff that category's name is listed |
| ServersData.AssignUnknownNamesFails | src/data-access/servers.ts:135-153 | a list naming no existing category fails the empty insert after the server's links were already removed |
| ServersData.AssignSucceeds | src/data-access/servers.ts:142-153 | on valid tables, assigning an existing server a list that names some category succeeds with a non-empty result |
| ServersData.AssignIdempotent | src/data-access/servers.ts:135-153 | running the same assignment twice leaves the same tables and result (clear-then-insert) |
| ServersData.AssignCategoriesToServer | src/data-access/servers.ts:133-156 | the store ends as the assignment function says |
| Listing.InsertSorted | src/lib/data-access/servers.ts:16 | placing a row into a newest-first sequence keeps it newest first |
| Listing.InsertAddsRow | src/lib/data-access/servers.ts:16 | placing a row adds exactly that row: the result's multiset is the old one plus the row |
| Listing.NewestFirstOrder | src/lib/data-access/servers.ts:16 | `ORDER BY created_at DESC` yields a permutation of the table whose timestamps never increase |
| Listing.PageOf | src/lib/data-access/servers.ts:36-42 | `LIMIT`/`OFFSET` keep the rows from the offset on, at most `limit` of them, projected to the selected columns; past the end the page is empty |
| Listing.GetServers | src/lib/data-access/servers.ts:5-57 | page and limit default to 1 and 12; a negative limit or offset `(page - 1) * limit` is an error; otherwise the page holds the servers newest first from that offset, total is the table size, totalPages is the ceiling of total over limit (none for a zero limit), and page and limit are echoed |
| Listing.DefaultRequest | src/lib/data-access/servers.ts:5-7 | a request without page or limit reads the twelve newest servers and counts pages of twelve |
| Listing.PagesCover | src/lib/data-access/servers.ts:13 | pages 1..n of a positive limit, joined, are exactly the first n * limit servers in newest-first order, so no server is skipped or repeated across pages |
| SearchParams.CeilDiv | src/lib/search-params.ts:33 | `Math.ceil(n / d)` is a count of pages that holds n items, and one page fewer does not |
| SearchParams.CeilDivLeast | src/lib/search-params.ts:33 | any number of pages that holds n items is at least the ceiling |
| SearchParams.GetTotalPages | src/lib/search-params.ts:31-34 | the page count for pages of 12 holds all items, one page fewer does not, and no items take no pages |
| SearchParams.TotalPagesExamples | src/lib/search-params.ts:31-34 | 0, 12 and 13 servers take 0, 1 and 2 pages |
| SearchParams.Lookup | src/lib/search-params.ts:17-24 | a parameter without a default is present exactly when the query holds it, with its text |
| SearchParams.LoadSearchParams | src/lib/search-params.ts:9-25 | page is the parsed integer or 1 when absent or unreadable; q is the text or ""; sort and dir are the raw texts or absent |
| SearchParams.EmptyQueryDefaults | src/lib/search-params.ts:9-25 | an empty query gives page 1, search text "", and no sort or direction |
| Prompts.FormatPrompt | src/lib/ai/prompts.ts:4-16 | the loop's result is the template with the variables substituted one after another, each at every match of the key's regular expression (its placeholder, or for an all-digit key the quantified pattern); a missing or empty template gives "" |
| Prompts.NoVariablesKeepTemplate | src/lib/ai/prompts.ts:10-15 | with no variables the template comes back unchanged |
| Prompts.KeyPattern | src/lib/ai/prompts.ts:13 | the text the key's regular expression matches is never empty and always ends in a closing brace, which is never quantified |
| Prompts.AbsentKeysKeepTemplate | src/lib/ai/prompts.ts:12-13 | a template holding no match of any given key's pattern comes back unchanged, so placeholders of absent keys stay intact |
| Prompts.EveryOccurrenceReplaced | src/lib/ai/prompts.ts:13 | one variable replaces every occurrence of its pattern, not just the first; for a key that is not a number, every occurrence of its placeholder |
| Prompts.TextBetweenPlaceholdersKept | src/lib/ai/prompts.ts:13 | for a key that is not a number, the text around the placeholders is kept verbatim and only the placeholders become the value |
| Prompts.PlaceholdersDistinct | src/lib/ai/prompts.ts:13 | the placeholder of one plain key never occurs inside that of another |
| Prompts.LaterKeyRewritesEarlierValue | src/lib/ai/prompts.ts:12-14 | substitution follows entry order: for keys that are not numbers, a later key rewrites a placeholder an earlier value introduced, and the swapped order does not |
| Prompts.DigitPlaceholderKept | src/lib/ai/prompts.ts:13 | the placeholder of a positive number key is left in place, because its pattern needs an opening brace just before a closing one |
| Prompts.NumberKeyExample | src/lib/ai/prompts.ts:13 | "{{1}}" with the key "1" stays "{{1}}", while "{{a}}" with the key "a" becomes the value |
| Prompts.ZeroKeyExample | src/lib/ai/prompts.ts:13 | with the key "0" the pattern is one closing brace, so "{{0}}" becomes "{{0XX" |
| GitHub.RefOf | src/lib/github.ts:13-17 | owner and repository are the first two segments, present exactly when both exist and are non-empty; later segments are ignored |
| GitHub.StripGitSuffix | src/lib/github.ts:10 | a trailing ".git" is removed and nothing else (corrected reading) |
| GitHub.ParseRepo | src/lib/github.ts:8-17 | (corrected) a parsed owner and repository are non-empty and hold no "/" |
| GitHub.ParseRepoAsWritten | src/lib/github.ts:8-13 | (as written, removing the first ".git" anywhere) a parsed owner and repository are non-empty and hold no "/" |
| GitHub.ParseRepoRoundTrip | src/lib/github.ts:8-13 | a repository URL, bare, with ".git" or with more path after it, parses back to its owner and repository |
| GitHub.ParseRepoCanonical | src/lib/github.ts:8-13 | parsing the canonical URL of a parsed repository gives the same repository |
| GitHub.AsWrittenAgrees | src/lib/github.ts:8-13 | the code's parse agrees with the corrected one when the path's first ".git" is its ending or there is none |
| GitHub.AsWrittenDropsInnerGit | src/lib/github.ts:10 | the code removes a ".git" from inside a repository name |
| GitHub.AsWrittenRemovesInnerGit | src/lib/github.ts:10 | the first ".git" in the path, which is the one inside the repository name, is the one the code removes |
| GitHub.AsWrittenMisreadsDottedName | src/lib/github.ts:10 | the code reads https://github.com/octo/octo.github.io as repository "octohub.io" |
| GitHub.ParseRepoReadsDottedName | src/lib/github.ts:8-13 | the corrected parse reads that URL as repository "octo.github.io" |
| GitHub.GetGitHubStats | src/lib/github.ts:6-33 | an unparsable URL throws "Invalid repository URL" before any request, a failed request throws, otherwise the record's counts, dates and license |
| GitHub.GetRepoReadme | src/lib/github.ts:35-57 | null for an unparsable URL or a failed request or decoding, the decoded text otherwise; it never throws |
| GitHub.SameUrlPolicy | src/lib/github.ts:15-45 | the two lookups reject exactly the same URLs, whatever the API does |
| Enrichment.TargetRepoUrl | src/inngest/functions.ts:71-75 | the repository URL when set; else the homepage exactly when it contains "github.com"; else none; a target is never empty |
| Enrichment.LicenseOf | src/inngest/functions.ts:96 | the license key when set, else "unknown", so never empty |
| Enrichment.UpdateOnlyRow | src/inngest/functions.ts:92-98 | a step's update changes no row but the server's own and no other table |
| Enrichment.StatsStep | src/inngest/functions.ts:69-122 | without a target or on a failed lookup the stats are the defaults (0 stars, 0 forks, "unknown") and nothing is written; otherwise the fetched figures, written only to that server |
| Enrichment.SummaryOr | src/inngest/functions.ts:170 | the summary when set, else "MCP server description" |
| Enrichment.ContentStep | src/inngest/functions.ts:124-195 | an object reply stores its summary or the default as the short description; any other reply keeps the default content and writes nothing |
| Enrichment.AssignedNames | src/inngest/functions.ts:250-257 | the names to assign are the matched names then the added ones, or ["Miscellaneous"] when both are empty; never empty |
| Enrichment.CategorizeStep | src/inngest/functions.ts:197-267 | a failed reply gives []; new names are created first; only that server's links change; the names returned are those of matched categories; "Miscellaneous" is created only when it does not exist yet (corrected fallback) |
| Enrichment.AssignKeepsValid | src/data-access/servers.ts:133-156 | the assignment keeps valid tables valid |
| Enrichment.CategorizeStepAsWritten | src/inngest/functions.ts:197-267 | (as written) a failed reply gives []; only that server's links change; the names returned are those of matched categories; with nothing matched or added, "Miscellaneous" is attempted whether or not it exists |
| Enrichment.AsWrittenCategorizeAgrees | src/inngest/functions.ts:243-259 | the code's step and the corrected one give the same tables and names whenever something was matched or added, or "Miscellaneous" is missing |
| Enrichment.AsWrittenFallbackFails | src/inngest/functions.ts:253-257 | as written, once "Miscellaneous" exists, creating it again breaks slug uniqueness and the step assigns nothing |
| Enrichment.FallbackAssignsExisting | src/inngest/functions.ts:253-259 | the corrected step assigns a server the existing "Miscellaneous" when nothing was matched or added |
| Enrichment.FallbackCreatesMissing | src/inngest/functions.ts:253-259 | the corrected step creates "Miscellaneous" when it is missing and assigns the server to it |
| Enrichment.HandleServerCreatedOp | src/inngest/functions.ts:32-312 | a missing name or homepage fails before any step; otherwise exactly one server is added, only its row and links change afterwards, and the result always reports completion; its stats, description and features, and categories are the outputs of the stats, content and categorization steps, each run on the tables the previous steps left, and the final tables are the categorization step's |
| Enrichment.NewRowOnly | src/inngest/functions.ts:56-195 | after the insert, the steps touch only the new row, so the earlier rows come back unchanged |
| Enrichment.StatsStepRun | src/inngest/functions.ts:69-122 | the store ends as the stats step says |
| Enrichment.ContentStepRun | src/inngest/functions.ts:124-195 | the store ends as the content step says |
| Enrichment.CategorizeStepRun | src/inngest/functions.ts:197-267 | the store ends as the categorization step says |
| Enrichment.AssignStepRun | src/inngest/functions.ts:250-259 | the store ends as the fallback-and-assign part says |
| Enrichment.HandleServerCreated | src/inngest/functions.ts:26-313 | the store ends as the job function says, with the same result |
| SafeAction.PublicProcedure | src/lib/safe-action.ts:5-13 | the procedure yields the session's user when there is a session and null otherwise; it never fails |
| SafeAction.AdminProcedure | src/lib/safe-action.ts:15-31 | it admits exactly a session whose user has the role "admin", yielding that user; no session fails with "Not authenticated", another role with "Not authorized - admin role required" |
| Middleware.Route | src/middleware.ts:5-32 | a path outside "/admin" passes; an admin path without a session redirects to "/login", with a non-admin user to "/", and with an admin passes |
| Middleware.PublicPathsIgnoreSession | src/middleware.ts:9-11 | outside "/admin" the decision does not depend on the session |
| Middleware.AdminPathsAgreeWithProcedure | src/middleware.ts:20-31 | an admin path is let through exactly when the admin procedure would admit the session |
| RateLimit.GetClientIp | src/lib/rate-limit.ts:39-50 | the client address is `cf-connecting-ip`, else `x-real-ip`, else the trimmed first comma-separated entry of `x-forwarded-for`, else "unknown"; an empty header counts as absent |
| RateLimit.ForwardedEntryShape | src/lib/rate-limit.ts:47 | an address taken from `x-forwarded-for` holds no comma, has no outer whitespace, and keeps the first entry's visible text |
| RateLimit.TrimNoNewText | src/lib/rate-limit.ts:47 | trimming an entry cannot produce text the entry did not hold |
| RateLimit.EmptyHeaderIsAbsent | src/lib/rate-limit.ts:45-47 | sending any of the three headers as "" picks the same address as not sending it |
| RateLimit.CheckRateLimit | src/lib/rate-limit.ts:53-79 | the limiter's answer is passed through with `resetTime` taken from `reset`; a failing limiter gives an allowing result with zero counts stamped with the current time |
| RateLimit.FailOpen | src/lib/rate-limit.ts:68-78 | a failing limiter never blocks the request |
| RateLimit.GetRateLimitHeaders | src/lib/rate-limit.ts:82-90 | exactly the three `X-RateLimit-*` headers: the limit and remaining count in decimal and the reset time as an ISO string |
| RateLimit.RateLimitHeadersRoundTrip | src/lib/rate-limit.ts:86-87 | the limit and remaining headers read back as the counts they carry |
| SubmitAction.SubmitOp | src/app/actions/submissions.ts:13-68 | an input the schema refuses never reaches the handler and nothing is thrown; the rate limit, the server check and the submission check refuse in that order with their messages and change nothing; a success appends exactly the form's row and happens only for an unseen repository under the limit; on valid tables the only other failure is a bad or colliding id |
| SubmitAction.AcceptedInputWhenUuid | src/types/submission.ts:3-12 | an accepted form fits the submissions table whenever its id is a uuid in stored form, as generated ids are |
| SubmitAction.SubmitKeepsRepoUrlsDistinct | src/app/actions/submissions.ts:33-54 | when the stored submissions have distinct repository URLs, they still do after any submission |
| SubmitAction.FailingLimiterAdmits | src/app/actions/submissions.ts:25-31 | with a failing limiter a new repository is still accepted (the limit fails open) |
| SubmitAction.SubmitServer | src/app/actions/submissions.ts:13-68 | the store ends as the action says, with the same outcome |
| SubmissionInput.EmailHasOneAt | src/types/submission.ts:5 | an address the email check accepts holds exactly one `@`, with text before and after it |
| SubmissionInput.DomainHasNoAt | src/types/submission.ts:5 | the domain part of an accepted address holds no `@` |
| SubmissionsData.SubmissionExists | src/lib/data-access/submissions.ts:10-18 | true exactly when some submission has that repository URL |
| SubmissionsData.ServerExists | src/lib/data-access/submissions.ts:20-28 | true exactly when some server's repository URL equals it; a server without a repository never matches |
| SubmissionsData.NewSubmissionRow | src/lib/db/schema.ts:150-161 | the inserted row carries the form's fields, the given id and time, and the column default status "pending" |
| SubmissionsData.AcceptedInputFits | src/types/submission.ts:3-12 | a form the schema accepts fits every column of the submissions table, given a generated (stored-form) uuid id |
| SubmissionsData.CreateSubmissionOp | src/lib/data-access/submissions.ts:5-8 | the insert appends exactly the new row and returns it; on valid tables it succeeds iff the row fits its columns and its id is unused; a failure leaves the tables unchanged |
| SubmissionsData.CreateSubmission | src/lib/data-access/submissions.ts:5-8 | the store ends as the insert says, with the same result |
| AdminActions.Gate | src/app/actions/servers.ts:38-40 | no refusal exactly when the admin procedure admits the session and the schema accepts the input; the procedure is asked first |
| AdminActions.CreateServerActionOp | src/app/actions/servers.ts:10-48 | a refused session throws its message and an input outside the create schema is refused, both changing nothing; a success inserts exactly the input's row with the column defaults, returns it and invalidates "servers"; on valid tables it succeeds iff the row fits, its id is fresh and its slug unused; valid tables stay valid |
| AdminActions.UpdateServerActionOp | src/app/actions/servers.ts:23-25 | a success rewrites exactly the rows holding the uuid the id spells, in either case, with the given fields and `updatedAt`, returns an updated row and invalidates "servers"; an absent id throws "Server not found" and changes nothing; a non-uuid id is refused; an accepted update of a present id succeeds whenever the updated tables are valid; valid tables stay valid |
| AdminActions.DeleteServerActionOp | src/app/actions/servers.ts:72-86 | a success removes the row and its links, returns `{ success: true }` and invalidates "servers"; on valid tables a uuid id succeeds iff some server holds the uuid it spells, in either case, and otherwise throws "Server not found" without change; a non-uuid id is refused |
| AdminActions.RevalidateCacheActionOp | src/app/actions/servers.ts:88-94 | an admin invalidates exactly the given tag and gets `{ success: true }`; anyone else gets the procedure's error and nothing is invalidated |
| AdminActions.CreateThenDeleteRestores | src/app/actions/servers.ts:42-83 | deleting the server just created restores the tables exactly, with "servers" invalidated twice |
| AdminActions.DeleteTwiceNotFound | src/app/actions/servers.ts:76-80 | a second delete of the same id throws "Server not found" and changes nothing |
| AdminActions.UpdateOnlyThatRow | src/app/actions/servers.ts:56-60 | a successful update keeps every row's id and creation time, leaves other rows and tables untouched, and sets the name and `updatedAt` of the matching row; an absent stars key keeps the stored count |
| AdminActions.PatchIdempotent | src/app/actions/servers.ts:58 | applying the same `set` twice is applying it once |
| AdminActions.UpdateTwiceSameTables | src/app/actions/servers.ts:56-69 | repeating a successful update leaves the tables as the first left them and succeeds again, invalidating "servers" once more |
| AdminActions.CreateServerAction | src/app/actions/servers.ts:38-48 | the store and the tag log end as the create action says, with the same outcome |
| AdminActions.UpdateServerAction | src/app/actions/servers.ts:50-70 | the store and the tag log end as `UpdateServerActionOp` says, with the same outcome: the rows holding the uuid the id spells, in either case, are rewritten, an absent uuid throws "Server not found" |
| AdminActions.DeleteServerAction | src/app/actions/servers.ts:72-86 | the store and the tag log end as `DeleteServerActionOp` says, with the same outcome: the row holding the uuid the id spells, in either case, goes with its links, an absent uuid throws "Server not found" |
| AdminActions.DeleteByAnySpelling | src/app/actions/servers.ts:72-86 | on valid tables an admin's delete by any case spelling of a stored id succeeds and removes that row |
| AdminActions.RevalidateCacheAction | src/app/actions/servers.ts:88-94 | the tag log ends as the revalidate action says, with the same outcome |
| AdminClient.AfterCreate | src/app/admin/admin-client.tsx:27-29 | a created server is appended at the end and the earlier list is kept as it was |
| AdminClient.AfterUpdate | src/app/admin/admin-client.tsx:37-39 | the list keeps its length; each element with the returned id is replaced by the returned server and every other element is kept |
| AdminClient.AfterDelete | src/app/admin/admin-client.tsx:47-52 | with a set pending id as the callback reads it, exactly the servers with other ids remain and the pending id is cleared; without one the list and the current pending id are kept |
| AdminClient.AdminClientState.constructor | src/app/admin/admin-client.tsx:21-23 | the list starts as the initial servers, with no pending id and nothing pending |
| AdminClient.AdminClientState.IsLoading | src/app/admin/admin-client.tsx:97 | the table is busy exactly when a create, an update or a delete is pending |
| AdminClient.AdminClientState.OnCreateSettled | src/app/admin/admin-client.tsx:26-34 | a returned server is appended; an error leaves the list unchanged; the pending id is untouched |
| AdminClient.AdminClientState.OnUpdateSettled | src/app/admin/admin-client.tsx:36-44 | the `map` loop gives the list the update says; an error changes nothing |
| AdminClient.AdminClientState.OnDeleteSettled | src/app/admin/admin-client.tsx:46-58 | success applies the delete update with the pending id the callback's closure holds; a failure keeps the list and clears the pending id |
| AdminClient.AdminClientState.HandleDeleteServer | src/app/admin/admin-client.tsx:88-91 | the pending id is recorded before the delete settles; a success whose callback reads that id removes its servers and clears it, one whose callback was made with nothing pending keeps the list and the pending id; a failure keeps the list |
| AdminClient.CreateKeepsMirror | src/app/admin/admin-client.tsx:28 | after a successful create the client list equals the stored servers, when it did before |
| AdminClient.UpdateKeepsMirror | src/app/admin/admin-client.tsx:38 | after a successful update on valid tables the client list equals the stored servers, when it did before |
| AdminClient.DeleteKeepsMirror | src/app/admin/admin-client.tsx:49-50 | after a successful delete of a listed (stored-form) id whose callback reads that pending id, the client list equals the stored servers and the pending id is cleared |
| AdminClient.StaleCallbackKeepsDeletedRow | src/app/admin/admin-client.tsx:46-52 | a success callback made before the click, with nothing pending, keeps the client list while the store has lost the row |
| Cache.TagLog.Invalidate | src/lib/admin/cache.ts:12-18 | `revalidateTag` records its tag exactly when the call does not throw |
| Cache.CategoryTags | src/lib/admin/cache.ts:16-18 | one "category-<slug of the name>" tag per category name, in the order of the names |
| Cache.ServerCacheTags | src/lib/admin/cache.ts:12-18 | the tags begin with "servers" and "server-<slug>" and hold one more tag per category name |
| Cache.FirstThrowing | src/lib/admin/cache.ts:11-24 | the first tag whose invalidation throws, if any: every earlier tag succeeds |
| Cache.RevalidateServerCacheOp | src/lib/admin/cache.ts:9-24 | success is reported exactly when no tag throws, and then all tags are recorded in order; otherwise the log gains a prefix of them |
| Cache.RevalidateStopsAt | src/lib/admin/cache.ts:20-24 | invalidation stops at the first tag that throws, recording exactly the tags before it, and reports failure |
| Cache.RevalidateServerCache | src/lib/admin/cache.ts:9-24 | the two server tags and then the category loop leave the tag log and the result that the invalidation sequence says |
| Cache.InvalidateCategories | src/lib/admin/cache.ts:16-18 | the category loop records the category tags in order up to the first that throws, and succeeds exactly when none throws |
| Cache.SettleAfterServerTags | src/lib/admin/cache.ts:12-21 | once both server tags succeed, the outcome is decided by the first category tag that throws: all tags and success when there is none, else the tags before it and failure |
| Cache.DefaultInvalidatesTwoTags | src/lib/admin/cache.ts:9 | with the default empty category list exactly "servers" and "server-<slug>" are invalidated |
| Pagination.ShownFrom | src/components/pagination.tsx:31-35 | the shown pages from a given page on, strictly ascending, holding exactly the pages that pass the filter |
| Pagination.ShowPages | src/components/pagination.tsx:31-35 | `showPages` is strictly ascending and holds a page iff it is 1, the last page, or within two of the current page, in range; no pages give an empty list |
| Pagination.EllipsizedPages | src/components/pagination.tsx:38-47 | dropping the ellipses from `pagesWithEllipsis` gives `showPages` back: every shown page appears once, in order |
| Pagination.EllipsizedEnds | src/components/pagination.tsx:38-47 | the list starts with the first shown page and ends with the last, never with an ellipsis |
| Pagination.EllipsizedGaps | src/components/pagination.tsx:40-45 | each ellipsis sits between two pages more than one apart and two adjacent pages are at most one apart, so ellipses mark exactly the gaps and never come in pairs |
| Pagination.WithEllipsis | src/components/pagination.tsx:38-47 | the `forEach` loop builds exactly the ellipsized list of the shown pages |
| Pagination.EllipsisExactlyAtGaps | src/components/pagination.tsx:40-46 | each page adds one ellipsis and itself when it is more than one past the previous page, and only itself otherwise |
| Pagination.ControlsStayInRange | src/components/pagination.tsx:53-88 | Previous is disabled exactly on page 1 and Next exactly on the last page, so an enabled control never leaves 1..totalPages |
| Pagination.CurrentPageShown | src/components/pagination.tsx:32-35 | an in-range current page, the first page and the last page are always shown |
| Sorting.OrDefault | src/hooks/use-sorting.ts:42-43 | `searchParams.get(..) \|\| default`: the parameter when present and non-empty, else the default |
| Sorting.SetParam | src/hooks/use-sorting.ts:18-40 | a setter with `clearOnDefault` removes the parameter exactly when it is given its default, and otherwise stores the value |
| Sorting.SortChange | src/hooks/use-sorting.ts:45-57 | choosing the current option leaves the parameters as they are; any other option sets sort and direction and sends the page back to the first |
| Sorting.ChosenBecomesCurrent | src/hooks/use-sorting.ts:42-54 | after a change the chosen option is the current one, and a real change clears the page parameter to page 1 |
| Sorting.SortChangeIdempotent | src/hooks/use-sorting.ts:45-57 | choosing the same option twice changes nothing the second time |
| Sorting.NoParamsMeansNewest | src/config/sorting.tsx:4-9 | a URL without sort parameters is sorted by the default, newest first, which the menu offers |
| Sorting.SortMenu.SetOpen | src/hooks/use-sorting.ts:13 | opening or closing the menu leaves the URL parameters unchanged |
| Sorting.SortMenu.HandleSortChange | src/hooks/use-sorting.ts:45-57 | the menu closes on both paths and the parameters become what the sort change says |
| Favicon.GoogleFavicon | src/lib/favicon.ts:14 | the favicon service URL is the fixed prefix, the host name and "&sz=128" |
| Favicon.DomainOfGoogleFavicon | src/lib/favicon.ts:14 | the host name is read back from its favicon URL |
| Favicon.GoogleFaviconInjective | src/lib/favicon.ts:14 | different hosts get different favicon URLs |
| Favicon.Sextet | src/lib/favicon.ts:2-7 | each six-bit value maps to a character of the base64 alphabet |
| Favicon.Base64Encode | src/lib/favicon.ts:2-7 | `toString("base64")` gives four characters per started group of three bytes, all from the alphabet or "=" padding |
| Favicon.SextetRoundTrip | src/lib/favicon.ts:2-7 | each six-bit value is read back from its alphabet character |
| Favicon.GroupRoundTrip | src/lib/favicon.ts:2-7 | the four characters of a three-byte group decode to the same three bytes |
| Favicon.Base64RoundTrip | src/lib/favicon.ts:2-7 | decoding the base64 text (section 4 of RFC 4648) gives back exactly the bytes that were encoded, padded tails included |
| Favicon.Base64EncodeInjective | src/lib/favicon.ts:2-7 | different byte sequences never share a base64 text |
| Favicon.AsciiBytes | src/lib/favicon.ts:2-7 | `Buffer.from` of the markup gives one byte per character |
| Favicon.PlaceholderIsSvgDataUrl | src/lib/favicon.ts:2-7 | `SVG_PLACEHOLDER` starts with "data:image/svg+xml;base64," followed by a non-empty payload whose length is a multiple of four |
| Favicon.GetFaviconUrl | src/lib/favicon.ts:10-19 | a parsable homepage gives its host's favicon URL and an unparsable one the placeholder |
| Favicon.FaviconNeverEmpty | src/lib/favicon.ts:10-19 | the result is never "", and for an unparsable homepage it is the SVG data URL |
| LogoUtils.GetFaviconUrl | src/lib/logo-utils.ts:6-16 | this module's favicon helper gives "" exactly when the homepage does not parse |
| LogoUtils.FaviconHelpersAgree | src/lib/logo-utils.ts:6-16 | the two favicon helpers agree on parsable homepages and differ only in the fallback ("" against the placeholder) |
| LogoUtils.Extension | src/lib/logo-utils.ts:28 | `split('.').pop() \|\| 'webp'` is never empty and holds no dot |
| LogoUtils.LastPieceAfterLastDot | src/lib/logo-utils.ts:28 | the last piece of a split at "." is the text after the last dot |
| LogoUtils.ExtensionOfDottedName | src/lib/logo-utils.ts:28 | a name ending in a dot and a non-empty, dot-free extension yields that extension |
| LogoUtils.UploadLogoToR2 | src/lib/logo-utils.ts:21-67 | the upload fails with "Failed to upload logo" exactly when reading the file fails, and otherwise returns the public prefix followed by "logos/<slug>-<timestamp>.<ext>" |
| LogoUtils.UploadUrlKeepsExtension | src/lib/logo-utils.ts:28-46 | the returned URL's text after its last dot is the file's extension |
| LogoUtils.ProcessLogo | src/lib/logo-utils.ts:72-98 | a non-empty file is uploaded; otherwise a non-empty logo URL is kept; otherwise a non-empty homepage gives its favicon; otherwise null; only the upload error can occur |
| LogoUtils.EmptySourcesFallThrough | src/lib/logo-utils.ts:81-95 | an empty file, an empty logo URL and an empty homepage each fall through to the next source |
| LogoUtils.OnlyUploadFails | src/lib/logo-utils.ts:81-97 | without a non-empty file whose read fails, the result is always a URL or null |
| CreateDialog.SkipRun | src/components/admin/create-server-dialog.tsx:130 | the text after its leading run of characters outside [a-z0-9], which starts with a slug character or is empty |
| CreateDialog.Collapse | src/components/admin/create-server-dialog.tsx:130 | `replace(/[^a-z0-9]+/g, '-')` leaves only [a-z0-9] and dashes, never two dashes in a row, is empty iff its input is, and starts with a dash iff the input starts with another character |
| CreateDialog.CollapseKeepsSlugChars | src/components/admin/create-server-dialog.tsx:130 | the collapse keeps every [a-z0-9] character of its input, in order, and adds no other |
| CreateDialog.CollapseDashPerRun | src/components/admin/create-server-dialog.tsx:130 | the collapse writes exactly one dash per maximal run of other characters |
| CreateDialog.StripDashes | src/components/admin/create-server-dialog.tsx:130 | `replace(/^-\|-$/g, '')`: the input is the result with at most one removed dash before it and one after it, a dash removed at each end where there is one |
| CreateDialog.StripDashesKeepsSlugChars | src/components/admin/create-server-dialog.tsx:130 | removing the end dashes removes no [a-z0-9] character |
| CreateDialog.NameSlugKeepsSlugChars | src/components/admin/create-server-dialog.tsx:130 | the slug holds exactly the [a-z0-9] characters of the lower-cased name, in order |
| CreateDialog.StripDashesClean | src/components/admin/create-server-dialog.tsx:130 | removing the end dashes of collapsed text leaves [a-z0-9] and single dashes with no dash at either end |
| CreateDialog.NameSlugIsClean | src/components/admin/create-server-dialog.tsx:130 | the slug holds only [a-z0-9] and single dashes, with no dash at either end |
| CreateDialog.CollapseOfClean | src/components/admin/create-server-dialog.tsx:130 | collapsing text that is already slug-shaped changes nothing |
| CreateDialog.NameSlugIdempotent | src/components/admin/create-server-dialog.tsx:130 | applying the slug expression to a slug gives the same slug |
| CreateDialog.FileError | src/components/admin/create-server-dialog.tsx:67-80 | a file is accepted iff its type is png, jpeg, jpg or webp and its size is at most 5 MiB; the type is checked first |
| CreateDialog.SizeLimitInclusive | src/components/admin/create-server-dialog.tsx:76 | exactly 5 MiB is accepted and one byte more is refused |
| CreateDialog.FinalLogoUrl | src/components/admin/create-server-dialog.tsx:97-113 | the only failure is the thrown "Invalid URL" of a homepage that does not parse |
| CreateDialog.SubmitPayload | src/components/admin/create-server-dialog.tsx:116-123 | the event sends the name and homepage as given, each empty optional field as absent and any other as given, and the final logo URL; it fails exactly when that logo URL fails |
| CreateDialog.FaviconWhenNoLogo | src/components/admin/create-server-dialog.tsx:97-106 | with no file and no logo URL, a parsable homepage's favicon is sent as the logo |
| CreateDialog.FileNeverBecomesLogo | src/components/admin/create-server-dialog.tsx:108-113 | which file was chosen never changes the payload; the logo sent is the logo URL, a favicon or nothing |
| CreateDialog.CreateDialogState.constructor | src/components/admin/create-server-dialog.tsx:50-65 | the dialog starts closed with the default values, no preview and nothing submitting |
| CreateDialog.CreateDialogState.HandleFileChange | src/components/admin/create-server-dialog.tsx:67-89 | an accepted file is stored and its preview shown; a refused file, or none, leaves the form unchanged; the refusal carries the file's error |
| CreateDialog.CreateDialogState.Submit | src/components/admin/create-server-dialog.tsx:93-145 | values the schema refuses send nothing; a logo or trigger failure reports its message (or the default) and leaves the form; a started creation resets the form, clears the preview and closes the dialog; submitting is off afterwards |
| Markdown.RunOf | src/components/server/markdown-renderer.tsx:19 | the length of the leading run of a character: every character before it is that one, the next is not |
| Markdown.BlankRun | src/components/server/markdown-renderer.tsx:20 | the length of the leading run of spaces and tabs |
| Markdown.CapNewlinesOnlyNewlines | src/components/server/markdown-renderer.tsx:19 | capping newline runs removes only newlines: every other character is kept, in order |
| Markdown.StripLineEndsOnlyBlanks | src/components/server/markdown-renderer.tsx:20 | stripping line ends removes only spaces and tabs: every other character is kept, in order |
| Markdown.CapNewlinesCaps | src/components/server/markdown-renderer.tsx:19 | after the cap no four newlines stand in a row |
| Markdown.TrimKeepsCap | src/components/server/markdown-renderer.tsx:21 | trimming cannot create four newlines in a row |
| Markdown.AsWrittenKeepsFourNewlines | src/components/server/markdown-renderer.tsx:19-21 | as written, a visible character, three lines holding one space each and another visible character (for instance "a\n \n \n \nb") clean to four newlines in a row, because the blanks are stripped only after the cap has run |
| Markdown.CapNewlinesVisible | src/components/server/markdown-renderer.tsx:19 | the cap keeps every visible character, in order |
| Markdown.StripLineEndsVisible | src/components/server/markdown-renderer.tsx:20 | the strip keeps every visible character, in order |
| Markdown.CapNewlineRun | src/components/server/markdown-renderer.tsx:19 | a maximal run of n newlines becomes exactly three when n is four or more and is kept otherwise, and the rest is capped on its own |
| Markdown.CapNewlinesKeepsShortRuns | src/components/server/markdown-renderer.tsx:19 | text with no four newlines in a row is left unchanged by the cap |
| Markdown.StripLineEndsNoTrailing | src/components/server/markdown-renderer.tsx:20 | after the strip no space or tab ends a line or the text |
| Markdown.StripLineEndsKeepsCleanLines | src/components/server/markdown-renderer.tsx:20 | text in which no line ends in a space or tab is left unchanged by the strip |
| Markdown.StripRunAtLineEnd | src/components/server/markdown-renderer.tsx:20 | a run of spaces and tabs before a line end or the end of the text is removed |
| Markdown.CapNewlinesNoTrailing | src/components/server/markdown-renderer.tsx:19 | the cap keeps text free of trailing blanks |
| Markdown.CleanedContentAsWritten | src/components/server/markdown-renderer.tsx:17-22 | (as written: cap, then strip line ends, then trim) the text starts and ends with a visible character, no line ends in a space or tab, every visible character of the content is kept in order, and absent or empty content gives "" |
| Markdown.CleanedContent | src/components/server/markdown-renderer.tsx:17-22 | the corrected clean-up (strip line ends, then cap, then trim) never leaves four newlines in a row, starts and ends with a visible character, leaves no line ending in a space or tab, keeps every visible character of the content in order, and gives "" for absent or empty content |
| Markdown.CleanedContentIdempotent | src/components/server/markdown-renderer.tsx:17-22 | cleaning already cleaned content changes nothing |
| Markdown.CleanTextKept | src/components/server/markdown-renderer.tsx:17-22 | text with no trailing blanks on any line, no run of four newlines and no outer whitespace comes out of the clean-up unchanged |
| Markdown.WhitespaceOnlyIsEmpty | src/components/server/markdown-renderer.tsx:17-24 | content made only of spaces, tabs and newlines cleans to "", in the written order and in the corrected one |
| Markdown.ReadmeLink | src/components/server/markdown-renderer.tsx:28-30 | the placeholder links to the repository URL followed by "#readme" exactly when a repository URL is set |
| Markdown.RenderReadme | src/components/server/markdown-renderer.tsx:15-37 | the placeholder is shown exactly when the cleaned text is empty; otherwise the cleaned text is rendered |
| ServerContent.DisplayLogo | src/components/server/server-content.tsx:63-74 | an own logo URL (one without "favicons?domain=") wins; else a homepage gives its current favicon; else a stored favicon URL; else the placeholder; never "" |
| ServerContent.GoogleFaviconHasMarker | src/components/server/server-content.tsx:64 | every favicon service URL holds "favicons?domain=", so a stored favicon is never taken for an own logo |
| ServerContent.StoredFaviconShowsCurrentFavicon | src/components/server/server-content.tsx:63-74 | a logo the create path stored from the homepage alone displays as the homepage's current favicon |
| ServerContent.StaleFaviconKept | src/components/server/server-content.tsx:70-72 | a stored favicon URL stays on show when the homepage is absent or empty |
| ServerContent.PrimaryUrl | src/components/server/server-content.tsx:76 | `homepageUrl \|\| repoUrl`: the homepage when set, else the repository as it is |
| ServerContent.Header | src/components/server/server-content.tsx:93-120 | the header shows the display logo and each of Visit, Documentation and Repository exactly when its URL is non-empty |
| ServerContent.VisitShownIff | src/components/server/server-content.tsx:76-94 | Visit is shown iff there is a homepage or a repository, and goes to the homepage first |
| ServerContent.ShownLinksNonEmpty | src/components/server/server-content.tsx:93-120 | every shown link is a non-empty URL and the logo is never empty |
| ServerContent.ReadmeTab | src/components/server/server-content.tsx:188-203 | the stored README is rendered exactly when it is non-empty; otherwise the placeholder links to the repository's "#readme" |
| ServerContent.ReadmeTabAgreesOnPlaceholder | src/components/server/server-content.tsx:192-202 | without a README the tab shows the same placeholder the markdown renderer would |
| ServersTable.TruncateDescription | src/components/admin/servers-table.tsx:48-49 | a description of at most 50 characters is shown as it is; a longer one as its first 50 characters and "..." (53 in all) |
| ServersTable.TruncateIdempotent | src/components/admin/servers-table.tsx:48-49 | cutting a cut description again changes nothing |
| ServersTable.TruncateKeepsPrefix | src/components/admin/servers-table.tsx:48-49 | two descriptions with the same cell are both cut or both not; uncut they are equal, cut they share their first 50 characters |
| ServersTable.StarsShown | src/components/admin/servers-table.tsx:56-57 | `stars \|\| 0`: a null or zero count shows as 0, any other as itself |
| ServersTable.DispatchFor | src/components/admin/servers-table.tsx:109-114 | with a server being edited the form's values go to update with that server's id; otherwise to create |
| ServersTable.ServersTableState.constructor | src/components/admin/servers-table.tsx:32-33 | the form starts closed with no server being edited |
| ServersTable.ServersTableState.EditServer | src/components/admin/servers-table.tsx:82-85 | the row's server is being edited and the form is open |
| ServersTable.ServersTableState.AddServer | src/components/admin/servers-table.tsx:129-132 | no server is being edited and the form is open |
| ServersTable.ServersTableState.OpenChange | src/components/admin/servers-table.tsx:188 | the dialog opening or closing itself sets only whether the form is shown |
| ServersTable.ServersTableState.Submit | src/components/admin/servers-table.tsx:109-117 | the dispatch is what the edited server decides; afterwards the form is closed and no server is being edited |
| ServersTable.ServersTableState.Cancel | src/components/admin/servers-table.tsx:119-122 | the form is closed and no server is being edited |
| ServersTable.EditThenSubmit | src/components/admin/servers-table.tsx:82-117 | editing a row and submitting asks for an update of that row's id with the form's values |
| ServersTable.AddThenSubmit | src/components/admin/servers-table.tsx:109-132 | adding and submitting asks for a create, whatever was edited before |
| JsonLd.ServerJsonLd | src/lib/schema.ts:3-25 | a null server gives null; otherwise name, description and author name come from the server, the URL is the homepage or else the repository, and the remaining fields are the fixed schema.org constants |
| JsonLd.JsonLdUrlIsVisitLink | src/lib/schema.ts:11 | whenever the page shows a Visit link, the structured data's URL is that link |
| JsonLd.JsonLdDependsOnFourFields | src/lib/schema.ts:3-25 | the structured data depends only on the name, summary, homepage and repository |
| Sitemap.ServerUrl | src/app/sitemap.ts:9 | a server's URL is the site URL, "/server/" and the slug |
| Sitemap.ServerEntry | src/app/sitemap.ts:8-13 | a server entry has that URL, is dated by `updatedAt`, and is weekly with priority 0.8 |
| Sitemap.SitemapEntries | src/app/sitemap.ts:15-29 | the home entry (daily, 1), then the submit entry (monthly, 0.5), then one entry per server in order: two more entries than servers |
| Sitemap.ServerUrlInjective | src/app/sitemap.ts:9 | different slugs give different URLs |
| Sitemap.SitemapUrlsDistinct | src/app/sitemap.ts:8-29 | with unique slugs no URL is listed twice |
| Sitemap.SitemapListsEveryServer | src/app/sitemap.ts:8-13 | every stored server has its entry in the sitemap |
| Text.IndexOf | src/lib/ai/prompts.ts:13 | `indexOf` finds the first index where the pattern occurs, or reports that it occurs nowhere |
| Text.ReplaceFirst | src/lib/github.ts:10 | `replace` with a string pattern changes only the first occurrence and leaves a text without the pattern unchanged |
| Text.FirstOccurrenceAfter | src/lib/github.ts:10 | after a prefix that cannot start the pattern, `replace(p, "")` removes exactly that occurrence |
| Text.Split | src/lib/github.ts:13 | `split` always yields at least one piece |
| Text.SplitJoin | src/lib/github.ts:13 | joining the pieces of a split with its separator gives the text back |
| Text.SplitPiecesFree | src/lib/rate-limit.ts:47 | no piece of a split holds the separator |
| Text.ReplaceAllIsSplitJoin | src/lib/ai/prompts.ts:13 | a global replacement is a split at the pattern joined with the value |
| Text.ReplaceAllSelf | src/lib/ai/prompts.ts:13 | replacing a pattern by itself changes nothing |
| Text.ReplaceAllAbsent | src/lib/ai/prompts.ts:13 | a text without the pattern is left unchanged |
| Text.Trim | src/lib/rate-limit.ts:47 | `trim` leaves no whitespace at either end and keeps every visible character in order |
| Text.TrimEmpty | src/components/server/markdown-renderer.tsx:21 | the trimmed text is empty exactly when the input held only whitespace |
| Text.ToLower | src/components/admin/create-server-dialog.tsx:130 | `toLowerCase` keeps the length and lowers each ASCII letter |
| Text.NatToStringRoundTrip | src/lib/rate-limit.ts:86-87 | the decimal text of a count reads back as that count |
| Text.NatToStringInjective | src/lib/rate-limit.ts:86-87 | different counts have different decimal texts |
| Text.IntToString | src/lib/rate-limit.ts:86-87 | `toString` of an integer is non-empty and starts with "-" exactly for a negative one |
| Text.OrNull | src/components/server/server-content.tsx:76 | `s \|\| null`: the empty string counts as absent and any other string is kept |

## Left out

- The language model, its prompt texts and its cost accounting. Each reply is an arbitrary parameter, and it may fail.
- The job runner's durability, step replay and retries. The steps are plain sequential code.
- `Promise.all` concurrency. The parallel fetches in the enrichment job and the listing read are sequential.
- Octokit requests and base64 decoding of the README. Each fetch is a parameter that returns a value or fails.
- The README fetched by the enrichment job's stats step. The job never stores it, so its value is not modelled.
- The R2 upload itself. The upload is the `readFails` parameter, and `Date.now()` is a parameter.
- The limiter's sliding windows, kept in Redis. Its reply is a parameter; its configured budgets are the constants of `RateLimit.WindowOf`.
- `unstable_cache` and the framework effect of `revalidateTag`. Invalidations are recorded in a tag log.
- AdminActions: the admin actions call `Cache.TagLog.Invalidate` with an oracle under which `revalidateTag` never throws, so the error path of a failed invalidation after a successful write is not modelled for them. `Cache.TagLog.Invalidate` itself models the throwing case.
- CreateDialog.FinalLogoUrl: the message "Invalid URL" is the one Node gives for a `TypeError` from `new URL`. Browsers word this message differently by engine, and the model fixes Node's text.
- Middleware.Route: the `config.matcher` of `["/admin/:path*"]` is not modelled; the model decides by the "/admin" prefix, so it also redirects paths such as "/administrator", which the matcher never sends to the middleware. The application has no such page.
- SQL and the ORM. They become the table functions.
- Uuid columns hold the lower-case text the database prints for a uuid value (`Schema.IsStoredUuid`). `UpdateServer` and `DeleteServer` fold the id they are given to that form (`Schema.UuidValue`), so they match by value. The database's other spellings (no hyphens, braces) are refused by the input validation and not modelled.
- Schema.InsertServer: an explicit id that is a uuid in upper case is refused as a data error, where the database would store its value. The application inserts only ids from `defaultRandom()`, which are in stored form; the inserting lemmas take such an id (`IsStoredUuid`).
- Schema.DeleteCategory: matches the id as text. Its callers pass ids read back from the table, which are in stored form.
- Schema.DeleteLinksOf: matches the server id as text, for the same reason.
- ServersData.AssignUnknownNamesFails: requires an id in stored form, as the re-link insert needs; the code passes the id of the row just created.
- AdminClient.AdminClientState.HandleDeleteServer: which render's callbacks the action hook calls after a delete is decided by the `zsa-react` library, which is not part of this model. The callback's pending id is the `seen` parameter: `Some(id)` when it is the render after `setDeletingId(id)`, the earlier pending id when it is the render that sent the delete (`AdminClient.StaleCallbackKeepsDeletedRow`).
- The order of rows with equal `created_at`. The database leaves it unspecified; the model keeps table order (`Listing.NewestFirstOrder`).
- `Listing.GetServers`: page and limit are integers. NaN, fractional and infinite values, which JavaScript would pass through, are not modelled. A zero limit, whose page count would be `Infinity` or `NaN`, gives no page count. A negative limit or offset is an error, as the database refuses it.
- Prompts.FormatPrompt: requires keys made of identifier characters and values without `$`. Other key characters would be read as regular-expression syntax, and `$` in a value as a replacement pattern; neither is modelled. Among identifier keys, an all-digit key is modelled as the quantified pattern it becomes (`Prompts.KeyPattern`), but the engine's limit on very large counts is not.
- String lengths and indices count characters, not UTF-16 code units. Lower-casing (`Text.ToLower`) covers ASCII letters only.
- SubmissionInput.IsEmail: approximates the schema library's email pattern; it checks one `@`, no `..`, and a local part and a dotted domain of permitted characters. The URL check is a parameter.
- `generateSlug` (the `@/utils/slug` helper) is a parameter. Its source is not part of this model.
- The file reader's preview in the create dialog is a parameter.
- Toasts, alerts, `router.refresh`, sign-out and the "Revalidate Cache" button's pending flag. They are presentation.
- All rendering is left out: ReactMarkdown output, icons, date formatting (`toLocaleDateString`) and the table's columns other than description and stars.
- ServerContent.ReadmeTab: the server page renders the stored README without the markdown renderer's clean-up, and the model follows that. Its link rule agrees with `Markdown.RenderReadme` (`ServerContent.ReadmeTabAgreesOnPlaceholder`).
- Sitemap.ServerEntry: an entry is always dated by `updatedAt`. A `Date` object is always truthy, so the `createdAt` fallback never applies. `updatedAt` is non-null with a default.
- ServersTable.ServersTableState.OpenChange: closing the dialog by its own control leaves `editingServer` set. The model keeps that, as the code does.
- The admin actions' `getServers` (a plain select of all rows) and the HTTP route wrappers are left out. The route wrappers duplicate the middleware's check.
- The server form component's schema is left out. It duplicates the admin actions' create schema (`AdminActions.CreateAccepts`).
- GitHub.GetGitHubStats: parses with the corrected `ParseRepo`. The code's parse (`GitHub.ParseRepoAsWritten`) reads a repository name holding ".git" (such as "octo.github.io") wrongly, so the code requests the wrong repository for such a URL.
- GitHub.GetRepoReadme: parses with the corrected `ParseRepo`. The code looks up the wrong repository for a name holding ".git", as for the stats.
- Enrichment.StatsStep: fetches through `GetGitHubStats`, and so through the corrected parse. As written, a homepage or repository URL whose name holds ".git" gets another repository's stats, or the defaults.
- Enrichment.StatsStepRun: runs `StatsStep`, with the same corrected parse.
- Enrichment.CategorizeStepRun: runs the corrected fallback, creating "Miscellaneous" only when it is missing. As written, a second server that matches and adds nothing gets no category (`Enrichment.AsWrittenFallbackFails`).
- Enrichment.HandleServerCreatedOp: runs the corrected `StatsStep` and `CategorizeStep`. As written, the job also misreads URLs holding ".git", and assigns no category once "Miscellaneous" exists and nothing else matched.
- Enrichment.HandleServerCreated: runs `HandleServerCreatedOp`, with the same two corrections.
- Markdown.RenderReadme: renders the corrected clean-up (`Markdown.CleanedContent`). As written, lines holding only blanks can leave four newlines in a row (`Markdown.AsWrittenKeepsFourNewlines`).
- Pagination: the current page is an integer. The code reads it with `+currentPage`, which gives `NaN` for non-numeric text. Then only the first and last pages are shown, none is marked active, and both controls stay enabled. That case is not modelled.
- Errors thrown by the database are reported with the driver's message class (`AdminActions.DbMessage`), not its exact text.

## Findings

| source | as written | input that shows it | evidently intended | confidence | as-written member | corrected member |
|---|---|---|---|---|---|---|
| src/lib/github.ts:10 | `.replace(".git", "")` removes the first ".git" anywhere in the URL, not only a trailing one | https://github.com/octo/octo.github.io is read as repository "octohub.io" | strip only a ".git" suffix, so that the repository is "octo.github.io" | not executed | GitHub.AsWrittenMisreadsDottedName | GitHub.ParseRepoRoundTrip |
| src/inngest/functions.ts:253-257 | when nothing is matched or added, "Miscellaneous" is created even when it already exists | a second server whose categorization matches and adds nothing: the insert breaks the unique category slug, the step catches the error and the server gets no category | create "Miscellaneous" only when it is missing, then assign it | not executed | Enrichment.AsWrittenFallbackFails | Enrichment.FallbackAssignsExisting |
| src/components/server/markdown-renderer.tsx:19-21 | newline runs are capped before trailing blanks are stripped, so lines holding only spaces become extra newlines after the cap | "a\n \n \n \nb" cleans to "a\n\n\n\nb", with four newlines in a row | strip the line ends first, so that no more than three newlines stand in a row | not executed | Markdown.AsWrittenKeepsFourNewlines | Markdown.CleanedContent |
