/**
 * The admin dialog that starts the creation of a server: the slug it
 * derives from the name, the check of a chosen logo file, and the event
 * payload it sends to the creation job. The file preview, toasts and
 * navigation are presentation and are parameters or left out.
 */
module CreateDialog {
  import opened Wrappers
  import opened Text
  import opened Favicon
  import opened LogoUtils
  import opened Enrichment

  // ---------------------------------------------------------------------
  // The slug expression: lower-case, runs of other characters to "-", no dash at either end

  predicate IsSlugChar(c: char) {
    ('a' <= c <= 'z') || ('0' <= c <= '9')
  }

  predicate SlugAlphabet(s: string) {
    forall i :: 0 <= i < |s| ==> IsSlugChar(s[i]) || s[i] == '-'
  }

  predicate NoDoubleDash(s: string) {
    forall i :: 0 <= i < |s| - 1 ==> !(s[i] == '-' && s[i + 1] == '-')
  }

  /** A slug as the expression produces it. */
  predicate CleanSlug(s: string) {
    SlugAlphabet(s) && NoDoubleDash(s) && (s != [] ==> s[0] != '-' && s[|s| - 1] != '-')
  }

  /** The input after its leading run of characters outside [a-z0-9]. */
  function SkipRun(s: string): (r: string)
    ensures |r| <= |s| && r == s[|s| - |r|..]
    ensures r == [] || IsSlugChar(r[0])
    ensures forall i :: 0 <= i < |s| - |r| ==> !IsSlugChar(s[i])
  {
    if s == [] || IsSlugChar(s[0]) then s else SkipRun(s[1..])
  }

  /** `replace(/[^a-z0-9]+/g, '-')`: each maximal run of other characters becomes one dash. */
  function Collapse(s: string): (r: string)
    ensures SlugAlphabet(r) && NoDoubleDash(r)
    ensures s == [] <==> r == []
    ensures s != [] && IsSlugChar(s[0]) ==> r[0] == s[0]
    ensures s != [] && !IsSlugChar(s[0]) ==> r[0] == '-'
    decreases |s|
  {
    if s == [] then []
    else if IsSlugChar(s[0]) then
      var rest := Collapse(s[1..]);
      ConsClean(s[0], rest);
      [s[0]] + rest
    else
      var tail := SkipRun(s[1..]);
      var rest := Collapse(tail);
      ConsClean('-', rest);
      "-" + rest
  }

  /** The characters of `s` in [a-z0-9], in order. */
  function SlugChars(s: string): string {
    if s == [] then [] else (if IsSlugChar(s[0]) then [s[0]] else []) + SlugChars(s[1..])
  }

  /** The number of dashes in `s`. */
  function Dashes(s: string): nat {
    if s == [] then 0 else (if s[0] == '-' then 1 else 0) + Dashes(s[1..])
  }

  /** The number of maximal runs of characters outside [a-z0-9], counted at their last character. */
  function RunEnds(s: string): nat {
    if s == [] then 0
    else (if !IsSlugChar(s[0]) && (|s| == 1 || IsSlugChar(s[1])) then 1 else 0) + RunEnds(s[1..])
  }

  /** Skipping a run of other characters skips no [a-z0-9] character. */
  lemma {:induction false} SlugCharsSkipRun(s: string)
    ensures SlugChars(SkipRun(s)) == SlugChars(s)
    decreases |s|
  {
    if s != [] && !IsSlugChar(s[0]) {
      SlugCharsSkipRun(s[1..]);
    }
  }

  /** A run of other characters ends once, where the skipped part stops. */
  lemma {:induction false} RunEndsAtSkip(s: string)
    requires s != [] && !IsSlugChar(s[0])
    ensures RunEnds(s) == 1 + RunEnds(SkipRun(s[1..]))
    decreases |s|
  {
    var t := s[1..];
    if t != [] && !IsSlugChar(t[0]) {
      RunEndsAtSkip(t);
    }
  }

  /** The collapse keeps every [a-z0-9] character, in order. */
  lemma {:induction false} CollapseKeepsSlugChars(s: string)
    ensures SlugChars(Collapse(s)) == SlugChars(s)
    decreases |s|
  {
    if s != [] {
      if IsSlugChar(s[0]) {
        CollapseKeepsSlugChars(s[1..]);
        assert Collapse(s) == [s[0]] + Collapse(s[1..]);
        assert ([s[0]] + Collapse(s[1..]))[1..] == Collapse(s[1..]);
      } else {
        var tail := SkipRun(s[1..]);
        CollapseKeepsSlugChars(tail);
        SlugCharsSkipRun(s[1..]);
        assert Collapse(s) == "-" + Collapse(tail);
        assert ("-" + Collapse(tail))[1..] == Collapse(tail);
      }
    }
  }

  /** The collapse writes one dash for each maximal run of other characters. */
  lemma {:induction false} CollapseDashPerRun(s: string)
    ensures Dashes(Collapse(s)) == RunEnds(s)
    decreases |s|
  {
    if s != [] {
      if IsSlugChar(s[0]) {
        CollapseDashPerRun(s[1..]);
        assert Collapse(s) == [s[0]] + Collapse(s[1..]);
        assert ([s[0]] + Collapse(s[1..]))[1..] == Collapse(s[1..]);
      } else {
        var tail := SkipRun(s[1..]);
        CollapseDashPerRun(tail);
        RunEndsAtSkip(s);
        assert Collapse(s) == "-" + Collapse(tail);
        assert ("-" + Collapse(tail))[1..] == Collapse(tail);
      }
    }
  }

  /** A slug character, or a dash before no dash, extends a slug-shaped text. */
  lemma ConsClean(c: char, rest: string)
    requires IsSlugChar(c) || (c == '-' && (rest == [] || IsSlugChar(rest[0])))
    requires SlugAlphabet(rest) && NoDoubleDash(rest)
    ensures SlugAlphabet([c] + rest) && NoDoubleDash([c] + rest)
  {
    assert forall i :: 1 <= i < |[c] + rest| ==> ([c] + rest)[i] == rest[i - 1];
  }

  /** `replace(/^-|-$/g, '')`: a dash at the start and one at the end are removed. */
  function StripDashes(s: string): (r: string)
    ensures |r| <= |s|
    ensures var i := if s != [] && s[0] == '-' then 1 else 0;
      var j := if |s| > i && s[|s| - 1] == '-' then |s| - 1 else |s|;
      i <= j && r == s[i..j]
  {
    var a := if s != [] && s[0] == '-' then s[1..] else s;
    if a != [] && a[|a| - 1] == '-' then a[..|a| - 1] else a
  }

  /** The slug the dialog computes from a server name. */
  function NameSlug(name: string): string {
    StripDashes(Collapse(ToLower(name)))
  }

  /** The slug is made of [a-z0-9] and single dashes, with no dash at either end. */
  lemma NameSlugIsClean(name: string)
    ensures CleanSlug(NameSlug(name))
  {
    StripDashesClean(Collapse(ToLower(name)));
  }

  /** Removing the end dashes of slug-shaped text leaves a clean slug. */
  lemma StripDashesClean(c: string)
    requires SlugAlphabet(c) && NoDoubleDash(c)
    ensures CleanSlug(StripDashes(c))
  {
    var i := if c != [] && c[0] == '-' then 1 else 0;
    var j := if |c| > i && c[|c| - 1] == '-' then |c| - 1 else |c|;
    SliceClean(c, i, j);
    var r := c[i..j];
    if r != [] {
      assert r[0] == c[i] && r[|r| - 1] == c[j - 1];
      assert i == 1 ==> c[0] == '-' && c[1] != '-';
      assert j < |c| ==> c[|c| - 1] == '-' && c[|c| - 2] != '-';
    }
  }

  lemma SliceClean(c: string, i: int, j: int)
    requires SlugAlphabet(c) && NoDoubleDash(c) && 0 <= i <= j <= |c|
    ensures SlugAlphabet(c[i..j]) && NoDoubleDash(c[i..j])
  {
    assert forall k :: 0 <= k < j - i ==> c[i..j][k] == c[i + k];
  }

  lemma {:induction false} SlugCharsAppend(a: string, b: string)
    ensures SlugChars(a + b) == SlugChars(a) + SlugChars(b)
    decreases |a|
  {
    if a != [] {
      assert (a + b)[1..] == a[1..] + b;
      SlugCharsAppend(a[1..], b);
    } else {
      assert a + b == b;
    }
  }

  /** Removing the end dashes removes no [a-z0-9] character. */
  lemma StripDashesKeepsSlugChars(c: string)
    ensures SlugChars(StripDashes(c)) == SlugChars(c)
  {
    var i := if c != [] && c[0] == '-' then 1 else 0;
    var j := if |c| > i && c[|c| - 1] == '-' then |c| - 1 else |c|;
    assert c == c[..i] + c[i..j] + c[j..];
    SlugCharsAppend(c[..i] + c[i..j], c[j..]);
    SlugCharsAppend(c[..i], c[i..j]);
    assert SlugChars(c[..i]) == [] && SlugChars(c[j..]) == [];
  }

  /** The slug holds exactly the lower-cased name's [a-z0-9] characters, in order. */
  lemma NameSlugKeepsSlugChars(name: string)
    ensures SlugChars(NameSlug(name)) == SlugChars(ToLower(name))
  {
    CollapseKeepsSlugChars(ToLower(name));
    StripDashesKeepsSlugChars(Collapse(ToLower(name)));
  }

  lemma LowerOfClean(s: string)
    requires SlugAlphabet(s)
    ensures ToLower(s) == s
  {
  }

  /** A clean slug is already collapsed. */
  lemma {:induction false} CollapseOfClean(s: string)
    requires SlugAlphabet(s) && NoDoubleDash(s) && (s != [] ==> s[|s| - 1] != '-')
    ensures Collapse(s) == s
    decreases |s|
  {
    if s != [] {
      CleanTail(s);
      CollapseOfClean(s[1..]);
      if !IsSlugChar(s[0]) {
        assert |s| >= 2 && IsSlugChar(s[1]);
        assert SkipRun(s[1..]) == s[1..];
      }
      assert s == [s[0]] + s[1..];
    }
  }

  lemma CleanTail(s: string)
    requires s != [] && SlugAlphabet(s) && NoDoubleDash(s) && s[|s| - 1] != '-'
    ensures SlugAlphabet(s[1..]) && NoDoubleDash(s[1..]) && (s[1..] != [] ==> s[1..][|s[1..]| - 1] != '-')
  {
    assert forall i :: 0 <= i < |s| - 1 ==> s[1..][i] == s[i + 1];
  }

  /** Applying the expression to its own result changes nothing. */
  lemma NameSlugIdempotent(name: string)
    ensures NameSlug(NameSlug(name)) == NameSlug(name)
  {
    var s := NameSlug(name);
    NameSlugIsClean(name);
    LowerOfClean(s);
    CollapseOfClean(s);
  }

  // ---------------------------------------------------------------------
  // The logo file

  const VALID_TYPES: seq<string> := ["image/png", "image/jpeg", "image/jpg", "image/webp"]
  const MAX_LOGO_BYTES: int := 5 * 1024 * 1024
  const INVALID_TYPE_MESSAGE: string := "Please upload a PNG, JPEG, or WebP image"
  const TOO_LARGE_MESSAGE: string := "Image must be less than 5MB"

  /** The error a chosen file is refused with, if any: its type first, then its size. */
  function FileError(file: LogoFile): (e: Option<string>)
    ensures e.None? <==> file.mimeType in VALID_TYPES && file.size <= MAX_LOGO_BYTES
    ensures file.mimeType !in VALID_TYPES ==> e == Some(INVALID_TYPE_MESSAGE)
    ensures file.mimeType in VALID_TYPES && file.size > MAX_LOGO_BYTES ==> e == Some(TOO_LARGE_MESSAGE)
  {
    if file.mimeType !in VALID_TYPES then Some(INVALID_TYPE_MESSAGE)
    else if file.size > MAX_LOGO_BYTES then Some(TOO_LARGE_MESSAGE)
    else None
  }

  /** Exactly 5 MiB is accepted; one byte more is not. */
  lemma SizeLimitInclusive(name: string)
    ensures FileError(LogoFile(name, 5242880, "image/png")).None?
    ensures FileError(LogoFile(name, 5242881, "image/png")) == Some(TOO_LARGE_MESSAGE)
  {
    assert "image/png" == VALID_TYPES[0];
  }

  // ---------------------------------------------------------------------
  // The form and the payload it sends

  datatype FormValues = FormValues(
    name: string,
    homepageUrl: string,
    repoUrl: string,
    docsUrl: string,
    logoUrl: string,
    logoFile: Option<LogoFile>,
    aiContext: string)

  const DEFAULT_VALUES: FormValues := FormValues("", "", "", "", "", None, "")

  /** The dialog's schema; `isUrl` is the URL check. */
  predicate DialogAccepts(v: FormValues, isUrl: string -> bool) {
    && |v.name| >= 1
    && isUrl(v.homepageUrl)
    && (v.repoUrl == "" || isUrl(v.repoUrl))
    && (v.docsUrl == "" || isUrl(v.docsUrl))
    && (v.logoUrl == "" || isUrl(v.logoUrl))
  }

  /** The message of the `TypeError` that `new URL` throws, in Node's wording. */
  const INVALID_URL_MESSAGE: string := "Invalid URL"
  const TRIGGER_FAILED_MESSAGE: string := "Failed to trigger server creation"

  /** With no file and no logo URL, the homepage's favicon is taken where the homepage parses. */
  function DefaultedLogoUrl(v: FormValues, hostnameOf: HostnameOf): string {
    if v.logoFile.None? && v.logoUrl == "" && v.homepageUrl != "" then
      match hostnameOf(v.homepageUrl)
      case Some(domain) => GoogleFavicon(domain)
      case None => v.logoUrl
    else v.logoUrl
  }

  /**
   * The logo URL sent: with a file, the logo URL or else the homepage's
   * favicon (a homepage that does not parse throws); without one, the
   * defaulted logo URL as it is, even when empty.
   */
  function FinalLogoUrl(v: FormValues, hostnameOf: HostnameOf): (r: Result<Option<string>, string>)
    ensures r.Err? ==> r.error == INVALID_URL_MESSAGE
  {
    var logoUrl := DefaultedLogoUrl(v, hostnameOf);
    if v.logoFile.Some? then
      if logoUrl != "" then Ok(Some(logoUrl))
      else if v.homepageUrl != "" then
        match hostnameOf(v.homepageUrl)
        case Some(domain) => Ok(Some(GoogleFavicon(domain)))
        case None => Err(INVALID_URL_MESSAGE)
      else Ok(None)
    else Ok(Some(logoUrl))
  }

  /** The `server/created` event data; empty optional fields are sent as absent. */
  function SubmitPayload(v: FormValues, hostnameOf: HostnameOf): (r: Result<Payload, string>)
    ensures r.Err? <==> FinalLogoUrl(v, hostnameOf).Err?
    ensures r.Ok? ==>
      && r.value.name == Some(v.name) && r.value.homepageUrl == Some(v.homepageUrl)
      && (r.value.repoUrl.None? <==> v.repoUrl == "")
      && (r.value.docsUrl.None? <==> v.docsUrl == "")
      && (r.value.aiContext.None? <==> v.aiContext == "")
      && (v.repoUrl != "" ==> r.value.repoUrl == Some(v.repoUrl))
      && (v.docsUrl != "" ==> r.value.docsUrl == Some(v.docsUrl))
      && (v.aiContext != "" ==> r.value.aiContext == Some(v.aiContext))
      && r.value.logoUrl == FinalLogoUrl(v, hostnameOf).value
      && r.value.submissionId.None?
  {
    match FinalLogoUrl(v, hostnameOf)
    case Err(e) => Err(e)
    case Ok(logoUrl) =>
      Ok(Payload(Some(v.name), Some(v.homepageUrl), OrNull(Some(v.repoUrl)), OrNull(Some(v.docsUrl)),
                 logoUrl, OrNull(Some(v.aiContext)), None))
  }

  /** With no file and no logo URL, a parsable homepage supplies its favicon as the logo. */
  lemma FaviconWhenNoLogo(v: FormValues, hostnameOf: HostnameOf)
    requires v.logoFile.None? && v.logoUrl == "" && hostnameOf(v.homepageUrl).Some?
    requires v.homepageUrl != ""
    ensures SubmitPayload(v, hostnameOf).Ok?
    ensures SubmitPayload(v, hostnameOf).value.logoUrl == Some(GoogleFavicon(hostnameOf(v.homepageUrl).value))
  {
  }

  /** Which file was chosen never changes the payload: the file itself is not uploaded. */
  lemma FileNeverBecomesLogo(v: FormValues, f1: LogoFile, f2: LogoFile, hostnameOf: HostnameOf)
    ensures SubmitPayload(v.(logoFile := Some(f1)), hostnameOf) == SubmitPayload(v.(logoFile := Some(f2)), hostnameOf)
    ensures var r := SubmitPayload(v.(logoFile := Some(f1)), hostnameOf);
            r.Ok? ==> r.value.logoUrl.None? || r.value.logoUrl == Some(v.logoUrl)
                      || exists d :: hostnameOf(v.homepageUrl) == Some(d) && r.value.logoUrl == Some(GoogleFavicon(d))
  {
    var r := SubmitPayload(v.(logoFile := Some(f1)), hostnameOf);
    if r.Ok? && v.logoUrl == "" && v.homepageUrl != "" {
      var d := hostnameOf(v.homepageUrl).value;
      assert r.value.logoUrl == Some(GoogleFavicon(d));
    }
  }

  /** How a submission ended. */
  datatype SubmitOutcome =
    | Invalid                 // the schema refused the values; nothing was sent
    | Started(payload: Payload)
    | Failed(message: string) // the toast reads "Failed to create server: " + message

  class CreateDialogState {
    var values: FormValues
    var open: bool
    var logoPreview: Option<string>
    var isSubmitting: bool

    constructor ()
      ensures values == DEFAULT_VALUES && !open && logoPreview.None? && !isSubmitting
    {
      values := DEFAULT_VALUES;
      open := false;
      logoPreview := None;
      isSubmitting := false;
    }

    /**
     * `handleFileChange`: an accepted file is stored and its preview shown;
     * a refused one leaves the form as it was. `preview` is the data URL
     * the file reader produces.
     */
    method HandleFileChange(file: Option<LogoFile>, preview: string) returns (error: Option<string>)
      modifies this
      ensures file.None? ==> error.None? && values == old(values) && logoPreview == old(logoPreview)
      ensures file.Some? ==> error == FileError(file.value)
      ensures file.Some? && error.None? ==> values == old(values).(logoFile := file) && logoPreview == Some(preview)
      ensures error.Some? ==> values == old(values) && logoPreview == old(logoPreview)
      ensures open == old(open) && isSubmitting == old(isSubmitting)
    {
      error := None;
      if file.Some? {
        error := FileError(file.value);
        if error.Some? {
          return;
        }
        values := values.(logoFile := file);
        logoPreview := Some(preview);
      }
    }

    /**
     * `form.handleSubmit(onSubmit)`. `triggerError` is the failure the
     * event sender reports, if any. A started creation resets and closes
     * the dialog; a failure leaves it as it was.
     */
    method Submit(isUrl: string -> bool, hostnameOf: HostnameOf, triggerError: Option<string>)
      returns (outcome: SubmitOutcome)
      modifies this
      ensures !DialogAccepts(old(values), isUrl) ==> outcome == Invalid
      ensures DialogAccepts(old(values), isUrl) && SubmitPayload(old(values), hostnameOf).Err? ==>
        outcome == Failed(SubmitPayload(old(values), hostnameOf).error)
      ensures DialogAccepts(old(values), isUrl) && SubmitPayload(old(values), hostnameOf).Ok? ==>
        outcome == (if triggerError.None? then Started(SubmitPayload(old(values), hostnameOf).value)
                    else Failed(if triggerError.value != "" then triggerError.value else TRIGGER_FAILED_MESSAGE))
      ensures outcome.Started? ==> values == DEFAULT_VALUES && logoPreview.None? && !open
      ensures !outcome.Started? ==> values == old(values) && logoPreview == old(logoPreview) && open == old(open)
      ensures outcome == Invalid ==> isSubmitting == old(isSubmitting)
      ensures outcome != Invalid ==> !isSubmitting
    {
      if !DialogAccepts(values, isUrl) {
        return Invalid;
      }
      isSubmitting := true;
      var payload := SubmitPayload(values, hostnameOf);
      if payload.Err? {
        isSubmitting := false;
        return Failed(payload.error);
      }
      if triggerError.Some? {
        isSubmitting := false;
        return Failed(if triggerError.value != "" then triggerError.value else TRIGGER_FAILED_MESSAGE);
      }
      values := DEFAULT_VALUES;
      logoPreview := None;
      open := false;
      isSubmitting := false;
      outcome := Started(payload.value);
    }
  }
}
