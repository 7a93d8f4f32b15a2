/**
 * Logo selection for a new server: an uploaded file first, then a logo
 * URL, then the homepage's favicon. The upload gives the file a key from
 * the server slug, the clock and the file's extension; reading the file
 * is I/O and is the `readFails` parameter.
 */
module LogoUtils {
  import opened Wrappers
  import opened Text
  import Favicon

  /** An uploaded file: its name, size in bytes and MIME type. */
  datatype LogoFile = LogoFile(name: string, size: int, mimeType: string)

  const UPLOAD_FAILED: string := "Failed to upload logo"
  const DEFAULT_EXTENSION: string := "webp"
  const R2_PUBLIC_PREFIX: string := "https://r2.mcpserverslist.com/"
  const LOGO_FOLDER: string := "logos/"

  /** This module's `getFaviconUrl`: an unparsable homepage gives "". */
  function GetFaviconUrl(homepageUrl: string, hostnameOf: Favicon.HostnameOf): (r: string)
    ensures hostnameOf(homepageUrl).None? <==> r == ""
  {
    match hostnameOf(homepageUrl)
    case Some(domain) => Favicon.GoogleFavicon(domain)
    case None => ""
  }

  /** The two favicon helpers agree wherever the homepage parses. */
  lemma FaviconHelpersAgree(homepageUrl: string, hostnameOf: Favicon.HostnameOf)
    ensures hostnameOf(homepageUrl).Some? ==>
      GetFaviconUrl(homepageUrl, hostnameOf) == Favicon.GetFaviconUrl(homepageUrl, hostnameOf)
    ensures hostnameOf(homepageUrl).None? ==>
      GetFaviconUrl(homepageUrl, hostnameOf) == "" && Favicon.GetFaviconUrl(homepageUrl, hostnameOf) == Favicon.SVG_PLACEHOLDER
  {
  }

  function Last(pieces: seq<string>): string
    requires |pieces| >= 1
  {
    pieces[|pieces| - 1]
  }

  /** `name.split('.').pop() || 'webp'`. */
  function Extension(name: string): (ext: string)
    ensures ext != ""
    ensures !Contains(ext, ".")
  {
    var pieces := Split(name, ".");
    SplitPiecesFree(name, ".");
    var last := Last(pieces);
    if last == "" then
      CharAbsent(DEFAULT_EXTENSION, '.');
      DEFAULT_EXTENSION
    else last
  }

  /** The last piece of a split at "." is the text after the last dot. */
  lemma {:induction false} LastPieceAfterLastDot(base: string, e: string)
    requires !Contains(e, ".")
    ensures Last(Split(base + "." + e, ".")) == e
    decreases |base|
  {
    var s := base + "." + e;
    assert OccursAt(s, ".", |base|);
    var i := IndexOf(s, ".").value;
    var rest := s[i + 1..];
    assert Split(s, ".") == [s[..i]] + Split(rest, ".");
    if i < |base| {
      assert rest == base[i + 1..] + "." + e;
      LastPieceAfterLastDot(base[i + 1..], e);
    } else {
      assert rest == e;
    }
  }

  /** A file name ending in a dot and a non-empty, dot-free extension keeps that extension. */
  lemma ExtensionOfDottedName(base: string, e: string)
    requires e != "" && !Contains(e, ".")
    ensures Extension(base + "." + e) == e
  {
    LastPieceAfterLastDot(base, e);
  }

  /** The storage key `logos/<slug>-<timestamp>.<ext>`. */
  function UploadKey(file: LogoFile, serverSlug: string, now: int): string {
    LOGO_FOLDER + serverSlug + "-" + IntToString(now) + "." + Extension(file.name)
  }

  /** `uploadLogoToR2`: the public URL of the key, or the upload error. */
  function UploadLogoToR2(file: LogoFile, serverSlug: string, now: int, readFails: bool): (r: Result<string, string>)
    ensures readFails <==> r == Err(UPLOAD_FAILED)
    ensures r.Ok? ==> r.value == R2_PUBLIC_PREFIX + UploadKey(file, serverSlug, now)
  {
    if readFails then Err(UPLOAD_FAILED) else Ok(R2_PUBLIC_PREFIX + UploadKey(file, serverSlug, now))
  }

  /** The uploaded URL ends in the file's extension, read back as the text after its last dot. */
  lemma UploadUrlKeepsExtension(file: LogoFile, serverSlug: string, now: int)
    ensures var url := R2_PUBLIC_PREFIX + UploadKey(file, serverSlug, now);
            Last(Split(url, ".")) == Extension(file.name)
  {
    var base := R2_PUBLIC_PREFIX + LOGO_FOLDER + serverSlug + "-" + IntToString(now);
    assert R2_PUBLIC_PREFIX + UploadKey(file, serverSlug, now) == base + "." + Extension(file.name);
    LastPieceAfterLastDot(base, Extension(file.name));
  }

  /** `processLogo`: the chosen logo URL, `None` for null, or the upload error. */
  function ProcessLogo(logoFile: Option<LogoFile>, logoUrl: Option<string>, homepageUrl: Option<string>,
                       serverSlug: string, now: int, readFails: bool, hostnameOf: Favicon.HostnameOf)
    : (r: Result<Option<string>, string>)
    // 1. a non-empty file is uploaded
    ensures logoFile.Some? && logoFile.value.size > 0 ==>
      r == (match UploadLogoToR2(logoFile.value, serverSlug, now, readFails)
            case Ok(url) => Ok(Some(url))
            case Err(e) => Err(e))
    // 2. otherwise a non-empty logo URL is kept as it is
    ensures !(logoFile.Some? && logoFile.value.size > 0) && OrNull(logoUrl).Some? ==> r == Ok(logoUrl)
    // 3. otherwise a non-empty homepage gives its favicon
    ensures !(logoFile.Some? && logoFile.value.size > 0) && OrNull(logoUrl).None? && OrNull(homepageUrl).Some? ==>
      r == Ok(Some(GetFaviconUrl(homepageUrl.value, hostnameOf)))
    // 4. otherwise null
    ensures !(logoFile.Some? && logoFile.value.size > 0) && OrNull(logoUrl).None? && OrNull(homepageUrl).None? ==>
      r == Ok(None)
    ensures r.Err? ==> r.error == UPLOAD_FAILED
  {
    if logoFile.Some? && logoFile.value.size > 0 then
      match UploadLogoToR2(logoFile.value, serverSlug, now, readFails)
      case Ok(url) => Ok(Some(url))
      case Err(e) => Err(e)
    else if OrNull(logoUrl).Some? then Ok(logoUrl)
    else if OrNull(homepageUrl).Some? then Ok(Some(GetFaviconUrl(homepageUrl.value, hostnameOf)))
    else Ok(None)
  }

  /** An empty file, URL or homepage never decides the logo: each falls through to the next source. */
  lemma EmptySourcesFallThrough(name: string, mimeType: string, homepageUrl: Option<string>, serverSlug: string,
                                now: int, readFails: bool, hostnameOf: Favicon.HostnameOf)
    ensures ProcessLogo(Some(LogoFile(name, 0, mimeType)), Some(""), homepageUrl, serverSlug, now, readFails, hostnameOf)
         == ProcessLogo(None, None, homepageUrl, serverSlug, now, readFails, hostnameOf)
    ensures ProcessLogo(None, None, Some(""), serverSlug, now, readFails, hostnameOf) == Ok(None)
  {
  }

  /** Only an upload can fail; without a non-empty file the result is always a URL or null. */
  lemma OnlyUploadFails(logoFile: Option<LogoFile>, logoUrl: Option<string>, homepageUrl: Option<string>,
                        serverSlug: string, now: int, readFails: bool, hostnameOf: Favicon.HostnameOf)
    requires logoFile.None? || logoFile.value.size <= 0 || !readFails
    ensures ProcessLogo(logoFile, logoUrl, homepageUrl, serverSlug, now, readFails, hostnameOf).Ok?
  {
  }
}
