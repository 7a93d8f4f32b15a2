/**
 * A server's detail page: the logo shown in its header, the Visit,
 * Documentation and Repository links, and the README tab. Empty strings
 * count as absent, as JavaScript truthiness has it.
 */
module ServerContent {
  import opened Wrappers
  import opened Text
  import opened Schema
  import Favicon
  import LogoUtils
  import Markdown

  /** A stored logo URL holding this marker is a favicon service URL. */
  const FAVICON_MARKER: string := "favicons?domain="

  /** A logo URL that is set and is not a favicon service URL. */
  predicate IsOwnLogo(logoUrl: Option<string>) {
    OrNull(logoUrl).Some? && !Contains(logoUrl.value, FAVICON_MARKER)
  }

  /**
   * `displayLogo`: an own logo first, then the homepage's current favicon,
   * then a stored favicon URL, then the placeholder.
   */
  function DisplayLogo(logoUrl: Option<string>, homepageUrl: Option<string>, hostnameOf: Favicon.HostnameOf): (r: string)
    ensures IsOwnLogo(logoUrl) ==> r == logoUrl.value
    ensures !IsOwnLogo(logoUrl) && OrNull(homepageUrl).Some? ==>
      r == Favicon.GetFaviconUrl(homepageUrl.value, hostnameOf)
    ensures !IsOwnLogo(logoUrl) && OrNull(homepageUrl).None? && OrNull(logoUrl).Some? ==> r == logoUrl.value
    ensures OrNull(logoUrl).None? && OrNull(homepageUrl).None? ==> r == Favicon.SVG_PLACEHOLDER
    ensures r != ""
  {
    Favicon.PlaceholderIsSvgDataUrl();
    if IsOwnLogo(logoUrl) then logoUrl.value
    else if OrNull(homepageUrl).Some? then
      Favicon.FaviconNeverEmpty(homepageUrl.value, hostnameOf);
      Favicon.GetFaviconUrl(homepageUrl.value, hostnameOf)
    else if OrNull(logoUrl).Some? then logoUrl.value
    else Favicon.SVG_PLACEHOLDER
  }

  /** Every favicon service URL carries the marker. */
  lemma GoogleFaviconHasMarker(domain: string)
    ensures Contains(Favicon.GoogleFavicon(domain), FAVICON_MARKER)
  {
    var u := Favicon.GoogleFavicon(domain);
    assert Favicon.FAVICON_PREFIX[26..42] == FAVICON_MARKER;
    assert u[26..42] == Favicon.FAVICON_PREFIX[26..42];
    ContainsAt(u, FAVICON_MARKER, 26);
  }

  /**
   * A logo stored by the create form from the homepage (no file, no logo
   * URL) displays as the homepage's current favicon, or the placeholder
   * when the homepage does not parse.
   */
  lemma StoredFaviconShowsCurrentFavicon(homepageUrl: string, serverSlug: string, now: int,
                                         readFails: bool, hostnameOf: Favicon.HostnameOf)
    requires homepageUrl != ""
    ensures var stored := LogoUtils.ProcessLogo(None, None, Some(homepageUrl), serverSlug, now, readFails, hostnameOf);
            stored.Ok? && DisplayLogo(stored.value, Some(homepageUrl), hostnameOf)
                          == Favicon.GetFaviconUrl(homepageUrl, hostnameOf)
  {
    var stored := LogoUtils.ProcessLogo(None, None, Some(homepageUrl), serverSlug, now, readFails, hostnameOf);
    assert stored == Ok(Some(LogoUtils.GetFaviconUrl(homepageUrl, hostnameOf)));
    match hostnameOf(homepageUrl)
    case Some(domain) =>
      GoogleFaviconHasMarker(domain);
    case None =>
  }

  /** A favicon URL stored for a homepage that is gone stays on show. */
  lemma StaleFaviconKept(logoUrl: string, hostnameOf: Favicon.HostnameOf)
    requires Contains(logoUrl, FAVICON_MARKER)
    ensures DisplayLogo(Some(logoUrl), None, hostnameOf) == logoUrl
    ensures DisplayLogo(Some(logoUrl), Some(""), hostnameOf) == logoUrl
  {
    assert logoUrl != "" by {
      var i := IndexOf(logoUrl, FAVICON_MARKER).value;
      assert |FAVICON_MARKER| == 16;
      assert OccursAt(logoUrl, FAVICON_MARKER, i);
    }
  }

  /** `homepageUrl || repoUrl`: the homepage when it is set, else the repository as it is. */
  function PrimaryUrl(homepageUrl: Option<string>, repoUrl: Option<string>): (r: Option<string>)
    ensures OrNull(homepageUrl).Some? ==> r == homepageUrl
    ensures OrNull(homepageUrl).None? ==> r == repoUrl
  {
    if OrNull(homepageUrl).Some? then homepageUrl else repoUrl
  }

  /** The links of the header; `None` where a button is not shown. */
  datatype HeaderLinks = HeaderLinks(logo: string, visit: Option<string>, docs: Option<string>, repo: Option<string>)

  /** `ServerHeader`: each button is shown exactly when its URL is set. */
  function Header(server: Server, hostnameOf: Favicon.HostnameOf): (h: HeaderLinks)
    ensures h.logo == DisplayLogo(server.logoUrl, server.homepageUrl, hostnameOf)
    ensures h.visit == OrNull(PrimaryUrl(server.homepageUrl, server.repoUrl))
    ensures h.docs == OrNull(server.docsUrl)
    ensures h.repo == OrNull(server.repoUrl)
  {
    HeaderLinks(DisplayLogo(server.logoUrl, server.homepageUrl, hostnameOf),
                OrNull(PrimaryUrl(server.homepageUrl, server.repoUrl)),
                OrNull(server.docsUrl),
                OrNull(server.repoUrl))
  }

  /** Visit is shown iff there is a homepage or a repository, and goes to the homepage first. */
  lemma VisitShownIff(server: Server, hostnameOf: Favicon.HostnameOf)
    ensures Header(server, hostnameOf).visit.Some? <==>
            OrNull(server.homepageUrl).Some? || OrNull(server.repoUrl).Some?
    ensures OrNull(server.homepageUrl).Some? ==> Header(server, hostnameOf).visit == server.homepageUrl
    ensures OrNull(server.homepageUrl).None? ==> Header(server, hostnameOf).visit == OrNull(server.repoUrl)
  {
  }

  /** Whenever a header link is shown it is a non-empty URL. */
  lemma ShownLinksNonEmpty(server: Server, hostnameOf: Favicon.HostnameOf)
    ensures var h := Header(server, hostnameOf);
            (h.visit.Some? ==> h.visit.value != "") && (h.docs.Some? ==> h.docs.value != "")
            && (h.repo.Some? ==> h.repo.value != "") && h.logo != ""
  {
  }

  /** The README tab: the stored text when there is one, else the placeholder. */
  function ReadmeTab(server: Server): (v: Markdown.ReadmeView)
    ensures v.Rendered? <==> OrNull(server.readmeContent).Some?
    ensures v.Rendered? ==> v.markdown == server.readmeContent.value
    ensures v.Placeholder? ==> v.githubLink == Markdown.ReadmeLink(server.repoUrl)
  {
    if OrNull(server.readmeContent).Some? then Markdown.Rendered(server.readmeContent.value)
    else Markdown.Placeholder(Markdown.ReadmeLink(server.repoUrl))
  }

  /** The tab's placeholder links where the markdown renderer's would, and only for an absent README. */
  lemma ReadmeTabAgreesOnPlaceholder(server: Server)
    ensures OrNull(server.readmeContent).None? ==>
      ReadmeTab(server) == Markdown.RenderReadme(server.readmeContent, server.repoUrl)
  {
    if OrNull(server.readmeContent).None? {
      assert Markdown.CleanedContent(server.readmeContent) == "";
    }
  }
}
