/**
 * The schema.org description embedded in a server's page: a
 * `SoftwareApplication` with the server's name, summary and link, offered
 * free of charge.
 */
module JsonLd {
  import opened Wrappers
  import opened Text
  import opened Schema
  import ServerContent

  const CONTEXT: string := "https://schema.org"
  const APPLICATION_TYPE: string := "SoftwareApplication"
  const APPLICATION_CATEGORY: string := "DeveloperApplication"
  const OPERATING_SYSTEM: string := "Cross-platform"
  const SOFTWARE_VERSION: string := "Latest"
  const AUTHOR_TYPE: string := "Organization"
  const OFFER_TYPE: string := "Offer"
  const PRICE: string := "0"
  const PRICE_CURRENCY: string := "USD"

  datatype Author = Author(kind: string, name: string)
  datatype Offer = Offer(kind: string, price: string, priceCurrency: string)

  /** The JSON-LD object; `url` is `None` where the source gives null. */
  datatype SoftwareApplication = SoftwareApplication(
    context: string,
    kind: string,
    name: string,
    description: string,
    url: Option<string>,
    applicationCategory: string,
    operatingSystem: string,
    softwareVersion: string,
    author: Author,
    offers: Offer)

  /** `generateServerJsonLd`: nothing for no server; otherwise the server's fields and the fixed ones. */
  function ServerJsonLd(server: Option<Server>): (r: Option<SoftwareApplication>)
    ensures r.None? <==> server.None?
    ensures r.Some? ==>
      var app := r.value;
      && app.name == server.value.name && app.author.name == server.value.name
      && app.description == server.value.shortDesc
      && app.url == (if OrNull(server.value.homepageUrl).Some? then server.value.homepageUrl else server.value.repoUrl)
    ensures r.Some? ==>
      var app := r.value;
      && app.context == CONTEXT && app.kind == APPLICATION_TYPE
      && app.applicationCategory == APPLICATION_CATEGORY && app.operatingSystem == OPERATING_SYSTEM
      && app.softwareVersion == SOFTWARE_VERSION && app.author.kind == AUTHOR_TYPE
      && app.offers == Offer(OFFER_TYPE, PRICE, PRICE_CURRENCY)
  {
    match server
    case None => None
    case Some(s) =>
      Some(SoftwareApplication(
        CONTEXT, APPLICATION_TYPE, s.name, s.shortDesc,
        ServerContent.PrimaryUrl(s.homepageUrl, s.repoUrl),
        APPLICATION_CATEGORY, OPERATING_SYSTEM, SOFTWARE_VERSION,
        Author(AUTHOR_TYPE, s.name),
        Offer(OFFER_TYPE, PRICE, PRICE_CURRENCY)))
  }

  /** The description's link is the page's Visit link whenever that one is shown. */
  lemma JsonLdUrlIsVisitLink(server: Server, hostnameOf: string -> Option<string>)
    ensures var visit := ServerContent.Header(server, hostnameOf).visit;
            visit.Some? ==> ServerJsonLd(Some(server)).value.url == visit
  {
    ServerContent.VisitShownIff(server, hostnameOf);
  }

  /** Two servers with the same name, summary, homepage and repository describe themselves alike. */
  lemma JsonLdDependsOnFourFields(a: Server, b: Server)
    requires a.name == b.name && a.shortDesc == b.shortDesc
    requires a.homepageUrl == b.homepageUrl && a.repoUrl == b.repoUrl
    ensures ServerJsonLd(Some(a)) == ServerJsonLd(Some(b))
  {
  }
}
