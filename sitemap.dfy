/**
 * The sitemap: the home page, the submit page, then one page per
 * server. The clock is the `now` parameter.
 */
module Sitemap {
  import opened Schema

  /** `websiteConfig.url`. */
  const WEBSITE_URL: string := "https://mcpserverslist.com"
  const SUBMIT_PATH: string := "/submit"
  const SERVER_PATH: string := "/server/"

  datatype ChangeFrequency = Daily | Weekly | Monthly

  datatype Entry = Entry(url: string, lastModified: Timestamp, changeFrequency: ChangeFrequency, priority: real)

  function ServerUrl(slug: string): (u: string)
    ensures |u| == |WEBSITE_URL| + |SERVER_PATH| + |slug|
  {
    WEBSITE_URL + SERVER_PATH + slug
  }

  /** A server's page, reviewed weekly, dated by its last update. */
  function ServerEntry(server: Server): (e: Entry)
    ensures e.url == ServerUrl(server.slug) && e.lastModified == server.updatedAt
    ensures e.changeFrequency == Weekly && e.priority == 0.8
  {
    Entry(ServerUrl(server.slug), server.updatedAt, Weekly, 0.8)
  }

  /** `sitemap`: the two fixed pages dated now, then the servers' pages in the order given. */
  function SitemapEntries(servers: seq<Server>, now: Timestamp): (r: seq<Entry>)
    ensures |r| == |servers| + 2
    ensures r[0] == Entry(WEBSITE_URL, now, Daily, 1.0)
    ensures r[1] == Entry(WEBSITE_URL + SUBMIT_PATH, now, Monthly, 0.5)
    ensures forall k :: 0 <= k < |servers| ==> r[k + 2] == ServerEntry(servers[k])
  {
    var serverUrls := seq(|servers|, k requires 0 <= k < |servers| => ServerEntry(servers[k]));
    [Entry(WEBSITE_URL, now, Daily, 1.0), Entry(WEBSITE_URL + SUBMIT_PATH, now, Monthly, 0.5)] + serverUrls
  }

  /** Distinct slugs give distinct server pages. */
  lemma ServerUrlInjective(a: string, b: string)
    ensures ServerUrl(a) == ServerUrl(b) ==> a == b
  {
    var n := |WEBSITE_URL| + |SERVER_PATH|;
    assert ServerUrl(a)[n..] == a;
    assert ServerUrl(b)[n..] == b;
  }

  /** With distinct slugs, as the stored table keeps them, no URL appears twice in the sitemap. */
  lemma SitemapUrlsDistinct(servers: seq<Server>, now: Timestamp)
    requires Distinct(ServerSlugs(servers))
    ensures var r := SitemapEntries(servers, now);
            forall i, j :: 0 <= i < j < |r| ==> r[i].url != r[j].url
  {
    var r := SitemapEntries(servers, now);
    assert |WEBSITE_URL| == 26;
    forall i, j | 0 <= i < j < |r|
      ensures r[i].url != r[j].url
    {
      if i >= 2 {
        assert ServerSlugs(servers)[i - 2] != ServerSlugs(servers)[j - 2];
        ServerUrlInjective(servers[i - 2].slug, servers[j - 2].slug);
      } else if j >= 2 {
        assert |r[j].url| >= |WEBSITE_URL| + |SERVER_PATH|;
      }
    }
  }

  /** Every stored server has its page in the sitemap. */
  lemma SitemapListsEveryServer(t: Tables, now: Timestamp, server: Server)
    requires server in t.servers
    ensures ServerEntry(server) in SitemapEntries(t.servers, now)
  {
    var k :| 0 <= k < |t.servers| && t.servers[k] == server;
    assert SitemapEntries(t.servers, now)[k + 2] == ServerEntry(server);
  }
}
