/**
 * The site-wide text views (cake_it_easy_v2/views.py): `robots.txt` and the
 * minimal XML sitemap. URL reversal and `build_absolute_uri` are a table from
 * route name to absolute URL; a name missing from it is a route whose reverse
 * raises.
 */
module SiteViews {
  import opened Text

  // ---------------------------------------------------------------------------
  // robots.txt
  // ---------------------------------------------------------------------------

  function RobotsLines(sitemapUrl: string): seq<string> {
    [ "User-agent: *",
      "Disallow: /bag/",
      "Disallow: /checkout/",
      "Disallow: /accounts/",
      "Disallow: /admin/",
      "Sitemap: " + sitemapUrl ]
  }

  /** `robots_txt`: the lines joined with newlines. */
  function RobotsTxt(sitemapUrl: string): string {
    Join(RobotsLines(sitemapUrl), "\n")
  }

  /**
   * For a sitemap URL without a newline, the body reads back as exactly six
   * lines: the user agent, four Disallow rules and the sitemap location.
   */
  lemma RobotsTxtLines(sitemapUrl: string)
    requires '\n' !in sitemapUrl
    ensures var lines := Split(RobotsTxt(sitemapUrl), "\n");
      && |lines| == 6
      && lines[0] == "User-agent: *"
      && lines[1..5] == ["Disallow: /bag/", "Disallow: /checkout/", "Disallow: /accounts/", "Disallow: /admin/"]
      && lines[5] == "Sitemap: " + sitemapUrl
  {
    var ls := RobotsLines(sitemapUrl);
    assert '\n' !in "Sitemap: ";
    assert ls[5] == "Sitemap: " + sitemapUrl;
    SplitJoin(ls, '\n');
  }

  // ---------------------------------------------------------------------------
  // sitemap.xml
  // ---------------------------------------------------------------------------

  /** The route names the sitemap lists, in order. */
  const UrlNames: seq<string> := ["home", "product_list", "product_cakes", "product_accessories", "product_offers", "about"]

  const XmlDeclaration := "<?xml version=\"1.0\" encoding=\"UTF-8\"?>"
  const UrlsetOpen := "<urlset xmlns=\"http://www.sitemaps.org/schemas/sitemap/0.9\">"
  const UrlsetClose := "</urlset>"

  /** The absolute URLs of the names that resolve, in the names' order. */
  function ResolvedUrls(names: seq<string>, routes: map<string, string>): (urls: seq<string>)
    ensures |urls| <= |names|
  {
    if names == [] then []
    else
      var last := names[|names| - 1];
      ResolvedUrls(names[..|names| - 1], routes) + (if last in routes then [routes[last]] else [])
  }

  /** Every collected URL is a resolved name's, and every name that resolves contributes its URL. */
  lemma {:induction false} ResolvedUrlsSpec(names: seq<string>, routes: map<string, string>)
    ensures forall u <- ResolvedUrls(names, routes) :: exists n <- names :: n in routes && routes[n] == u
    ensures forall n <- names :: n in routes ==> routes[n] in ResolvedUrls(names, routes)
  {
    if names != [] {
      var init := names[..|names| - 1];
      ResolvedUrlsSpec(init, routes);
      forall n <- names ensures n in init || n == names[|names| - 1] {
        var k :| 0 <= k < |names| && names[k] == n;
        if k < |init| { assert init[k] == n; }
      }
    }
  }

  /**
   * The URLs follow the order of the names: the names of two runs contribute
   * the first run's URLs before the second's, and a single name contributes
   * its URL when it resolves and nothing otherwise.
   */
  lemma {:induction false} ResolvedUrlsAppend(a: seq<string>, b: seq<string>, routes: map<string, string>)
    ensures ResolvedUrls(a + b, routes) == ResolvedUrls(a, routes) + ResolvedUrls(b, routes)
    ensures |b| == 1 ==> ResolvedUrls(b, routes) == (if b[0] in routes then [routes[b[0]]] else [])
  {
    if b == [] {
      assert a + b == a;
    } else {
      assert (a + b)[..|a + b| - 1] == a + b[..|b| - 1];
      ResolvedUrlsAppend(a, b[..|b| - 1], routes);
    }
  }

  /** One `<url>` entry: three lines, the URL inserted verbatim. */
  function UrlBlock(u: string): seq<string> {
    ["  <url>", "    <loc>" + u + "</loc>", "  </url>"]
  }

  function Blocks(urls: seq<string>): (lines: seq<string>)
    ensures |lines| == 3 * |urls|
  {
    if urls == [] then [] else Blocks(urls[..|urls| - 1]) + UrlBlock(urls[|urls| - 1])
  }

  /** The sitemap's lines: declaration, `<urlset>`, one block per URL, `</urlset>`. */
  function SitemapLines(urls: seq<string>): seq<string> {
    [XmlDeclaration, UrlsetOpen] + Blocks(urls) + [UrlsetClose]
  }

  /** Block `i` sits at lines `3i .. 3i + 2` and carries the `i`-th URL. */
  lemma {:induction false} BlocksAt(urls: seq<string>, i: nat)
    requires i < |urls|
    ensures Blocks(urls)[3 * i .. 3 * i + 3] == UrlBlock(urls[i])
  {
    var init := urls[..|urls| - 1];
    assert Blocks(urls) == Blocks(init) + UrlBlock(urls[|urls| - 1]);
    if i < |urls| - 1 {
      BlocksAt(init, i);
      assert Blocks(urls)[3 * i .. 3 * i + 3] == Blocks(init)[3 * i .. 3 * i + 3];
    }
  }

  /**
   * The sitemap has 3 + 3n lines for n resolved URLs: the two header lines,
   * a `<loc>` line per URL in order, and the closing tag last.
   */
  lemma SitemapLinesSpec(urls: seq<string>)
    ensures var lines := SitemapLines(urls);
      && |lines| == 3 + 3 * |urls|
      && lines[0] == XmlDeclaration && lines[1] == UrlsetOpen
      && lines[|lines| - 1] == UrlsetClose
      && forall i :: 0 <= i < |urls| ==> lines[2 + 3 * i .. 5 + 3 * i] == UrlBlock(urls[i])
  {
    var lines := SitemapLines(urls);
    forall i | 0 <= i < |urls| ensures lines[2 + 3 * i .. 5 + 3 * i] == UrlBlock(urls[i]) {
      BlocksAt(urls, i);
      assert lines[2 + 3 * i .. 5 + 3 * i] == Blocks(urls)[3 * i .. 3 * i + 3];
    }
  }

  /** The first loop of `sitemap_xml`: the URLs of the names that resolve, the rest skipped. */
  method CollectUrls(names: seq<string>, routes: map<string, string>) returns (urls: seq<string>)
    ensures urls == ResolvedUrls(names, routes)
  {
    urls := [];
    for i := 0 to |names|
      invariant urls == ResolvedUrls(names[..i], routes)
    {
      assert names[..i + 1][..i] == names[..i];
      if names[i] in routes {
        urls := urls + [routes[names[i]]];
      }
    }
    assert names[..|names|] == names;
  }

  /** The second loop of `sitemap_xml`: header, one block per URL, closing tag. */
  method BuildBody(urls: seq<string>) returns (body: seq<string>)
    ensures body == SitemapLines(urls)
  {
    body := [XmlDeclaration, UrlsetOpen];
    for j := 0 to |urls|
      invariant body == [XmlDeclaration, UrlsetOpen] + Blocks(urls[..j])
    {
      assert urls[..j + 1][..j] == urls[..j];
      body := body + UrlBlock(urls[j]);
    }
    assert urls[..|urls|] == urls;
    body := body + [UrlsetClose];
  }

  /** `sitemap_xml`: the body's lines joined with newlines. */
  method SitemapXml(routes: map<string, string>) returns (xml: string)
    ensures xml == Join(SitemapLines(ResolvedUrls(UrlNames, routes)), "\n")
  {
    var urls := CollectUrls(UrlNames, routes);
    var body := BuildBody(urls);
    xml := Join(body, "\n");
  }
}
