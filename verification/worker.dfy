/** The request handler: an asset path is first tried against the Webflow CDN and
    served from there when the CDN confirms it by content type; everything else, and
    every asset the CDN does not confirm, is proxied to the Webflow site, whose HTML
    pages get their CDN URLs rewritten to the local prefix.

    Each upstream fetch is the function `fetch` from the request issued to the
    response obtained, so the handler is a pure function of the client request, the
    site origin and `fetch`. */
module Worker {
  import opened Wrappers
  import opened Strings
  import opened Http
  import opened Assets
  import opened Cdn

  /** The `cache-control` value put on every response. */
  const IMMUTABLE_YEAR: string := "public, max-age=31536000, immutable"
  /** `x-proxy-origin` values: served by the CDN, or by the site. */
  const FROM_CDN: string := "webflow-cdn"
  const FROM_SITE: string := "webflow"

  /** The site origin (`WEBFLOW_URL`), given as its base URL and its host name. */
  datatype Origin = Origin(base: string, hostname: string)

  /** What became of the attempt to serve a request from the CDN. */
  datatype AssetAttempt =
    | NotAnAsset
    | Served(cdnRequest: Outbound, response: Response)
    | FellThrough(cdnRequest: Outbound)

  /** The requests issued upstream, in order, and the response returned to the client. */
  datatype Handled = Handled(issued: seq<Outbound>, response: Response)

  /** The CDN request: always a GET without headers or body, for the path with the
      local prefix stripped, followed by the query string. */
  function CdnRequest(req: Request): (r: Outbound)
    ensures r.verb == "GET" && r.base == CDN_ORIGIN && r.headers == map[] && r.body == None
    ensures StartsWith(req.path, CDN_PREFIX) ==> CDN_PREFIX + r.target == req.path + req.search
    ensures !StartsWith(req.path, CDN_PREFIX) ==> r.target == req.path + req.search
  {
    Outbound("GET", CDN_ORIGIN, OriginPath(req.path) + req.search, map[], None)
  }

  /** Headers of a response served from the CDN: tagged as CDN-served, cached for a
      year, without `content-length`, and otherwise the CDN's own. */
  function AssetHeaders(h: Headers): (r: Headers)
    ensures X_PROXY_ORIGIN in r && r[X_PROXY_ORIGIN] == FROM_CDN
    ensures CACHE_CONTROL in r && r[CACHE_CONTROL] == IMMUTABLE_YEAR
    ensures CONTENT_LENGTH !in r
    ensures SameOutside(r, h, {X_PROXY_ORIGIN, CACHE_CONTROL, CONTENT_LENGTH})
  {
    h[X_PROXY_ORIGIN := FROM_CDN][CACHE_CONTROL := IMMUTABLE_YEAR] - {CONTENT_LENGTH}
  }

  /** The asset attempt: only for an asset path is the CDN asked, and its answer is
      served only when its content type passes the verifier. */
  function TryAsset(req: Request, fetch: Outbound -> Response): (r: AssetAttempt)
    ensures r.NotAnAsset? <==> !IsAssetPath(req.path)
    ensures !r.NotAnAsset? ==> r.cdnRequest == CdnRequest(req)
    ensures r.Served? <==>
      IsAssetPath(req.path) && IsAssetType(Get(fetch(CdnRequest(req)).headers, CONTENT_TYPE))
    ensures r.Served? ==>
      var cdn := fetch(CdnRequest(req));
      && r.response.status == cdn.status
      && r.response.body == cdn.body
      && X_PROXY_ORIGIN in r.response.headers && r.response.headers[X_PROXY_ORIGIN] == FROM_CDN
      && CACHE_CONTROL in r.response.headers && r.response.headers[CACHE_CONTROL] == IMMUTABLE_YEAR
      && CONTENT_LENGTH !in r.response.headers
      && SameOutside(r.response.headers, cdn.headers, {X_PROXY_ORIGIN, CACHE_CONTROL, CONTENT_LENGTH})
  {
    if !IsAssetPath(req.path) then NotAnAsset
    else
      var cdnRequest := CdnRequest(req);
      var cdn := fetch(cdnRequest);
      if IsAssetType(Get(cdn.headers, CONTENT_TYPE)) then
        Served(cdnRequest, Response(cdn.status, AssetHeaders(cdn.headers), cdn.body))
      else
        FellThrough(cdnRequest)
  }

  /** The client's body is passed on unless the method is GET or HEAD. */
  predicate ForwardsBody(verb: string) {
    verb != "GET" && verb != "HEAD"
  }

  /** The request to the site: the client's method, the original (unstripped) path and
      query string, the client's headers with `host` set to the site's host name,
      and the client's body unless the method is GET or HEAD. */
  function SiteRequest(req: Request, site: Origin): (r: Outbound)
    ensures r.verb == req.verb && r.base == site.base
    ensures r.target == req.path + req.search
    ensures HOST in r.headers && r.headers[HOST] == site.hostname
    ensures SameOutside(r.headers, req.headers, {HOST})
    ensures r.verb == "GET" || r.verb == "HEAD" ==> r.body == None
    ensures r.verb != "GET" && r.verb != "HEAD" ==> r.body == req.body
  {
    Outbound(
      req.verb,
      site.base,
      req.path + req.search,
      req.headers[HOST := site.hostname],
      if ForwardsBody(req.verb) then req.body else None)
  }

  /** Headers of a response from the site: tagged as site-served, cached for a year,
      and otherwise the site's own. */
  function SiteHeaders(h: Headers): (r: Headers)
    ensures X_PROXY_ORIGIN in r && r[X_PROXY_ORIGIN] == FROM_SITE
    ensures CACHE_CONTROL in r && r[CACHE_CONTROL] == IMMUTABLE_YEAR
    ensures SameOutside(r, h, {X_PROXY_ORIGIN, CACHE_CONTROL})
  {
    h[X_PROXY_ORIGIN := FROM_SITE][CACHE_CONTROL := IMMUTABLE_YEAR]
  }

  /** The content-type fragment that marks a site response as an HTML page. */
  const HTML_TYPE: string := "text/html"

  /** `headers.get('content-type')?.includes('text/html')`: the response is an HTML
      page exactly when its content type is present and "text/html" occurs in it at
      some index. */
  function IsHtml(h: Headers): (r: bool)
    ensures r <==> CONTENT_TYPE in h && exists i :: OccursAt(h[CONTENT_TYPE], HTML_TYPE, i)
  {
    match Get(h, CONTENT_TYPE)
    case Some(ct) => ContainsIffOccurs(ct, HTML_TYPE); Contains(ct, HTML_TYPE)
    case None => false
  }

  /** The response returned for the site's answer `up`. An HTML page has its CDN URLs
      rewritten and loses `content-length`; anything else keeps its body and
      `content-length`. Status is kept, and the tag and cache headers are set. */
  function SiteResponse(up: Response): (r: Response)
    ensures r.status == up.status
    ensures X_PROXY_ORIGIN in r.headers && r.headers[X_PROXY_ORIGIN] == FROM_SITE
    ensures CACHE_CONTROL in r.headers && r.headers[CACHE_CONTROL] == IMMUTABLE_YEAR
    ensures IsHtml(up.headers) ==>
      && r.body == RewriteHtml(up.body)
      && !Contains(r.body, CDN_ORIGIN)
      && (!Contains(up.body, CDN_ORIGIN) ==> r.body == up.body)
      && CONTENT_LENGTH !in r.headers
      && SameOutside(r.headers, up.headers, {X_PROXY_ORIGIN, CACHE_CONTROL, CONTENT_LENGTH})
    ensures !IsHtml(up.headers) ==>
      && r.body == up.body
      && SameOutside(r.headers, up.headers, {X_PROXY_ORIGIN, CACHE_CONTROL})
  {
    var headers := SiteHeaders(up.headers);
    assert Get(headers, CONTENT_TYPE) == Get(up.headers, CONTENT_TYPE);
    if IsHtml(headers) then
      Response(up.status, headers - {CONTENT_LENGTH}, RewriteHtml(up.body))
    else
      Response(up.status, headers, up.body)
  }

  /** The handler `fetch(request, env)`. */
  function Handle(req: Request, site: Origin, fetch: Outbound -> Response): (r: Handled)
    ensures 1 <= |r.issued| <= 2
    ensures X_PROXY_ORIGIN in r.response.headers
    ensures CACHE_CONTROL in r.response.headers && r.response.headers[CACHE_CONTROL] == IMMUTABLE_YEAR
    // The CDN is asked first for an asset path, and never for any other path.
    ensures IsAssetPath(req.path) ==> r.issued[0] == CdnRequest(req)
    ensures !IsAssetPath(req.path) ==> r.issued == [SiteRequest(req, site)]
    // The CDN's answer is served exactly when the path and content-type tests both pass;
    // otherwise the site is asked last, and its answer is returned.
    ensures r.response.headers[X_PROXY_ORIGIN] == FROM_CDN <==>
      IsAssetPath(req.path) && IsAssetType(Get(fetch(CdnRequest(req)).headers, CONTENT_TYPE))
    ensures r.response.headers[X_PROXY_ORIGIN] == FROM_CDN ==> r.issued == [CdnRequest(req)]
    // A CDN-served response is the CDN's status and body under the asset headers.
    ensures r.response.headers[X_PROXY_ORIGIN] == FROM_CDN ==>
      var cdn := fetch(CdnRequest(req));
      r.response == Response(cdn.status, AssetHeaders(cdn.headers), cdn.body)
    ensures r.response.headers[X_PROXY_ORIGIN] != FROM_CDN ==>
      && r.response.headers[X_PROXY_ORIGIN] == FROM_SITE
      && r.issued[|r.issued| - 1] == SiteRequest(req, site)
      && r.response == SiteResponse(fetch(SiteRequest(req, site)))
  {
    match TryAsset(req, fetch)
    case Served(cdnRequest, response) =>
      Handled([cdnRequest], response)
    case NotAnAsset =>
      var siteRequest := SiteRequest(req, site);
      Handled([siteRequest], SiteResponse(fetch(siteRequest)))
    case FellThrough(cdnRequest) =>
      var siteRequest := SiteRequest(req, site);
      Handled([cdnRequest, siteRequest], SiteResponse(fetch(siteRequest)))
  }

  /** A CDN URL rewritten into a page routes back to the CDN: when the browser asks
      for the rewritten path and it is an asset path, the first request the worker
      issues goes to the CDN origin with exactly the original URL's remainder. */
  lemma RewrittenLinkReachesCdn(q: string, req: Request, site: Origin, fetch: Outbound -> Response)
    requires !Contains(q, CDN_ORIGIN)
    requires req.path == RewriteHtml(CDN_ORIGIN + q)
    requires IsAssetPath(req.path)
    ensures req.path == CDN_PREFIX + q
    ensures var first := Handle(req, site, fetch).issued[0];
      first.verb == "GET" && first.base == CDN_ORIGIN && first.target == q + req.search
  {
    RewrittenUrlStripsBack(q);
    assert req.path[..|CDN_PREFIX|] == CDN_PREFIX;
  }

  /** The round trip closes only for asset paths: a rewritten CDN link whose path has
      none of the sixteen extensions is asked of the site, prefix and all, and the
      CDN is never asked. */
  lemma RewrittenOtherLinkMissesCdn(q: string, req: Request, site: Origin, fetch: Outbound -> Response)
    requires !Contains(q, CDN_ORIGIN)
    requires req.path == RewriteHtml(CDN_ORIGIN + q)
    requires !IsAssetPath(req.path)
    ensures Handle(req, site, fetch).issued == [SiteRequest(req, site)]
    ensures SiteRequest(req, site).target == CDN_PREFIX + q + req.search
  {
    RewrittenUrlStripsBack(q);
  }

  /** Such links exist: a video on the CDN at `q` == "/v.mp4" is rewritten to
      "/_wfcdn/v.mp4", which is not an asset path. The literal is passed as a
      parameter fixed by `requires`, which keeps the verifier from unfolding the
      string functions on it eagerly. */
  lemma VideoLinkIsNotAsset(q: string)
    requires q == "/v.mp4"
    ensures !Contains(q, CDN_ORIGIN)
    ensures !IsAssetPath(CDN_PREFIX + q)
  {
    NotContainsWithoutFirstChar(q, CDN_ORIGIN);
    var low := Lower(CDN_PREFIX + q);
    assert low[|low| - 4..] == ".mp4";
    VideoPathIsNotAsset(CDN_PREFIX + q);
  }

  /** An HTML page answered by the CDN for an asset path is not served: the worker
      falls through to the site with the original path. */
  lemma CdnHtmlFallsThrough(req: Request, site: Origin, fetch: Outbound -> Response)
    requires IsAssetPath(req.path)
    requires Get(fetch(CdnRequest(req)).headers, CONTENT_TYPE) == Some("text/html")
    ensures Handle(req, site, fetch).issued == [CdnRequest(req), SiteRequest(req, site)]
    ensures Handle(req, site, fetch).issued[1].target == req.path + req.search
    ensures Handle(req, site, fetch).response.headers[X_PROXY_ORIGIN] == FROM_SITE
  {
    HtmlTypeRejected();
  }

  /** A script fetched from the CDN: `GET /app.js` answered with
      "application/javascript" is served with the CDN's status and body, tagged and
      cached, and without `content-length`. */
  lemma ServesScriptFromCdn(site: Origin, fetch: Outbound -> Response)
    requires forall o :: fetch(o) == Response(200, map[CONTENT_TYPE := "application/javascript", CONTENT_LENGTH := "1"], "X")
    ensures var r := Handle(Request("GET", "/app.js", "", map[], None), site, fetch);
      && r.issued == [Outbound("GET", CDN_ORIGIN, "/app.js", map[], None)]
      && r.response.status == 200
      && r.response.body == "X"
      && r.response.headers == map[CONTENT_TYPE := "application/javascript",
                                   X_PROXY_ORIGIN := FROM_CDN, CACHE_CONTROL := IMMUTABLE_YEAR]
  {
    var path, ct := "/app.js", "application/javascript";
    ScriptIsAsset(path, ct);
    var req := Request("GET", path, "", map[], None);
    assert path[1] != CDN_PREFIX[1];
    var cdnRequest := CdnRequest(req);
    assert cdnRequest == Outbound("GET", CDN_ORIGIN, path, map[], None);
    var up := fetch(cdnRequest);
    var served := map[CONTENT_TYPE := ct, X_PROXY_ORIGIN := FROM_CDN, CACHE_CONTROL := IMMUTABLE_YEAR];
    assert AssetHeaders(up.headers).Keys == served.Keys;
    assert TryAsset(req, fetch) == Served(cdnRequest, Response(200, served, "X"));
  }

  /** A page from the site: its CDN URLs are rewritten to the local prefix and its
      `content-length` is dropped; the status is kept. */
  lemma RewritesSitePage(req: Request, site: Origin, fetch: Outbound -> Response, q: string)
    requires !IsAssetPath(req.path)
    requires !Contains(q, CDN_ORIGIN)
    requires forall o :: fetch(o) == Response(200, map[CONTENT_TYPE := "text/html", CONTENT_LENGTH := "99"], CDN_ORIGIN + q)
    ensures var r := Handle(req, site, fetch);
      && r.response.status == 200
      && r.response.body == CDN_PREFIX + q
      && CONTENT_LENGTH !in r.response.headers
      && r.response.headers[X_PROXY_ORIGIN] == FROM_SITE
  {
    var up := fetch(SiteRequest(req, site));
    assert OccursAt(up.headers[CONTENT_TYPE], HTML_TYPE, 0);
    assert IsHtml(up.headers);
    RewrittenUrlStripsBack(q);
    assert SiteResponse(up).body == CDN_PREFIX + q;
    assert Handle(req, site, fetch).response == SiteResponse(up);
  }
}
