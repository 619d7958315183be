# webflow-wp-proxy request handler, modelled in Dafny

The worker is a Cloudflare Worker that sits in front of a Webflow site. It presents
the site and the Webflow CDN (`https://cdn.prod.website-files.com`) as one host.
Its single `fetch` handler does the following:

- It classifies the request path as a candidate asset when the lower-cased path
  ends with one of sixteen file extensions.
- For a candidate asset it asks the CDN with a GET. A leading `/_wfcdn` is removed
  from the path first. It serves the CDN's answer only if the answer's
  `content-type` contains one of seven fragments. That answer is tagged
  `x-proxy-origin: webflow-cdn`, cached for a year, and loses `content-length`.
- Every other request, including an asset the CDN did not confirm, is proxied to
  the site (`WEBFLOW_URL`). The proxied request keeps the client's method, headers
  and original path. `host` is set to the site's host name. The body is forwarded
  only when the method is neither GET nor HEAD.
- The site's answer is tagged `x-proxy-origin: webflow` and cached for a year. When
  it is HTML, every literal occurrence of the CDN origin in the body is replaced
  by `/_wfcdn`, and `content-length` is dropped.

The model is a set of pure functions. Each upstream fetch is a parameter
`fetch: Outbound -> Response`, so the handler `Worker.Handle` maps (client request,
site origin, `fetch`) to (the requests issued, the response returned).

Modules:
- `Strings`: `startsWith`, `endsWith`, `includes` and ASCII case mapping.
- `Replace`: `String.prototype.replace` and `replaceAll` for a literal pattern. The
  replacement string is inserted literally, and `$` substitution patterns are not
  interpreted. The module includes the general theorem that a replacement which
  cannot recombine with the surrounding text leaves no occurrence of the pattern.
- `Assets`: the extension test and the content-type test.
- `Cdn`: prefix stripping and the HTML rewrite.
- `Http`: header maps, requests and responses.
- `Worker`: the handler.

Three details of the code are modelled as written:
- The prefix is stripped with a plain `startsWith`, so no `/` separator is needed:
  `/_wfcdnx.js` is sent to the CDN as `x.js`.
- A failed CDN fetch is not recovered from. There is no try/catch, so it
  propagates (see Left out).
- There is one CDN origin and one site origin. There is no multi-prefix or
  path-based origin routing.

A consequence the model makes explicit is that the rewrite is unconditional but the
route back is not. A CDN URL whose path has none of the sixteen extensions (a video,
say) is rewritten to `/_wfcdn/...`, and that path is then sent to the site rather
than to the CDN (`Worker.RewrittenOtherLinkMissesCdn`, `Worker.VideoLinkIsNotAsset`).

## Model

| member | source | states |
|---|---|---|
| `Strings.ContainsIffOccurs` | src/index.ts:44-50 | `includes` holds exactly when the fragment occurs at some index of the string |
| `Replace.ReplaceFirst` | src/index.ts:31 | `replace` shortens the string by the pattern's length and lengthens it by the replacement's when the pattern occurs, and keeps the length otherwise |
| `Replace.ReplaceFirstLeftmost` | src/index.ts:31 | when `i` is the leftmost index at which the pattern occurs, `replace` gives the text before `i`, then the replacement, then the text after that occurrence |
| `Replace.ReplaceFirstAbsent` | src/index.ts:31 | `replace` leaves a string without the pattern unchanged |
| `Replace.ReplaceAllAbsent` | src/index.ts:95 | `replaceAll` leaves a string without the (non-empty) pattern unchanged |
| `Replace.ReplaceAll` | src/index.ts:95 | `replaceAll` of a pattern by itself gives back the string, for every string and pattern, the empty pattern included |
| `Replace.ReplaceAllSplit` | src/index.ts:95 | for a pattern whose first character does not recur in it, `replaceAll` on the text before an occurrence, the occurrence, and the text after it gives the replaced text before, the replacement, and the replaced text after |
| `Replace.ReplaceAllKeepsCount` | src/index.ts:95 | for such a pattern and a non-empty replacement, the result holds at least as many occurrences of the replacement as the input held of the pattern |
| `Replace.SuffixComesFromInput` | src/index.ts:95 | when the replacement cannot recombine with its neighbours, any proper suffix of the pattern that starts the output already started the input |
| `Replace.ReplaceAllRemovesPattern` | src/index.ts:95 | when the replacement cannot recombine with its neighbours, no occurrence of the pattern is left after `replaceAll` |
| `Replace.ReplaceAllIdempotent` | src/index.ts:95 | under the same condition, applying `replaceAll` twice gives the same result as applying it once |
| `Replace.ReplaceAllScan` | src/index.ts:95 | the left-to-right match-and-copy scan computes `replaceAll`, including for an empty pattern |
| `Assets.EndsWithAny` | src/index.ts:27 | `exts.some(ext => s.endsWith(ext))` holds exactly when some listed extension ends `s` |
| `Assets.IsAssetPath` | src/index.ts:18-27 | a path is an asset candidate exactly when its ASCII lower-cased form ends with one of the sixteen extensions; paths shorter than 3 characters (the empty path among them) never are |
| `Assets.AssetPathIgnoresCase` | src/index.ts:27 | upper- or lower-casing the path does not change the test |
| `Assets.EndsWithIffExtension` | src/index.ts:27 | for an extension of the form "." plus non-dot characters, ending with it is the same as having it after the last '.' |
| `Assets.AssetPathIffExtension` | src/index.ts:18-27 | a path is an asset candidate exactly when its lower-cased extension, taken from the last '.', is one of the sixteen |
| `Assets.VideoPathIsNotAsset` | src/index.ts:18-27 | a path ending in ".mp4" (any case) is never an asset candidate |
| `Assets.IsAssetType` | src/index.ts:43-50 | the CDN answer is confirmed exactly when its content type contains one of the seven fragments; an absent header counts as "" and is never confirmed |
| `Assets.AssetTypeSurvivesExtension` | src/index.ts:43-50 | a confirmed content type stays confirmed when text such as parameters is added around it |
| `Assets.TypeWithoutInitialsRejected` | src/index.ts:43-50 | a content type with none of the fragments' first letters (j, c, i, f, a) is rejected |
| `Assets.UpperCaseTypeRejected` | src/index.ts:43-50 | the test is case-sensitive: a content type with no lower-case letters, such as "TEXT/CSS", is rejected |
| `Assets.HtmlTypeRejected` | src/index.ts:43-52 | "text/html" from the CDN is not taken for an asset |
| `Assets.ScriptIsAsset` | src/index.ts:18-50 | "/app.js" passes the path test and "application/javascript" passes the content-type test |
| `Cdn.OriginPath` | src/index.ts:31 | a path starting with `/_wfcdn` loses exactly that prefix (prefix plus result rebuilds the path); any other path is kept |
| `Cdn.StripNeedsNoSeparator` | src/index.ts:31 | "/_wfcdnx.js" is sent to the CDN as "x.js" |
| `Cdn.PrefixCannotRejoinOrigin` | src/index.ts:14-15 | `/_wfcdn` cannot recombine with surrounding text into the CDN origin |
| `Cdn.RewriteHtml` | src/index.ts:95 | after the rewrite no occurrence of the CDN origin is left, and a body without one is unchanged |
| `Cdn.OriginCannotOverlap` | src/index.ts:15 | the CDN origin's first character does not recur in it, so its occurrences never overlap |
| `Cdn.RewriteSplit` | src/index.ts:95 | each occurrence of the CDN origin becomes `/_wfcdn` and the text on both sides of it is rewritten independently |
| `Cdn.RewriteKeepsCount` | src/index.ts:95 | a rewritten page holds at least as many occurrences of `/_wfcdn` as the original held of the CDN origin |
| `Cdn.RewriteIdempotent` | src/index.ts:95 | rewriting a rewritten page changes nothing |
| `Cdn.RewrittenUrlStripsBack` | src/index.ts:95 | the CDN origin followed by `q` becomes `/_wfcdn` followed by the rewrite of `q`; stripping the prefix gives back that rewrite, which is `q` itself when `q` holds no origin |
| `Worker.CdnRequest` | src/index.ts:31-40 | the CDN request is a GET without headers or body to the CDN origin; its target is the path without a leading prefix, plus the query string |
| `Worker.AssetHeaders` | src/index.ts:53-56 | a CDN-served response is tagged `webflow-cdn`, cached for a year, has no `content-length`, and keeps every other CDN header unchanged |
| `Worker.TryAsset` | src/index.ts:26-63 | the CDN is asked only for an asset path; its answer is served exactly when the content type is confirmed, with the CDN's status and body and the asset headers |
| `Worker.SiteRequest` | src/index.ts:66-85 | the site request keeps the method and the original path and query string, sets `host` to the site host name, keeps every other client header, and carries the body only for methods other than GET and HEAD |
| `Worker.SiteHeaders` | src/index.ts:88-90 | a site response is tagged `webflow`, cached for a year, and keeps every other header, `content-length` included |
| `Worker.IsHtml` | src/index.ts:92 | a site response counts as HTML exactly when its `content-type` is present and "text/html" occurs in it at some index |
| `Worker.SiteResponse` | src/index.ts:88-107 | the status is kept; an HTML answer gets the rewritten body (no CDN origin left, an origin-free body unchanged) and loses `content-length`; any other answer keeps its body and all other headers |
| `Worker.Handle` | src/index.ts:21-108 | one or two requests are issued; every response carries the tag and the one-year cache header; the CDN is asked first for an asset path and never otherwise; the response is CDN-served exactly when both tests pass, and then it is the CDN's status and body under the asset headers; otherwise it is the site's processed answer to the last request issued |
| `Worker.RewrittenLinkReachesCdn` | src/index.ts:29-33 | when the rewritten path of a CDN URL is an asset path, the worker's first request is a GET to the CDN origin for exactly the original remainder plus the query string |
| `Worker.RewrittenOtherLinkMissesCdn` | src/index.ts:26-70 | when the rewritten path of a CDN URL is not an asset path, only the site is asked, and it is asked for the prefixed path |
| `Worker.VideoLinkIsNotAsset` | src/index.ts:18-27 | a CDN video "/v.mp4" holds no CDN origin, and its rewritten path "/_wfcdn/v.mp4" is not an asset path |
| `Worker.CdnHtmlFallsThrough` | src/index.ts:43-70 | when the CDN answers an asset path with "text/html", the worker asks the site with the original path and returns the site's answer |
| `Worker.ServesScriptFromCdn` | src/index.ts:29-61 | `GET /app.js`, answered by the CDN with a script, is served with the CDN's status and body, tagged `webflow-cdn`, cached, and without `content-length` |
| `Worker.RewritesSitePage` | src/index.ts:88-101 | an HTML page holding a CDN URL is returned with that URL rewritten to `/_wfcdn`, with its status kept and `content-length` dropped |

## Left out

- Network I/O: each upstream `fetch` is the function parameter `fetch`. The `redirect: 'follow'` option and the Cloudflare cache hints (`cacheEverything`, `cacheTtl`) are not modelled.
- Failures: a fetch that throws propagates out of the handler in the code, since there is no try/catch. The model's `fetch` is total, so it has no failing fetch and no error response.
- URL parsing and resolution (`new URL`): a request arrives already split into path and query string. An outbound target is a (base, path-and-query) pair that is not resolved. The site's host name is given alongside its base URL. How a relative or protocol-relative path would resolve is not modelled.
- Bodies are strings: streaming, `response.text()` buffering, character encoding, and the difference between a null body and an empty one are not modelled.
- Headers are a map from lower-case names to single values. Case-insensitive lookup and the combining of repeated headers inside `Headers` are not modelled.
- `toLowerCase` is ASCII-only. Unicode case mapping is not modelled.
- Logging (`console.log`) and the `env` binding mechanism: `WEBFLOW_URL` is the `site` parameter.
- Response construction checks in the runtime: statuses are passed through as integers. The realistic case is a site answer with a null-body status (a 304 revalidation, or a 204) and a `text/html` content type. There `new Response(rewrittenHTML, ...)` at src/index.ts:98 throws, because such a status cannot carry a body, while `Worker.Handle` returns a tagged response.
- `$` substitution patterns in `replace` and `replaceAll` replacement strings: the model inserts the replacement literally. The two replacements the worker uses, `''` and `'/_wfcdn'`, contain no `$`, so for them both readings agree.
- Cdn.RewriteHtml: its own contract states only that no origin is left and that an origin-free body is unchanged; what happens to each occurrence is stated by `Cdn.RewriteSplit` and the count by `Cdn.RewriteKeepsCount`. The count is a lower bound because the page may already contain `/_wfcdn`.
- Multi-CDN prefixes, path-based origin routing and asset fallback chains are not in this handler, so they are not part of this model.
