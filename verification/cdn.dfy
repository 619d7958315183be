/** The Webflow CDN as seen through the worker: absolute CDN URLs in HTML pages are
    rewritten to the local prefix `/_wfcdn`, and requests under that prefix are sent
    back to the CDN with the prefix removed. */
module Cdn {
  import opened Strings
  import opened Replace

  /** The local path prefix standing for the CDN origin. */
  const CDN_PREFIX: string := "/_wfcdn"
  /** The CDN origin whose absolute URLs are hidden from clients. */
  const CDN_ORIGIN: string := "https://cdn.prod.website-files.com"

  /** The path sent to the CDN: a path starting with the prefix has it removed by
      `path.replace(CDN_PREFIX, '')`; no '/' is required after the prefix, so
      "/_wfcdnx.js" becomes "x.js". Any other path is sent unchanged. */
  function OriginPath(path: string): (r: string)
    ensures StartsWith(path, CDN_PREFIX) ==> CDN_PREFIX + r == path
    ensures !StartsWith(path, CDN_PREFIX) ==> r == path
  {
    if StartsWith(path, CDN_PREFIX) then ReplaceFirst(path, CDN_PREFIX, "") else path
  }

  /** The prefix is stripped even when no path separator follows it. */
  lemma StripNeedsNoSeparator()
    ensures OriginPath("/_wfcdnx.js") == "x.js"
  {
    assert StartsWith("/_wfcdnx.js", CDN_PREFIX);
    assert CDN_PREFIX + "x.js" == "/_wfcdnx.js";
  }

  /** The prefix cannot help form a new occurrence of the origin after rewriting:
      the origin's first character 'h' is not in "/_wfcdn", the origin contains no
      '_' (the prefix's second character), and it ends with 'm', not '/'. */
  lemma PrefixCannotRejoinOrigin()
    ensures CannotRejoin(CDN_ORIGIN, CDN_PREFIX)
  {
    assert CDN_ORIGIN[0] == 'h' && 'h' !in CDN_PREFIX;
    assert '_' !in CDN_ORIGIN;
    forall k | 1 <= k < |CDN_ORIGIN|
      ensures !StartsWith(CDN_PREFIX, CDN_ORIGIN[k..]) && !StartsWith(CDN_ORIGIN[k..], CDN_PREFIX)
    {
      if k == |CDN_ORIGIN| - 1 {
        assert CDN_ORIGIN[k..][0] == 'm' != CDN_PREFIX[0];
      } else {
        assert CDN_ORIGIN[k + 1] in CDN_ORIGIN;
        assert CDN_ORIGIN[k..][1] != CDN_PREFIX[1];
      }
    }
  }

  /** The HTML rewrite `body.replaceAll(CDN_ORIGIN, CDN_PREFIX)`. No occurrence of
      the origin survives it, and a body without one is left as it was. */
  function RewriteHtml(body: string): (r: string)
    ensures !Contains(r, CDN_ORIGIN)
    ensures !Contains(body, CDN_ORIGIN) ==> r == body
  {
    RewriteFacts(body);
    ReplaceAll(body, CDN_ORIGIN, CDN_PREFIX)
  }

  lemma RewriteFacts(body: string)
    ensures !Contains(ReplaceAll(body, CDN_ORIGIN, CDN_PREFIX), CDN_ORIGIN)
    ensures !Contains(body, CDN_ORIGIN) ==> ReplaceAll(body, CDN_ORIGIN, CDN_PREFIX) == body
  {
    PrefixCannotRejoinOrigin();
    ReplaceAllRemovesPattern(body, CDN_ORIGIN, CDN_PREFIX);
    if !Contains(body, CDN_ORIGIN) {
      ReplaceAllAbsent(body, CDN_ORIGIN, CDN_PREFIX);
    }
  }

  /** The origin's first character 'h' does not recur in it, so two occurrences of
      the origin never overlap. */
  lemma OriginCannotOverlap()
    ensures NoSelfOverlap(CDN_ORIGIN)
  {
    assert CDN_ORIGIN[0] == 'h';
  }

  /** The rewrite replaces each occurrence of the origin by the prefix and keeps the
      text around it: rewriting `a`, the origin, then `b` gives the rewrite of `a`,
      the prefix, then the rewrite of `b`. */
  lemma RewriteSplit(a: string, b: string)
    ensures RewriteHtml(a + CDN_ORIGIN + b) == RewriteHtml(a) + CDN_PREFIX + RewriteHtml(b)
  {
    OriginCannotOverlap();
    ReplaceAllSplit(a, CDN_ORIGIN, CDN_PREFIX, b);
  }

  /** A rewritten page holds at least as many occurrences of the prefix as the
      original held of the origin: no CDN URL is lost in the rewrite. */
  lemma RewriteKeepsCount(body: string)
    ensures Occurrences(RewriteHtml(body), CDN_PREFIX) >= Occurrences(body, CDN_ORIGIN)
  {
    OriginCannotOverlap();
    ReplaceAllKeepsCount(body, CDN_ORIGIN, CDN_PREFIX);
  }

  /** Rewriting an already rewritten page changes nothing. */
  lemma RewriteIdempotent(body: string)
    ensures RewriteHtml(RewriteHtml(body)) == RewriteHtml(body)
  {
  }

  /** A rewritten CDN URL routes back: `CDN_ORIGIN + q` becomes `CDN_PREFIX + q'`
      (with `q'` the rewrite of `q`, which is `q` itself when `q` holds no origin),
      and stripping the prefix from that path gives `q'` again. */
  lemma RewrittenUrlStripsBack(q: string)
    ensures RewriteHtml(CDN_ORIGIN + q) == CDN_PREFIX + RewriteHtml(q)
    ensures OriginPath(RewriteHtml(CDN_ORIGIN + q)) == RewriteHtml(q)
    ensures !Contains(q, CDN_ORIGIN) ==> OriginPath(RewriteHtml(CDN_ORIGIN + q)) == q
  {
    ReplaceAllLeading(CDN_ORIGIN, CDN_PREFIX, q);
    var out := CDN_PREFIX + RewriteHtml(q);
    assert out[..|CDN_PREFIX|] == CDN_PREFIX;
  }
}
