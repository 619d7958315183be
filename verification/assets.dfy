/** Deciding whether a request is for a static asset: first from the path's file
    extension, then, after the CDN answered, from the declared content type. */
module Assets {
  import opened Wrappers
  import opened Strings

  /** The sixteen file extensions that mark a path as a candidate asset. */
  const ASSET_EXTENSIONS: seq<string> :=
    [".js", ".css", ".png", ".jpg", ".jpeg", ".gif", ".svg", ".webp", ".avif",
     ".woff", ".woff2", ".ttf", ".eot", ".ico", ".json", ".map"]

  /** `exts.some(ext => s.endsWith(ext))`. */
  function EndsWithAny(s: string, exts: seq<string>): (r: bool)
    ensures r <==> exists i :: 0 <= i < |exts| && EndsWith(s, exts[i])
  {
    if exts == [] then false
    else EndsWith(s, exts[0]) || EndsWithAny(s, exts[1..])
  }

  /** The path test: the ASCII lower-cased path ends with one of the asset extensions. */
  function IsAssetPath(path: string): (r: bool)
    ensures r <==> exists ext :: ext in ASSET_EXTENSIONS && EndsWith(Lower(path), ext)
    ensures |path| < 3 ==> !r
  {
    EndsWithAny(Lower(path), ASSET_EXTENSIONS)
  }

  /** The path test does not see case: upper- or lower-casing the path first changes nothing. */
  lemma AssetPathIgnoresCase(path: string)
    ensures IsAssetPath(Upper(path)) == IsAssetPath(path)
    ensures IsAssetPath(Lower(path)) == IsAssetPath(path)
  {
    LowerForgetsCase(path);
  }

  /** The file extension of `s`: its suffix from the last '.', if there is a '.'. */
  function Extension(s: string): (r: Option<string>)
    decreases |s|
  {
    if s == [] then None
    else if s[|s| - 1] == '.' then Some(".")
    else match Extension(s[..|s| - 1])
      case None => None
      case Some(e) => Some(e + [s[|s| - 1]])
  }

  /** An extension is a '.' followed by characters other than '.'. */
  ghost predicate WellFormedExtension(e: string) {
    |e| >= 1 && e[0] == '.' && '.' !in e[1..]
  }

  /** For a well-formed extension, "ends with it" and "has it as its extension" coincide. */
  lemma {:induction false} EndsWithIffExtension(s: string, e: string)
    requires WellFormedExtension(e)
    ensures EndsWith(s, e) <==> Extension(s) == Some(e)
    decreases |s|
  {
    if s != [] {
      var init, last := s[..|s| - 1], s[|s| - 1];
      assert s == init + [last];
      if last == '.' {
        assert e[|e| - 1] in e[1..] || |e| == 1;
      } else if |e| > 1 {
        var e' := e[..|e| - 1];
        assert e == e' + [e[|e| - 1]];
        assert forall c :: c in e'[1..] ==> c in e[1..];
        EndsWithIffExtension(init, e');
      }
    }
  }

  lemma AssetExtensionsWellFormed()
    ensures forall i :: 0 <= i < |ASSET_EXTENSIONS| ==> WellFormedExtension(ASSET_EXTENSIONS[i])
  {
  }

  /** The path test as a statement about the file extension: a path is an asset
      candidate exactly when its lower-cased extension is one of the sixteen. */
  lemma AssetPathIffExtension(path: string)
    ensures IsAssetPath(path) <==>
      Extension(Lower(path)).Some? && Extension(Lower(path)).value in ASSET_EXTENSIONS
  {
    AssetExtensionsWellFormed();
    var s := Lower(path);
    forall i | 0 <= i < |ASSET_EXTENSIONS|
      ensures EndsWith(s, ASSET_EXTENSIONS[i]) <==> Extension(s) == Some(ASSET_EXTENSIONS[i])
    {
      EndsWithIffExtension(s, ASSET_EXTENSIONS[i]);
    }
  }

  /** A path whose lower-cased form ends in ".mp4" (a video) is never an asset path. */
  lemma VideoPathIsNotAsset(path: string)
    requires EndsWith(Lower(path), ".mp4")
    ensures !IsAssetPath(path)
  {
    assert WellFormedExtension(".mp4") by {
      assert ".mp4"[1..] == "mp4";
    }
    EndsWithIffExtension(Lower(path), ".mp4");
    AssetPathIffExtension(path);
    VideoExtensionUnlisted();
  }

  lemma VideoExtensionUnlisted()
    ensures ".mp4" !in ASSET_EXTENSIONS
  {
  }

  /** The seven content-type fragments that confirm a CDN response is an asset. */
  const ASSET_CONTENT_TYPES: seq<string> :=
    ["javascript", "css", "image/", "font/", "application/font", "application/json",
     "application/octet-stream"]

  /** The content-type test on the CDN response: the header, or "" when it is absent,
      contains one of the seven fragments (case-sensitively). */
  function IsAssetType(contentType: Option<string>): (r: bool)
    ensures r <==> exists i :: 0 <= i < |ASSET_CONTENT_TYPES| && Contains(contentType.GetOr(""), ASSET_CONTENT_TYPES[i])
    ensures contentType.None? ==> !r
  {
    var ct := contentType.GetOr("");
    Contains(ct, ASSET_CONTENT_TYPES[0]) ||
    Contains(ct, ASSET_CONTENT_TYPES[1]) ||
    Contains(ct, ASSET_CONTENT_TYPES[2]) ||
    Contains(ct, ASSET_CONTENT_TYPES[3]) ||
    Contains(ct, ASSET_CONTENT_TYPES[4]) ||
    Contains(ct, ASSET_CONTENT_TYPES[5]) ||
    Contains(ct, ASSET_CONTENT_TYPES[6])
  }

  /** A verified content type stays verified when text is added around it
      (parameters such as "; charset=utf-8", say). */
  lemma AssetTypeSurvivesExtension(pre: string, ct: string, post: string)
    requires IsAssetType(Some(ct))
    ensures IsAssetType(Some(pre + ct + post))
  {
    var i :| 0 <= i < |ASSET_CONTENT_TYPES| && Contains(ct, ASSET_CONTENT_TYPES[i]);
    ContainsInfix(pre, ct, post, ASSET_CONTENT_TYPES[i]);
  }

  /** Every fragment begins with one of the letters j, c, i, f, a; a content type
      containing none of them cannot be verified. */
  lemma TypeWithoutInitialsRejected(ct: string)
    requires 'j' !in ct && 'c' !in ct && 'i' !in ct && 'f' !in ct && 'a' !in ct
    ensures !IsAssetType(Some(ct))
  {
    forall i | 0 <= i < |ASSET_CONTENT_TYPES|
      ensures !Contains(ct, ASSET_CONTENT_TYPES[i])
    {
      NotContainsWithoutFirstChar(ct, ASSET_CONTENT_TYPES[i]);
    }
  }

  /** The test is case-sensitive: a content type without lower-case ASCII letters
      (such as "TEXT/CSS") is never verified. */
  lemma UpperCaseTypeRejected(ct: string)
    requires forall c :: c in ct ==> !('a' <= c <= 'z')
    ensures !IsAssetType(Some(ct))
  {
    TypeWithoutInitialsRejected(ct);
  }

  /** An HTML page served by the CDN (an error page, say) is not taken for an asset. */
  lemma HtmlTypeRejected()
    ensures !IsAssetType(Some("text/html"))
  {
    TypeWithoutInitialsRejected("text/html");
  }

  /** A script: "/app.js" passes the path test, and "application/javascript" passes
      the content-type test. The literals are passed as parameters fixed by
      `requires`, which keeps the verifier from unfolding the string functions on
      them eagerly. */
  lemma ScriptIsAsset(path: string, ct: string)
    requires path == "/app.js" && ct == "application/javascript"
    ensures IsAssetPath(path)
    ensures IsAssetType(Some(ct))
  {
    var low := Lower(path);
    assert low[|low| - 3..] == ".js";
    assert EndsWith(low, ASSET_EXTENSIONS[0]);
    assert ct[12..12 + 10] == "javascript";
    assert OccursAt(ct, "javascript", 12);
    ContainsIffOccurs(ct, "javascript");
  }
}
