/**
 * Response caching: which class of cache headers a path receives, and the
 * If-None-Match check. The ETag hashes and the Expires date come from the
 * clock and from md5, so they are parameters.
 */
module CacheHeaders {
  import opened GoStrings

  const StaticExtensions: seq<string> :=
    [".css", ".js", ".png", ".jpg", ".jpeg", ".gif", ".svg", ".ico", ".woff", ".woff2", ".ttf", ".eot"]
  const StaticDirs: seq<string> := ["/static/", "/tsx/css/", "/tsx/js/"]

  /** A file extension or directory served with long-term caching; the check ignores case */
  predicate IsStaticAsset(path: string) {
    var lower := ToLower(path);
    AnySuffix(lower, StaticExtensions) || AnyPrefix(lower, StaticDirs)
  }

  /** An API endpoint; unlike the static check this one is case-sensitive */
  predicate IsAPIPath(path: string) {
    HasPrefix(path, "/api/") || HasPrefix(path, "/auth/")
  }

  datatype CacheClass = StaticAsset | Api | Page

  /** Static assets first, then API paths, then pages */
  function Classify(path: string): (c: CacheClass)
    ensures c == StaticAsset <==> IsStaticAsset(path)
    ensures c == Api <==> !IsStaticAsset(path) && IsAPIPath(path)
    ensures c == Page <==> !IsStaticAsset(path) && !IsAPIPath(path)
  {
    if IsStaticAsset(path) then StaticAsset
    else if IsAPIPath(path) then Api
    else Page
  }

  /** Cache-Control per class: one year immutable, one minute private, five minutes public */
  function CacheControl(c: CacheClass): string {
    match c
    case StaticAsset => "public, max-age=31536000, immutable"
    case Api => "private, max-age=60"
    case Page => "public, max-age=300"
  }

  /** The max-age each Cache-Control value carries, in seconds */
  function MaxAge(c: CacheClass): nat {
    match c
    case StaticAsset => 365 * 24 * 60 * 60
    case Api => 60
    case Page => 5 * 60
  }

  const CacheControlHeader := "Cache-Control"
  const ExpiresHeader := "Expires"
  const ETagHeader := "ETag"

  /**
   * The headers after SetCacheHeaders. `expires` is the date one year ahead
   * and `etag` the tag GenerateETag or the clock hash gives.
   */
  function CachedHeaders(h: map<string, string>, path: string, expires: string, etag: string): map<string, string> {
    var c := Classify(path);
    var withControl := h[CacheControlHeader := CacheControl(c)];
    var withExpires := if c == StaticAsset then withControl[ExpiresHeader := expires] else withControl;
    withExpires[ETagHeader := etag]
  }

  /** Every path gets its class's Cache-Control and an ETag, and no header other than the three changes */
  lemma CachedHeadersSet(h: map<string, string>, path: string, expires: string, etag: string)
    ensures var r := CachedHeaders(h, path, expires, etag);
      CacheControlHeader in r && r[CacheControlHeader] == CacheControl(Classify(path)) &&
      ETagHeader in r && r[ETagHeader] == etag &&
      forall k :: k != CacheControlHeader && k != ExpiresHeader && k != ETagHeader ==>
        (k in r <==> k in h) && (k in h ==> r[k] == h[k])
  {
  }

  /** Only static assets get an Expires header */
  lemma ExpiresOnlyStatic(h: map<string, string>, path: string, expires: string, etag: string)
    requires ExpiresHeader !in h
    ensures var r := CachedHeaders(h, path, expires, etag);
      (ExpiresHeader in r <==> IsStaticAsset(path)) &&
      (IsStaticAsset(path) ==> r[ExpiresHeader] == expires)
  {
  }

  /** A listed extension makes a path static, whatever its case */
  lemma StaticByExtension(path: string, i: nat)
    requires i < |StaticExtensions| && HasSuffix(ToLower(path), StaticExtensions[i])
    ensures Classify(path) == StaticAsset
  {
  }

  /** A listed directory makes a path static, whatever its case */
  lemma StaticByDirectory(path: string, i: nat)
    requires i < |StaticDirs| && HasPrefix(ToLower(path), StaticDirs[i])
    ensures Classify(path) == StaticAsset
  {
  }

  /** Case does not matter to the static check */
  lemma StaticIgnoresCase(path: string)
    ensures IsStaticAsset(path) == IsStaticAsset(ToLower(path))
  {
    ToLowerIdempotent(path);
  }

  /** An API path that is not a static asset gets the private one-minute policy */
  lemma ApiPolicy(path: string)
    requires IsAPIPath(path) && !IsStaticAsset(path)
    ensures CacheControl(Classify(path)) == "private, max-age=60" && MaxAge(Classify(path)) == 60
  {
  }

  /** Static wins over API: an API path with a static extension is cached for a year */
  lemma StaticBeatsApi(rest: string)
    ensures Classify("/api/" + rest + ".js") == StaticAsset
  {
    var p := "/api/" + rest + ".js";
    var lower := ToLower(p);
    assert p[|p| - 3..] == ".js";
    assert lower[|lower| - 3..] == ToLower(".js");
    assert ToLower(".js") == ".js";
    assert StaticExtensions[1] == ".js";
  }

  /** HandleConditionalRequest's test: a non-empty If-None-Match equal to the ETag */
  predicate NotModified(ifNoneMatch: string, etag: string) {
    ifNoneMatch != "" && ifNoneMatch == etag
  }

  /** A request without If-None-Match is never answered 304, even for an empty ETag */
  lemma AbsentHeaderNeverMatches(etag: string)
    ensures !NotModified("", etag)
  {
  }

  const StatusNotModified := 304

  /** The headers and status of one response */
  class Response {
    var headers: map<string, string>
    /** The status written, 0 while none has been */
    var status: int

    constructor ()
      ensures headers == map[] && status == 0
    {
      headers := map[];
      status := 0;
    }

    method SetCacheHeaders(filePath: string, expires: string, etag: string)
      modifies this
      ensures headers == CachedHeaders(old(headers), filePath, expires, etag)
      ensures status == old(status)
    {
      if IsStaticAsset(filePath) {
        headers := headers[CacheControlHeader := "public, max-age=31536000, immutable"];
        headers := headers[ExpiresHeader := expires];
        headers := headers[ETagHeader := etag];
      } else if IsAPIPath(filePath) {
        headers := headers[CacheControlHeader := "private, max-age=60"];
        headers := headers[ETagHeader := etag];
      } else {
        headers := headers[CacheControlHeader := "public, max-age=300"];
        headers := headers[ETagHeader := etag];
      }
    }

    method HandleConditionalRequest(ifNoneMatch: string, etag: string) returns (handled: bool)
      modifies this
      ensures handled == NotModified(ifNoneMatch, etag)
      ensures handled ==> headers == old(headers) && status == StatusNotModified
      ensures !handled ==> headers == old(headers)[ETagHeader := etag] && status == old(status)
    {
      if ifNoneMatch != "" && ifNoneMatch == etag {
        status := StatusNotModified;
        return true;
      }
      headers := headers[ETagHeader := etag];
      return false;
    }
  }
}
