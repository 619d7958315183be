/** The HTTP values the worker handles. Header names are taken to be lower-case
    keys already, so a header set is a map from name to value. */
module Http {
  import opened Wrappers

  type Headers = map<string, string>

  const CONTENT_TYPE: string := "content-type"
  const CONTENT_LENGTH: string := "content-length"
  const CACHE_CONTROL: string := "cache-control"
  const X_PROXY_ORIGIN: string := "x-proxy-origin"
  const HOST: string := "host"

  /** `headers.get(name)`: the value, or nothing when the header is absent. */
  function Get(h: Headers, name: string): Option<string> {
    if name in h then Some(h[name]) else None
  }

  /** An incoming client request, already split into path and query string
      (`search`, which keeps its leading '?' when present). */
  datatype Request = Request(
    verb: string,
    path: string,
    search: string,
    headers: Headers,
    body: Option<string>)

  /** An upstream response, or the response the worker returns. */
  datatype Response = Response(status: int, headers: Headers, body: string)

  /** A request the worker issues upstream: `target` is the path and query string,
      resolved against the origin `base`. */
  datatype Outbound = Outbound(
    verb: string,
    base: string,
    target: string,
    headers: Headers,
    body: Option<string>)

  /** `r` agrees with `h` on every header name outside `touched`: the same names are
      present, with the same values. */
  ghost predicate SameOutside(r: Headers, h: Headers, touched: set<string>) {
    forall name :: name !in touched ==> (name in r <==> name in h) && (name in r ==> r[name] == h[name])
  }
}
