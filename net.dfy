/**
 * The boundary of the core: WHATWG URL parsing, `decodeURIComponent`, and
 * the network, DOM and tab collaborators, all as given functions, plus the
 * URL validator and the bounded fetcher that guard every request.
 */
module Net {
  import opened Wrappers

  /** The three parts of a parsed `URL` the core reads. */
  datatype ParsedUrl = ParsedUrl(protocol: string, hostname: string, pathname: string)

  /**
   * `new URL(url)` (`parse`), `new URL(url, base)` (`resolve`) and
   * `decodeURIComponent` (`decode`); `None` stands for the exception each
   * of them throws.
   */
  datatype UrlEnv = UrlEnv(
    parse: string -> Option<ParsedUrl>,
    resolve: (string, string) -> Option<ParsedUrl>,
    decode: string -> Option<string>)

  /** A completed HTTP exchange: `response.ok`, `response.status` and the body text. */
  datatype HttpResponse = HttpResponse(ok: bool, status: int, text: string)

  /** A HEAD probe sent with `mode: "no-cors"`: a failure, or a status and whether the response was unreadable (`response.type === "opaque"`). */
  datatype HeadOutcome = HeadFailed | HeadResponse(status: int, unreadable: bool)

  /**
   * What the world answers. `get(url, timeoutMs)` is a credential-less GET
   * that yields `None` on a network error or when the abort timer fires;
   * `xmlLocs` and `htmlHrefs` stand for `DOMParser` plus
   * `getElementsByTagName` (the text of every `<loc>` and then every `<url>`
   * element; the `href` of every `<a>`); `tabUrl` is the URL of the active
   * tab (`None` when there is none); `pageLinks` is what the script
   * injected into that tab returns, `None` when the injection fails or
   * yields no result.
   */
  datatype Web = Web(
    get: (string, nat) -> Option<HttpResponse>,
    head: (string, nat) -> HeadOutcome,
    xmlLocs: string -> seq<string>,
    htmlHrefs: string -> seq<string>,
    tabUrl: Option<string>,
    pageLinks: Option<seq<string>>)

  const DEFAULT_TIMEOUT_MS: nat := 5000
  const COMMON_PATH_TIMEOUT_MS: nat := 2000
  const HEAD_TIMEOUT_MS: nat := 2000

  /** `isValidUrl`: the string parses as a URL whose protocol is `http:` or `https:`. */
  predicate IsValidUrl(env: UrlEnv, url: string) {
    match env.parse(url)
    case None => false
    case Some(u) => u.protocol == "http:" || u.protocol == "https:"
  }

  datatype FetchError = InvalidScheme | NetworkError

  /**
   * `fetchWithTimeout`: refuses a URL that fails `isValidUrl` before any
   * request is made; otherwise issues the GET and reports a failed or
   * aborted transfer as `NetworkError`.
   */
  function FetchWithTimeout(env: UrlEnv, web: Web, url: string, timeoutMs: nat): (r: Result<HttpResponse, FetchError>)
    ensures r == Err(InvalidScheme) <==> !IsValidUrl(env, url)
    ensures r.Ok? <==> IsValidUrl(env, url) && web.get(url, timeoutMs).Some?
    ensures r.Ok? ==> web.get(url, timeoutMs) == Some(r.value)
  {
    if !IsValidUrl(env, url) then Err(InvalidScheme)
    else match web.get(url, timeoutMs)
      case None => Err(NetworkError)
      case Some(response) => Ok(response)
  }

  /**
   * A URL refused by the scheme check never reaches the network: the result
   * is the same whatever the network would have answered.
   */
  lemma FetchRefusesBeforeNetwork(env: UrlEnv, web1: Web, web2: Web, url: string, timeoutMs: nat)
    requires !IsValidUrl(env, url)
    ensures FetchWithTimeout(env, web1, url, timeoutMs) == FetchWithTimeout(env, web2, url, timeoutMs) == Err(InvalidScheme)
  {
  }

  /** The body of a successful (`response.ok`) GET, or `None` when the probe contributes nothing. */
  function OkText(env: UrlEnv, web: Web, url: string, timeoutMs: nat): (r: Option<string>)
    ensures r.Some? <==> IsValidUrl(env, url) && web.get(url, timeoutMs).Some? && web.get(url, timeoutMs).value.ok
    ensures r.Some? ==> r.value == web.get(url, timeoutMs).value.text
  {
    match FetchWithTimeout(env, web, url, timeoutMs)
    case Ok(response) => if response.ok then Some(response.text) else None
    case Err(_) => None
  }
}
