/**
 * The current `SiteMapper` of src/popup.js: the five discovery probes that
 * fill its path map, the sorted `{path, status}` list it returns, and the
 * batched HEAD probes that fill in missing statuses.
 *
 * Each probe is specified by the run of `addCleanPath` candidates it
 * produces (`...Adds`), given the answers of the web; the class's methods
 * are proved to leave the map equal to `AddAll` of that run.
 */
module Mapper {
  import opened Wrappers
  import opened Text
  import opened Ordinal
  import opened Net
  import opened PathRules
  import opened Robots
  import opened Enrichment

  /** The paths `checkCommonPaths` probes. */
  const COMMON_PATHS: seq<string> :=
    ["/about", "/contact", "/privacy", "/terms", "/faq", "/blog", "/news", "/products", "/services", "/support"]

  /** The sitemap locations `getSitemap` tries, relative to the base URL. */
  const SITEMAP_SUFFIXES: seq<string> := ["/sitemap.xml", "/sitemap_index.xml", "/sitemap/sitemap.xml"]

  const ROBOTS_SUFFIX: string := "/robots.txt"
  const HTML_SITEMAP_SUFFIX: string := "/sitemap.html"

  /** What one `<loc>` or `<url>` text becomes. */
  datatype LocRoute = Skipped | NestedSitemap(url: string) | PathCandidate(url: string)

  /** The two versions of the mapper: src/popup.js (`Current`) and the older popup.js (`Legacy`). */
  datatype Generation = Current | Legacy

  /** The trimmed text, percent-decoded when decoding succeeds. */
  function DecodedLoc(env: UrlEnv, text: string): string {
    var t := Trim(text);
    env.decode(t).GetOr(t)
  }

  /**
   * Skip date-time-like text, collapse whitespace, then follow a `.xml` URL
   * that passes `isValidUrl` as a nested sitemap and hand anything else to
   * `addCleanPath`.
   */
  function RouteLoc(env: UrlEnv, text: string): (r: LocRoute)
    ensures r.Skipped? <==> HasTimestamp(DecodedLoc(env, text))
    ensures !r.Skipped? ==> IsCollapsed(r.url) && !HasTimestamp(r.url)
    ensures r.NestedSitemap? ==> EndsWith(r.url, ".xml") && IsValidUrl(env, r.url)
    ensures r.PathCandidate? ==> !(EndsWith(r.url, ".xml") && IsValidUrl(env, r.url))
  {
    var decoded := DecodedLoc(env, text);
    if HasTimestamp(decoded) then Skipped
    else
      var url := Collapse(decoded);
      CollapseKeepsTimestampFree(decoded);
      if EndsWith(url, ".xml") && IsValidUrl(env, url) then NestedSitemap(url) else PathCandidate(url)
  }

  /** A location that is already collapsed, free of date-time text and unchanged by decoding is routed as it is. */
  lemma RouteLocPlain(env: UrlEnv, text: string)
    requires IsCollapsed(text) && !HasTimestamp(text)
    requires env.decode(text) == None || env.decode(text) == Some(text)
    ensures !RouteLoc(env, text).Skipped? && RouteLoc(env, text).url == text
  {
    DecodedPlain(env, text);
    CollapseFixesCollapsed(text);
  }

  lemma DecodedPlain(env: UrlEnv, text: string)
    requires IsCollapsed(text)
    requires env.decode(text) == None || env.decode(text) == Some(text)
    ensures DecodedLoc(env, text) == text
  {
    TrimFixesCollapsed(text);
  }

  /** The older route of popup.js: the trimmed text, followed when it is a valid `.xml` URL, added otherwise. */
  function LegacyRouteLoc(env: UrlEnv, text: string): (r: LocRoute)
    ensures !r.Skipped?
    ensures r.NestedSitemap? <==> EndsWith(r.url, ".xml") && IsValidUrl(env, r.url)
    ensures r.url == [] || (!IsSpace(r.url[0]) && !IsSpace(r.url[|r.url| - 1]))
  {
    var url := Trim(text);
    if EndsWith(url, ".xml") && IsValidUrl(env, url) then NestedSitemap(url) else PathCandidate(url)
  }

  function Route(gen: Generation, env: UrlEnv, text: string): LocRoute {
    if gen == Current then RouteLoc(env, text) else LegacyRouteLoc(env, text)
  }

  /** On a location that is already collapsed, free of date-time text and unchanged by decoding, both versions route alike. */
  lemma RoutesAgreeOnPlainLocs(env: UrlEnv, text: string)
    requires IsCollapsed(text) && !HasTimestamp(text)
    requires env.decode(text) == None || env.decode(text) == Some(text)
    ensures Route(Current, env, text) == Route(Legacy, env, text)
  {
    RouteLocPlain(env, text);
    TrimFixesCollapsed(text);
  }

  /** A date-time-like location is skipped by the current version and handed on by the older one. */
  lemma LegacyFollowsTimestamps(env: UrlEnv, text: string)
    requires HasTimestamp(text) && text == Trim(text)
    requires env.decode(text) == None || env.decode(text) == Some(text)
    ensures Route(Current, env, text).Skipped? && !Route(Legacy, env, text).Skipped?
  {
    assert Trim(text) == text;
    assert DecodedLoc(env, text) == text;
    assert RouteLoc(env, text).Skipped?;
    assert !LegacyRouteLoc(env, text).Skipped?;
  }

  /**
   * `parseSitemapUrl(url)`: the candidates it hands to `addCleanPath`, in
   * order, following nested sitemaps at most `fuel` levels deep.
   */
  function SitemapAdds(gen: Generation, env: UrlEnv, web: Web, url: string, fuel: nat): seq<string>
    decreases fuel, 0, 0
  {
    if fuel == 0 then []
    else
      match OkText(env, web, url, DEFAULT_TIMEOUT_MS)
      case None => []
      case Some(text) => LocsAdds(gen, env, web, web.xmlLocs(text), fuel - 1)
  }

  /** A sitemap that cannot be fetched, or is reached without fuel, adds nothing. */
  lemma SitemapAddsNone(gen: Generation, env: UrlEnv, web: Web, url: string, fuel: nat)
    requires fuel == 0 || OkText(env, web, url, DEFAULT_TIMEOUT_MS).None?
    ensures SitemapAdds(gen, env, web, url, fuel) == []
  {
  }

  /** A fetched sitemap adds what its locations add, with one unit of fuel less. */
  lemma SitemapAddsSome(gen: Generation, env: UrlEnv, web: Web, url: string, fuel: nat, text: string)
    requires fuel > 0 && OkText(env, web, url, DEFAULT_TIMEOUT_MS) == Some(text)
    ensures SitemapAdds(gen, env, web, url, fuel) == LocsAdds(gen, env, web, web.xmlLocs(text), fuel - 1)
  {
  }

  function LocsAdds(gen: Generation, env: UrlEnv, web: Web, locs: seq<string>, fuel: nat): seq<string>
    decreases fuel, 1, |locs|
  {
    if locs == [] then []
    else LocsAdds(gen, env, web, locs[..|locs| - 1], fuel) + LocAdds(gen, env, web, locs[|locs| - 1], fuel)
  }

  function LocAdds(gen: Generation, env: UrlEnv, web: Web, loc: string, fuel: nat): seq<string>
    decreases fuel, 1, 0
  {
    match Route(gen, env, loc)
    case Skipped => []
    case NestedSitemap(u) => SitemapAdds(gen, env, web, u, fuel)
    case PathCandidate(u) => [u]
  }

  /** A candidate the sitemap route may hand to `addCleanPath`. */
  predicate SitemapCandidate(env: UrlEnv, u: string) {
    IsCollapsed(u) && !HasTimestamp(u) && !(EndsWith(u, ".xml") && IsValidUrl(env, u))
  }

  /**
   * Every candidate a sitemap yields, however deeply nested, is collapsed,
   * free of date-time text, and not itself a sitemap URL to follow.
   */
  lemma {:induction false} SitemapAddsAreCandidates(env: UrlEnv, web: Web, url: string, fuel: nat)
    ensures forall u | u in SitemapAdds(Current, env, web, url, fuel) :: SitemapCandidate(env, u)
    decreases fuel, 0, 0
  {
    if fuel > 0 {
      match OkText(env, web, url, DEFAULT_TIMEOUT_MS)
      case None =>
      case Some(text) => LocsAddsAreCandidates(env, web, web.xmlLocs(text), fuel - 1);
    }
  }

  lemma {:induction false} LocsAddsAreCandidates(env: UrlEnv, web: Web, locs: seq<string>, fuel: nat)
    ensures forall u | u in LocsAdds(Current, env, web, locs, fuel) :: SitemapCandidate(env, u)
    decreases fuel, 1, |locs|
  {
    if locs != [] {
      LocsAddsAreCandidates(env, web, locs[..|locs| - 1], fuel);
      LocAddsAreCandidates(env, web, locs[|locs| - 1], fuel);
    }
  }

  lemma {:induction false} LocAddsAreCandidates(env: UrlEnv, web: Web, loc: string, fuel: nat)
    ensures forall u | u in LocAdds(Current, env, web, loc, fuel) :: SitemapCandidate(env, u)
    decreases fuel, 1, 0
  {
    var r := RouteLoc(env, loc);
    if r.NestedSitemap? {
      SitemapAddsAreCandidates(env, web, r.url, fuel);
    }
  }

  /** What one robots.txt line hands on: a `Sitemap` URL is followed, an `Allow`/`Disallow` value is a candidate. */
  function LineAdds(gen: Generation, env: UrlEnv, web: Web, line: string, fuel: nat): seq<string> {
    match ClassifyRobotsLine(line)
    case NoDirective => []
    case SitemapLine(u) => if IsValidUrl(env, u) then SitemapAdds(gen, env, web, u, fuel) else []
    case PathLine(p) => [p]
  }

  function LinesAdds(gen: Generation, env: UrlEnv, web: Web, lines: seq<string>, fuel: nat): seq<string> {
    if lines == [] then []
    else LinesAdds(gen, env, web, lines[..|lines| - 1], fuel) + LineAdds(gen, env, web, lines[|lines| - 1], fuel)
  }

  /**
   * A line the directive pattern matches hands on its value: to the
   * sitemap parser when the line begins with `Sitemap` exactly as written and
   * the value is a valid URL, to nowhere when it begins so but the URL is
   * invalid, and to `addCleanPath` otherwise (lower-case `sitemap:` included).
   */
  lemma LineRouting(gen: Generation, env: UrlEnv, web: Web, line: string, n: nat, k: nat, e: nat, fuel: nat)
    requires RegexMatch(line, n, k, e)
    ensures !StartsWith(line[..e], "Sitemap") ==> LineAdds(gen, env, web, line, fuel) == [line[k..e]]
    ensures StartsWith(line[..e], "Sitemap") && IsValidUrl(env, line[k..e]) ==>
      LineAdds(gen, env, web, line, fuel) == SitemapAdds(gen, env, web, line[k..e], fuel)
    ensures StartsWith(line[..e], "Sitemap") && !IsValidUrl(env, line[k..e]) ==> LineAdds(gen, env, web, line, fuel) == []
  {
    ClassifyComplete(line, n, k, e);
    RoutingIsCaseSensitive(line, n, k, e);
  }

  /** A line the directive pattern does not match contributes nothing. */
  lemma UnmatchedLineIgnored(gen: Generation, env: UrlEnv, web: Web, line: string, fuel: nat)
    requires forall n: nat, k: nat, e: nat :: !RegexMatch(line, n, k, e)
    ensures LineAdds(gen, env, web, line, fuel) == []
  {
    if !ClassifyRobotsLine(line).NoDirective? {
      ClassifySound(line);
    }
  }

  /** `getRobotsTxt`: the lines of `<base>/robots.txt`, when it is fetched with an ok status. */
  function RobotsAdds(gen: Generation, env: UrlEnv, web: Web, baseUrl: string, fuel: nat): seq<string> {
    match OkText(env, web, baseUrl + ROBOTS_SUFFIX, DEFAULT_TIMEOUT_MS)
    case None => []
    case Some(text) => LinesAdds(gen, env, web, Split(text, '\n'), fuel)
  }

  /** The URLs `getSitemap` tries, in order. */
  function SitemapUrls(baseUrl: string): (r: seq<string>)
    ensures |r| == |SITEMAP_SUFFIXES|
    ensures forall i | 0 <= i < |r| :: r[i] == baseUrl + SITEMAP_SUFFIXES[i]
  {
    [baseUrl + SITEMAP_SUFFIXES[0], baseUrl + SITEMAP_SUFFIXES[1], baseUrl + SITEMAP_SUFFIXES[2]]
  }

  function SitemapListAdds(gen: Generation, env: UrlEnv, web: Web, urls: seq<string>, fuel: nat): seq<string> {
    if urls == [] then []
    else
      var u := urls[|urls| - 1];
      SitemapListAdds(gen, env, web, urls[..|urls| - 1], fuel) + (if IsValidUrl(env, u) then SitemapAdds(gen, env, web, u, fuel) else [])
  }

  /** `getSitemap`: each standard sitemap location in turn. */
  function SitemapsAdds(gen: Generation, env: UrlEnv, web: Web, baseUrl: string, fuel: nat): seq<string> {
    SitemapListAdds(gen, env, web, SitemapUrls(baseUrl), fuel)
  }

  /** The URLs of `urls` that pass `isValidUrl`, in order. */
  function ValidOnly(env: UrlEnv, urls: seq<string>): (r: seq<string>)
    ensures forall u | u in r :: u in urls && IsValidUrl(env, u)
    ensures forall u | u in urls && IsValidUrl(env, u) :: u in r
  {
    if urls == [] then []
    else
      var u := urls[|urls| - 1];
      ValidOnly(env, urls[..|urls| - 1]) + (if IsValidUrl(env, u) then [u] else [])
  }

  /** `getHTMLSitemap`: the valid link targets of `<base>/sitemap.html`. */
  function HtmlSitemapAdds(env: UrlEnv, web: Web, baseUrl: string): seq<string> {
    match OkText(env, web, baseUrl + HTML_SITEMAP_SUFFIX, DEFAULT_TIMEOUT_MS)
    case None => []
    case Some(text) => ValidOnly(env, web.htmlHrefs(text))
  }

  /** `scanMetaTags`: what the script injected into the active tab returns, when that tab holds a web page. */
  function PageLinkAdds(web: Web): seq<string> {
    if web.tabUrl.Some? && StartsWith(web.tabUrl.value, "http") && web.pageLinks.Some? then web.pageLinks.value else []
  }

  /** Every candidate the four discovery probes hand to `addCleanPath`. */
  function Discovered(gen: Generation, env: UrlEnv, web: Web, baseUrl: string, fuel: nat): seq<string> {
    RobotsAdds(gen, env, web, baseUrl, fuel) + SitemapsAdds(gen, env, web, baseUrl, fuel)
      + HtmlSitemapAdds(env, web, baseUrl) + PageLinkAdds(web)
  }

  /** The status a common path's probe records: that of an ok response, otherwise none. */
  function CommonHit(env: UrlEnv, web: Web, baseUrl: string, p: string): (r: Option<int>)
    ensures r.Some? <==> IsValidUrl(env, baseUrl + p) && web.get(baseUrl + p, COMMON_PATH_TIMEOUT_MS).Some?
                         && web.get(baseUrl + p, COMMON_PATH_TIMEOUT_MS).value.ok
    ensures r.Some? ==> r.value == web.get(baseUrl + p, COMMON_PATH_TIMEOUT_MS).value.status
  {
    match FetchWithTimeout(env, web, baseUrl + p, COMMON_PATH_TIMEOUT_MS)
    case Ok(response) => if response.ok then Some(response.status) else None
    case Err(_) => None
  }

  /** One more location: what it hands on is appended. */
  lemma LocsAddsSnoc(gen: Generation, env: UrlEnv, web: Web, locs: seq<string>, i: nat, fuel: nat)
    requires i < |locs|
    ensures LocsAdds(gen, env, web, locs[..i + 1], fuel) == LocsAdds(gen, env, web, locs[..i], fuel) + LocAdds(gen, env, web, locs[i], fuel)
  {
    assert locs[..i + 1][..i] == locs[..i];
  }

  /** One more robots.txt line: what it hands on is appended. */
  lemma LinesAddsSnoc(gen: Generation, env: UrlEnv, web: Web, lines: seq<string>, i: nat, fuel: nat)
    requires i < |lines|
    ensures LinesAdds(gen, env, web, lines[..i + 1], fuel) == LinesAdds(gen, env, web, lines[..i], fuel) + LineAdds(gen, env, web, lines[i], fuel)
  {
    assert lines[..i + 1][..i] == lines[..i];
  }

  /** One more standard sitemap location: its candidates are appended when it is valid. */
  lemma SitemapListAddsSnoc(gen: Generation, env: UrlEnv, web: Web, urls: seq<string>, i: nat, fuel: nat)
    requires i < |urls|
    ensures SitemapListAdds(gen, env, web, urls[..i + 1], fuel)
      == SitemapListAdds(gen, env, web, urls[..i], fuel) + (if IsValidUrl(env, urls[i]) then SitemapAdds(gen, env, web, urls[i], fuel) else [])
  {
    assert urls[..i + 1][..i] == urls[..i];
  }

  /** One more link: it is appended when it is valid. */
  lemma ValidOnlySnoc(env: UrlEnv, links: seq<string>, i: nat)
    requires i < |links|
    ensures ValidOnly(env, links[..i + 1]) == ValidOnly(env, links[..i]) + (if IsValidUrl(env, links[i]) then [links[i]] else [])
  {
    assert links[..i + 1][..i] == links[..i];
  }

  /** The writes `paths.set(path, response.status)` of the common-path probe, one per path that answered ok. */
  function CommonWrites(env: UrlEnv, web: Web, baseUrl: string, ps: seq<string>): map<string, Status> {
    if ps == [] then map[]
    else
      var p := ps[|ps| - 1];
      var prev := CommonWrites(env, web, baseUrl, ps[..|ps| - 1]);
      match CommonHit(env, web, baseUrl, p)
      case None => prev
      case Some(s) => prev[p := Some(s)]
  }

  /** The common-path probe writes exactly the paths that answered ok, each with the status it answered. */
  lemma {:induction false} CommonWritesExact(env: UrlEnv, web: Web, baseUrl: string, ps: seq<string>)
    ensures forall p :: p in CommonWrites(env, web, baseUrl, ps) <==> p in ps && CommonHit(env, web, baseUrl, p).Some?
    ensures forall p | p in CommonWrites(env, web, baseUrl, ps) :: CommonWrites(env, web, baseUrl, ps)[p] == CommonHit(env, web, baseUrl, p)
  {
    if ps != [] {
      CommonWritesExact(env, web, baseUrl, ps[..|ps| - 1]);
      assert ps == ps[..|ps| - 1] + [ps[|ps| - 1]];
    }
  }

  /** `es` lists `m`: one entry per key, with its status, in strictly increasing path order. */
  predicate Lists(es: seq<PathEntry>, m: map<string, Status>) {
    && (forall i, j | 0 <= i < j < |es| :: Less(es[i].path, es[j].path))
    && (forall i | 0 <= i < |es| :: es[i].path in m && es[i].status == m[es[i].path])
    && (forall k | k in m :: exists i | 0 <= i < |es| :: es[i].path == k)
  }

  /**
   * The map `getAllPaths` ends with, from the map `m` it started with: every
   * path already present stays, each common path that answered ok carries its
   * status, every other new path is one the normaliser accepted and carries
   * `null`, and existing paths keep their status unless a common-path probe
   * overwrote it.
   */
  lemma DiscoveryOutcome(m: map<string, Status>, env: UrlEnv, web: Web, baseUrl: string, fuel: nat)
    ensures var f := (Nulls(Accepted(env, baseUrl, Discovered(Current, env, web, baseUrl, fuel))) + m) + CommonWrites(env, web, baseUrl, COMMON_PATHS);
      && (forall k | k in m :: k in f)
      && (forall k | k in f && k !in m && k !in COMMON_PATHS :: Acceptable(k) && f[k] == None)
      && (forall k | k in COMMON_PATHS && CommonHit(env, web, baseUrl, k).Some? :: k in f && f[k] == CommonHit(env, web, baseUrl, k))
      && (forall k | k in f && !(k in COMMON_PATHS && CommonHit(env, web, baseUrl, k).Some?) :: f[k] == if k in m then m[k] else None)
  {
    AcceptedAreAcceptable(env, baseUrl, Discovered(Current, env, web, baseUrl, fuel));
    CommonWritesExact(env, web, baseUrl, COMMON_PATHS);
  }

  /** The path discovery of one page, rooted at `baseUrl` (`protocol//hostname`). */
  class SiteMapper {
    const baseUrl: string
    const env: UrlEnv
    /** Each discovered path with its status (`null` until known). */
    var paths: map<string, Status>

    constructor(baseUrl: string, env: UrlEnv)
      ensures this.baseUrl == baseUrl && this.env == env && paths == map[]
    {
      this.baseUrl := baseUrl;
      this.env := env;
      paths := map[];
    }

    /** `addCleanPath(url, status)`: stores the normalised path unless it is rejected or already known. */
    method AddCleanPath(url: string, status: Status)
      modifies this
      ensures paths == Insert(old(paths), env, baseUrl, url, status)
    {
      var key := CleanPath(env, baseUrl, url);
      assert Insert(paths, env, baseUrl, url, status) == InsertKey(paths, key, status);
      if key.Some? && key.value !in paths {
        paths := paths[key.value := status];
      }
    }

    /** `parseSitemapUrl(url)`, following nested sitemaps at most `fuel` levels deep. */
    method ParseSitemapUrl(web: Web, url: string, fuel: nat)
      modifies this
      ensures paths == AddAll(old(paths), env, baseUrl, SitemapAdds(Current, env, web, url, fuel))
      decreases fuel, 0
    {
      if fuel == 0 || !IsValidUrl(env, url) {
        SitemapAddsNone(Current, env, web, url, fuel);
        return;
      }
      var text := OkText(env, web, url, DEFAULT_TIMEOUT_MS);
      if text.None? {
        SitemapAddsNone(Current, env, web, url, fuel);
        return;
      }
      var locs := web.xmlLocs(text.value);
      SitemapAddsSome(Current, env, web, url, fuel, text.value);
      FollowLocs(web, locs, fuel - 1);
    }

    /** The loop of `parseSitemapUrl` over the `<loc>` and `<url>` texts of one sitemap. */
    method FollowLocs(web: Web, locs: seq<string>, fuel: nat)
      modifies this
      ensures paths == AddAll(old(paths), env, baseUrl, LocsAdds(Current, env, web, locs, fuel))
      decreases fuel, 2
    {
      var i := 0;
      while i < |locs|
        invariant 0 <= i <= |locs|
        invariant paths == AddAll(old(paths), env, baseUrl, LocsAdds(Current, env, web, locs[..i], fuel))
      {
        ghost var before := LocsAdds(Current, env, web, locs[..i], fuel);
        ghost var step := LocAdds(Current, env, web, locs[i], fuel);
        FollowLoc(web, locs[i], fuel);
        AddAllConcat(old(paths), env, baseUrl, before, step);
        LocsAddsSnoc(Current, env, web, locs, i, fuel);
        i := i + 1;
      }
      assert locs[..|locs|] == locs;
    }

    /** One `<loc>` or `<url>` text: skipped, followed as a nested sitemap, or added. */
    method FollowLoc(web: Web, loc: string, fuel: nat)
      modifies this
      ensures paths == AddAll(old(paths), env, baseUrl, LocAdds(Current, env, web, loc, fuel))
      decreases fuel, 1
    {
      match RouteLoc(env, loc) {
        case Skipped =>
        case NestedSitemap(u) =>
          ParseSitemapUrl(web, u, fuel);
        case PathCandidate(u) =>
          AddCleanPath(u, None);
          AddAllSnoc(old(paths), env, baseUrl, [], u);
      }
    }

    /** `getRobotsTxt`: `Sitemap` lines are followed, `Allow`/`Disallow` values are added. */
    method GetRobotsTxt(web: Web, fuel: nat)
      modifies this
      ensures paths == AddAll(old(paths), env, baseUrl, RobotsAdds(Current, env, web, baseUrl, fuel))
    {
      var response := FetchWithTimeout(env, web, baseUrl + ROBOTS_SUFFIX, DEFAULT_TIMEOUT_MS);
      if response.Err? || !response.value.ok {
        return;
      }
      var lines := Split(response.value.text, '\n');
      var i := 0;
      while i < |lines|
        invariant 0 <= i <= |lines|
        invariant paths == AddAll(old(paths), env, baseUrl, LinesAdds(Current, env, web, lines[..i], fuel))
      {
        ghost var before := LinesAdds(Current, env, web, lines[..i], fuel);
        match ClassifyRobotsLine(lines[i]) {
          case NoDirective =>
          case SitemapLine(u) =>
            if IsValidUrl(env, u) {
              ParseSitemapUrl(web, u, fuel);
            }
          case PathLine(p) => AddCleanPath(p, None);
        }
        AddAllConcat(old(paths), env, baseUrl, before, LineAdds(Current, env, web, lines[i], fuel));
        LinesAddsSnoc(Current, env, web, lines, i, fuel);
        i := i + 1;
      }
      assert lines[..|lines|] == lines;
    }

    /** `getSitemap`: the three standard sitemap locations, in turn. */
    method GetSitemap(web: Web, fuel: nat)
      modifies this
      ensures paths == AddAll(old(paths), env, baseUrl, SitemapsAdds(Current, env, web, baseUrl, fuel))
    {
      var urls := SitemapUrls(baseUrl);
      var i := 0;
      while i < |urls|
        invariant 0 <= i <= |urls|
        invariant paths == AddAll(old(paths), env, baseUrl, SitemapListAdds(Current, env, web, urls[..i], fuel))
      {
        ghost var before := SitemapListAdds(Current, env, web, urls[..i], fuel);
        if IsValidUrl(env, urls[i]) {
          ParseSitemapUrl(web, urls[i], fuel);
        }
        AddAllConcat(old(paths), env, baseUrl, before,
          if IsValidUrl(env, urls[i]) then SitemapAdds(Current, env, web, urls[i], fuel) else []);
        SitemapListAddsSnoc(Current, env, web, urls, i, fuel);
        i := i + 1;
      }
      assert urls[..|urls|] == urls;
    }

    /** `getHTMLSitemap`: every link of `<base>/sitemap.html` that passes `isValidUrl`. */
    method GetHtmlSitemap(web: Web)
      modifies this
      ensures paths == AddAll(old(paths), env, baseUrl, HtmlSitemapAdds(env, web, baseUrl))
    {
      var response := FetchWithTimeout(env, web, baseUrl + HTML_SITEMAP_SUFFIX, DEFAULT_TIMEOUT_MS);
      if response.Err? || !response.value.ok {
        return;
      }
      var links := web.htmlHrefs(response.value.text);
      var i := 0;
      while i < |links|
        invariant 0 <= i <= |links|
        invariant paths == AddAll(old(paths), env, baseUrl, ValidOnly(env, links[..i]))
      {
        ghost var before := ValidOnly(env, links[..i]);
        if IsValidUrl(env, links[i]) {
          AddCleanPath(links[i], None);
        }
        AddAllConcat(old(paths), env, baseUrl, before, if IsValidUrl(env, links[i]) then [links[i]] else []);
        ValidOnlySnoc(env, links, i);
        i := i + 1;
      }
      assert links[..|links|] == links;
    }

    /** `scanMetaTags`: the same-origin link paths of the active tab, when it holds a web page. */
    method ScanMetaTags(web: Web)
      modifies this
      ensures paths == AddAll(old(paths), env, baseUrl, PageLinkAdds(web))
    {
      if web.tabUrl.None? || !StartsWith(web.tabUrl.value, "http") || web.pageLinks.None? {
        return;
      }
      var links := web.pageLinks.value;
      assert PageLinkAdds(web) == links;
      var i := 0;
      while i < |links|
        invariant 0 <= i <= |links|
        invariant paths == AddAll(old(paths), env, baseUrl, links[..i])
      {
        AddCleanPath(links[i], None);
        assert links[..i + 1] == links[..i] + [links[i]];
        AddAllSnoc(old(paths), env, baseUrl, links[..i], links[i]);
        i := i + 1;
      }
      assert links[..|links|] == links;
    }

    /** `checkCommonPaths`: each common path that answers ok is set to its status, overwriting any earlier entry. */
    method CheckCommonPaths(web: Web)
      modifies this
      ensures paths == old(paths) + CommonWrites(env, web, baseUrl, COMMON_PATHS)
    {
      var i := 0;
      while i < |COMMON_PATHS|
        invariant 0 <= i <= |COMMON_PATHS|
        invariant paths == old(paths) + CommonWrites(env, web, baseUrl, COMMON_PATHS[..i])
      {
        var p := COMMON_PATHS[i];
        var response := FetchWithTimeout(env, web, baseUrl + p, COMMON_PATH_TIMEOUT_MS);
        if response.Ok? && response.value.ok {
          paths := paths[p := Some(response.value.status)];
        }
        assert COMMON_PATHS[..i + 1][..i] == COMMON_PATHS[..i];
        i := i + 1;
      }
      assert COMMON_PATHS[..|COMMON_PATHS|] == COMMON_PATHS;
    }

    /** The map as `{path, status}` records, ordered by path. */
    method SortedEntries() returns (r: seq<PathEntry>)
      ensures Lists(r, paths)
      ensures |r| == |paths|
    {
      var keys := SortedKeys(paths.Keys);
      r := [];
      var i := 0;
      while i < |keys|
        invariant 0 <= i <= |keys|
        invariant |r| == i
        invariant forall j | 0 <= j < i :: r[j] == PathEntry(keys[j], paths[keys[j]])
      {
        r := r + [PathEntry(keys[i], paths[keys[i]])];
        i := i + 1;
      }
      forall k | k in paths ensures exists j | 0 <= j < |r| :: r[j].path == k {
        var j :| 0 <= j < |keys| && keys[j] == k;
        assert r[j].path == k;
      }
    }

    /**
     * `getAllPaths`: refuses a base URL that fails `isValidUrl`; otherwise
     * runs the five probes and returns the map as sorted records. The probes
     * run here one after the other; `InterleavingIrrelevant` shows that any
     * interleaving of their writes ends in the same map.
     */
    method GetAllPaths(web: Web, fuel: nat) returns (r: Option<seq<PathEntry>>)
      modifies this
      ensures r.None? <==> !IsValidUrl(env, baseUrl)
      ensures r.None? ==> paths == old(paths)
      ensures r.Some? ==> paths == (Nulls(Accepted(env, baseUrl, Discovered(Current, env, web, baseUrl, fuel))) + old(paths))
                                   + CommonWrites(env, web, baseUrl, COMMON_PATHS)
      ensures r.Some? ==> Lists(r.value, paths) && |r.value| == |paths|
    {
      if !IsValidUrl(env, baseUrl) {
        return None;
      }
      ghost var m0 := paths;
      ghost var robots, sitemaps := RobotsAdds(Current, env, web, baseUrl, fuel), SitemapsAdds(Current, env, web, baseUrl, fuel);
      ghost var html, page := HtmlSitemapAdds(env, web, baseUrl), PageLinkAdds(web);
      GetRobotsTxt(web, fuel);
      GetSitemap(web, fuel);
      GetHtmlSitemap(web);
      ScanMetaTags(web);
      AddAllConcat(m0, env, baseUrl, robots, sitemaps);
      AddAllConcat(m0, env, baseUrl, robots + sitemaps, html);
      AddAllConcat(m0, env, baseUrl, robots + sitemaps + html, page);
      AddAllIsUnion(m0, env, baseUrl, Discovered(Current, env, web, baseUrl, fuel));
      CheckCommonPaths(web);
      var entries := SortedEntries();
      return Some(entries);
    }

    /** One batch: the HEAD probe of each of its entries, with the callback it makes. */
    method ProbeBatch(entries: array<PathEntry>, batch: seq<nat>, web: Web, ghost s0: seq<PathEntry>, ghost done: seq<nat>)
      returns (calls: seq<(string, Status)>)
      requires entries[..] == ProbedAt(s0, done, baseUrl, web)
      requires forall k | 0 <= k < |batch| :: batch[k] < |s0|
      modifies entries
      ensures entries[..] == ProbedAt(s0, done + batch, baseUrl, web)
      ensures calls == Callbacks(s0, batch, baseUrl, web)
    {
      calls := [];
      for j := 0 to |batch|
        invariant entries[..] == ProbedAt(s0, done + batch[..j], baseUrl, web)
        invariant calls == Callbacks(s0, batch[..j], baseUrl, web)
      {
        var p := batch[j];
        assert batch[..j + 1] == batch[..j] + [p];
        assert done + batch[..j + 1] == (done + batch[..j]) + [p];
        ProbedAtSnoc(s0, done + batch[..j], p, baseUrl, web);
        CallbacksSnoc(s0, batch[..j], p, baseUrl, web);
        var status := ProbeStatus(web.head(baseUrl + entries[p].path, HEAD_TIMEOUT_MS));
        entries[p] := entries[p].(status := status);
        calls := calls + [(entries[p].path, status)];
      }
      assert batch[..|batch|] == batch;
    }

    /**
     * `batchCheckStatuses(pathsArray, batchSize, maxChecks, onStatusUpdate)`:
     * HEAD-probes the entries without a truthy status, at most `maxChecks` of
     * them, `batchSize` at a time, updating each entry in place. Returns the
     * status callbacks made and the batches used. A `batchSize` below 1 makes
     * the source loop forever when anything is selected, so that is excluded.
     */
    method BatchCheckStatuses(entries: array<PathEntry>, batchSize: int, maxChecks: int, web: Web)
      returns (updates: seq<(string, Status)>, batches: seq<seq<nat>>)
      requires batchSize >= 1 || Selection(entries[..], maxChecks) == []
      modifies entries
      ensures entries[..] == Enriched(old(entries[..]), maxChecks, baseUrl, web)
      ensures updates == Callbacks(old(entries[..]), Selection(old(entries[..]), maxChecks), baseUrl, web)
      ensures batchSize >= 1 ==> batches == Batches(Selection(old(entries[..]), maxChecks), batchSize)
      ensures batchSize < 1 ==> batches == []
    {
      var sel := Selection(entries[..], maxChecks);
      if |sel| == 0 {
        assert entries[..] == ProbedAt(entries[..], sel, baseUrl, web);
        return [], [];
      }
      updates, batches := ProbeInBatches(entries, sel, batchSize, web, entries[..]);
    }

    /**
     * The loop of `batchCheckStatuses`: the selected positions, `batchSize`
     * at a time, each batch probed before the next one starts.
     */
    method ProbeInBatches(entries: array<PathEntry>, sel: seq<nat>, batchSize: int, web: Web, ghost s0: seq<PathEntry>)
      returns (updates: seq<(string, Status)>, batches: seq<seq<nat>>)
      requires batchSize >= 1
      requires entries[..] == s0 && forall k | 0 <= k < |sel| :: sel[k] < |s0|
      modifies entries
      ensures entries[..] == ProbedAt(s0, sel, baseUrl, web)
      ensures updates == Callbacks(s0, sel, baseUrl, web)
      ensures batches == Batches(sel, batchSize)
    {
      updates, batches := [], [];
      var i := 0;
      while i < |sel|
        invariant 0 <= i <= |sel|
        invariant forall k | 0 <= k < |sel| :: sel[k] < |s0|
        invariant batches + Batches(sel[i..], batchSize) == Batches(sel, batchSize)
        invariant updates == Callbacks(s0, sel[..i], baseUrl, web)
        invariant entries[..] == ProbedAt(s0, sel[..i], baseUrl, web)
      {
        var end := if i + batchSize < |sel| then i + batchSize else |sel|;
        var batch := sel[i..end];
        ScheduleStep(s0, sel, i, batchSize, end, baseUrl, web);
        var calls := ProbeBatch(entries, batch, web, s0, sel[..i]);
        updates := updates + calls;
        batches := batches + [batch];
        i := end;
      }
      assert sel[..|sel|] == sel;
    }
  }
}
