/**
 * The older `SiteMapper` of popup.js: the same five probes over a plain set
 * of paths, the older normaliser and sitemap route, a sorted list of paths,
 * and the popup's grouping of that list into Main, Sub and Deep pages.
 */
module LegacyMapper {
  import opened Wrappers
  import opened Text
  import opened Ordinal
  import opened Net
  import opened PathRules
  import opened Robots
  import opened Mapper

  /** The paths the older rule keeps from a run of candidates. */
  function LegacyAccepted(env: UrlEnv, baseUrl: string, urls: seq<string>): set<string> {
    if urls == [] then {}
    else LegacyAccepted(env, baseUrl, urls[..|urls| - 1]) + KeySet(LegacyCleanPath(env, baseUrl, urls[|urls| - 1]))
  }

  /** A sitemap that cannot be fetched, or is reached without fuel, leaves the older path set as it was. */
  lemma SitemapAcceptsNothing(env: UrlEnv, web: Web, baseUrl: string, url: string, fuel: nat, paths: set<string>)
    requires fuel == 0 || OkText(env, web, url, DEFAULT_TIMEOUT_MS).None?
    ensures paths == paths + LegacyAccepted(env, baseUrl, SitemapAdds(Legacy, env, web, url, fuel))
  {
    SitemapAddsNone(Legacy, env, web, url, fuel);
  }

  lemma {:induction false} LegacyAcceptedConcat(env: UrlEnv, baseUrl: string, a: seq<string>, b: seq<string>)
    ensures LegacyAccepted(env, baseUrl, a + b) == LegacyAccepted(env, baseUrl, a) + LegacyAccepted(env, baseUrl, b)
    decreases |b|
  {
    if b == [] {
      assert a + b == a;
    } else {
      LegacyAcceptedConcat(env, baseUrl, a, b[..|b| - 1]);
      assert (a + b)[..|a + b| - 1] == a + b[..|b| - 1];
    }
  }

  /** Accepting `before` and then `step` into a set is accepting `after`, their concatenation. */
  lemma AcceptedStep(env: UrlEnv, baseUrl: string, p0: set<string>, p: set<string>, q: set<string>,
                     before: seq<string>, step: seq<string>, after: seq<string>)
    requires after == before + step
    requires p == p0 + LegacyAccepted(env, baseUrl, before)
    requires q == p + LegacyAccepted(env, baseUrl, step)
    ensures q == p0 + LegacyAccepted(env, baseUrl, after)
  {
    LegacyAcceptedConcat(env, baseUrl, before, step);
  }

  /** Accepting no candidates leaves a set as it was. */
  lemma AcceptedNone(env: UrlEnv, baseUrl: string, p: set<string>, step: seq<string>)
    requires step == []
    ensures p == p + LegacyAccepted(env, baseUrl, step)
  {
  }

  /** One more `<loc>` of a sitemap, followed into the older path set. */
  lemma LocsAccepted(env: UrlEnv, web: Web, baseUrl: string, locs: seq<string>, i: nat, fuel: nat, p0: set<string>, p: set<string>, q: set<string>)
    requires i < |locs|
    requires p == p0 + LegacyAccepted(env, baseUrl, LocsAdds(Legacy, env, web, locs[..i], fuel))
    requires q == p + LegacyAccepted(env, baseUrl, LocAdds(Legacy, env, web, locs[i], fuel))
    ensures q == p0 + LegacyAccepted(env, baseUrl, LocsAdds(Legacy, env, web, locs[..i + 1], fuel))
  {
    LocsAddsSnoc(Legacy, env, web, locs, i, fuel);
    AcceptedStep(env, baseUrl, p0, p, q, LocsAdds(Legacy, env, web, locs[..i], fuel),
      LocAdds(Legacy, env, web, locs[i], fuel), LocsAdds(Legacy, env, web, locs[..i + 1], fuel));
  }

  /** One more robots.txt line, followed into the older path set. */
  lemma LinesAccepted(env: UrlEnv, web: Web, baseUrl: string, lines: seq<string>, i: nat, fuel: nat, p0: set<string>, p: set<string>, q: set<string>)
    requires i < |lines|
    requires p == p0 + LegacyAccepted(env, baseUrl, LinesAdds(Legacy, env, web, lines[..i], fuel))
    requires q == p + LegacyAccepted(env, baseUrl, LineAdds(Legacy, env, web, lines[i], fuel))
    ensures q == p0 + LegacyAccepted(env, baseUrl, LinesAdds(Legacy, env, web, lines[..i + 1], fuel))
  {
    LinesAddsSnoc(Legacy, env, web, lines, i, fuel);
    AcceptedStep(env, baseUrl, p0, p, q, LinesAdds(Legacy, env, web, lines[..i], fuel),
      LineAdds(Legacy, env, web, lines[i], fuel), LinesAdds(Legacy, env, web, lines[..i + 1], fuel));
  }

  /** Once every `<loc>` is followed, the older path set holds what the whole sitemap adds. */
  lemma AllLocsAccepted(env: UrlEnv, web: Web, baseUrl: string, locs: seq<string>, fuel: nat, adds: seq<string>, p0: set<string>, q: set<string>)
    requires adds == LocsAdds(Legacy, env, web, locs, fuel)
    requires q == p0 + LegacyAccepted(env, baseUrl, LocsAdds(Legacy, env, web, locs[..|locs|], fuel))
    ensures q == p0 + LegacyAccepted(env, baseUrl, adds)
  {
    assert locs[..|locs|] == locs;
  }

  lemma LegacyAcceptedOne(env: UrlEnv, baseUrl: string, u: string)
    ensures LegacyAccepted(env, baseUrl, [u]) == KeySet(LegacyCleanPath(env, baseUrl, u))
  {
    assert [u][..0] == [];
  }

  /** Every path the older rule keeps is the pathname of a same-host candidate and is not noise. */
  lemma {:induction false} LegacyAcceptedShape(env: UrlEnv, baseUrl: string, urls: seq<string>)
    ensures forall p | p in LegacyAccepted(env, baseUrl, urls) ::
      !IsNoise(p) && exists u | u in urls && SameHost(env, baseUrl, u) :: CandidatePathname(env, baseUrl, u) == p
    decreases |urls|
  {
    if urls != [] {
      var init, u := urls[..|urls| - 1], urls[|urls| - 1];
      LegacyAcceptedShape(env, baseUrl, init);
      forall p | p in LegacyAccepted(env, baseUrl, urls)
        ensures exists v | v in urls && SameHost(env, baseUrl, v) :: CandidatePathname(env, baseUrl, v) == p
      {
        if p in LegacyAccepted(env, baseUrl, init) {
          var v :| v in init && SameHost(env, baseUrl, v) && CandidatePathname(env, baseUrl, v) == p;
          assert v in urls;
        } else {
          assert u in urls;
        }
      }
    }
  }

  /** The common paths that answered ok. */
  function CommonHits(env: UrlEnv, web: Web, baseUrl: string, ps: seq<string>): (r: set<string>)
    ensures forall p :: p in r <==> p in ps && IsValidUrl(env, baseUrl + p) && web.get(baseUrl + p, COMMON_PATH_TIMEOUT_MS).Some?
                                    && web.get(baseUrl + p, COMMON_PATH_TIMEOUT_MS).value.ok
  {
    set p | p in ps && CommonHit(env, web, baseUrl, p).Some?
  }

  class LegacySiteMapper {
    const baseUrl: string
    const env: UrlEnv
    var paths: set<string>

    constructor(baseUrl: string, env: UrlEnv)
      ensures this.baseUrl == baseUrl && this.env == env && paths == {}
    {
      this.baseUrl := baseUrl;
      this.env := env;
      paths := {};
    }

    /** `addCleanPath(url)`: adds the pathname of a same-host URL unless it is noise. */
    method AddCleanPath(url: string)
      modifies this
      ensures paths == old(paths) + KeySet(LegacyCleanPath(env, baseUrl, url))
    {
      var key := LegacyCleanPath(env, baseUrl, url);
      if key.Some? {
        paths := paths + {key.value};
      }
    }

    method ParseSitemapUrl(web: Web, url: string, fuel: nat)
      modifies this
      ensures paths == old(paths) + LegacyAccepted(env, baseUrl, SitemapAdds(Legacy, env, web, url, fuel))
      decreases fuel, 0
    {
      if !IsValidUrl(env, url) {
        SitemapAcceptsNothing(env, web, baseUrl, url, fuel, paths);
        return;
      }
      if fuel == 0 {
        SitemapAcceptsNothing(env, web, baseUrl, url, fuel, paths);
        return;
      }
      var text := OkText(env, web, url, DEFAULT_TIMEOUT_MS);
      if text.None? {
        SitemapAcceptsNothing(env, web, baseUrl, url, fuel, paths);
        return;
      }
      var locs := web.xmlLocs(text.value);
      SitemapAddsSome(Legacy, env, web, url, fuel, text.value);
      FollowLocs(web, locs, fuel - 1, SitemapAdds(Legacy, env, web, url, fuel));
    }

    /** The loop of `parseSitemapUrl`; `adds` names what the enclosing sitemap adds, which is what its locations add. */
    method FollowLocs(web: Web, locs: seq<string>, fuel: nat, ghost adds: seq<string>)
      requires adds == LocsAdds(Legacy, env, web, locs, fuel)
      modifies this
      ensures paths == old(paths) + LegacyAccepted(env, baseUrl, adds)
      decreases fuel, 2
    {
      var i := 0;
      while i < |locs|
        invariant 0 <= i <= |locs|
        invariant paths == old(paths) + LegacyAccepted(env, baseUrl, LocsAdds(Legacy, env, web, locs[..i], fuel))
      {
        ghost var p := paths;
        FollowLoc(web, locs[i], fuel);
        LocsAccepted(env, web, baseUrl, locs, i, fuel, old(paths), p, paths);
        i := i + 1;
      }
      AllLocsAccepted(env, web, baseUrl, locs, fuel, adds, old(paths), paths);
    }

    method FollowLoc(web: Web, loc: string, fuel: nat)
      modifies this
      ensures paths == old(paths) + LegacyAccepted(env, baseUrl, LocAdds(Legacy, env, web, loc, fuel))
      decreases fuel, 1
    {
      match LegacyRouteLoc(env, loc) {
        case Skipped =>
        case NestedSitemap(u) =>
          ParseSitemapUrl(web, u, fuel);
        case PathCandidate(u) =>
          AddCleanPath(u);
          LegacyAcceptedOne(env, baseUrl, u);
      }
    }

    method GetRobotsTxt(web: Web, fuel: nat)
      modifies this
      ensures paths == old(paths) + LegacyAccepted(env, baseUrl, RobotsAdds(Legacy, env, web, baseUrl, fuel))
    {
      var response := FetchWithTimeout(env, web, baseUrl + ROBOTS_SUFFIX, DEFAULT_TIMEOUT_MS);
      if response.Err? || !response.value.ok {
        return;
      }
      var lines := Split(response.value.text, '\n');
      var i := 0;
      while i < |lines|
        invariant 0 <= i <= |lines|
        invariant paths == old(paths) + LegacyAccepted(env, baseUrl, LinesAdds(Legacy, env, web, lines[..i], fuel))
      {
        ghost var p := paths;
        FollowLine(web, lines[i], fuel);
        LinesAccepted(env, web, baseUrl, lines, i, fuel, old(paths), p, paths);
        i := i + 1;
      }
      assert lines[..|lines|] == lines;
    }

    /** One line of robots.txt: a `Sitemap:` line is followed when its URL is valid, an `Allow:` or `Disallow:` path is added. */
    method FollowLine(web: Web, line: string, fuel: nat)
      modifies this
      ensures paths == old(paths) + LegacyAccepted(env, baseUrl, LineAdds(Legacy, env, web, line, fuel))
    {
      match ClassifyRobotsLine(line) {
        case NoDirective =>
          AcceptedNone(env, baseUrl, paths, LineAdds(Legacy, env, web, line, fuel));
        case SitemapLine(u) =>
          if IsValidUrl(env, u) {
            ParseSitemapUrl(web, u, fuel);
          } else {
            AcceptedNone(env, baseUrl, paths, LineAdds(Legacy, env, web, line, fuel));
          }
        case PathLine(p) =>
          AddCleanPath(p);
          LegacyAcceptedOne(env, baseUrl, p);
      }
    }

    method GetSitemap(web: Web, fuel: nat)
      modifies this
      ensures paths == old(paths) + LegacyAccepted(env, baseUrl, SitemapsAdds(Legacy, env, web, baseUrl, fuel))
    {
      var urls := SitemapUrls(baseUrl);
      var i := 0;
      while i < |urls|
        invariant 0 <= i <= |urls|
        invariant paths == old(paths) + LegacyAccepted(env, baseUrl, SitemapListAdds(Legacy, env, web, urls[..i], fuel))
      {
        ghost var p0 := paths;
        ghost var step := if IsValidUrl(env, urls[i]) then SitemapAdds(Legacy, env, web, urls[i], fuel) else [];
        if IsValidUrl(env, urls[i]) {
          ParseSitemapUrl(web, urls[i], fuel);
        } else {
          AcceptedNone(env, baseUrl, paths, step);
        }
        SitemapListAddsSnoc(Legacy, env, web, urls, i, fuel);
        AcceptedStep(env, baseUrl, old(paths), p0, paths, SitemapListAdds(Legacy, env, web, urls[..i], fuel),
          step, SitemapListAdds(Legacy, env, web, urls[..i + 1], fuel));
        i := i + 1;
      }
      assert urls[..|urls|] == urls;
    }

    method GetHtmlSitemap(web: Web)
      modifies this
      ensures paths == old(paths) + LegacyAccepted(env, baseUrl, HtmlSitemapAdds(env, web, baseUrl))
    {
      var response := FetchWithTimeout(env, web, baseUrl + HTML_SITEMAP_SUFFIX, DEFAULT_TIMEOUT_MS);
      if response.Err? || !response.value.ok {
        return;
      }
      var links := web.htmlHrefs(response.value.text);
      var i := 0;
      while i < |links|
        invariant 0 <= i <= |links|
        invariant paths == old(paths) + LegacyAccepted(env, baseUrl, ValidOnly(env, links[..i]))
      {
        ghost var p0 := paths;
        ghost var step := if IsValidUrl(env, links[i]) then [links[i]] else [];
        if IsValidUrl(env, links[i]) {
          AddCleanPath(links[i]);
          LegacyAcceptedOne(env, baseUrl, links[i]);
        } else {
          AcceptedNone(env, baseUrl, paths, step);
        }
        ValidOnlySnoc(env, links, i);
        AcceptedStep(env, baseUrl, old(paths), p0, paths, ValidOnly(env, links[..i]), step, ValidOnly(env, links[..i + 1]));
        i := i + 1;
      }
      assert links[..|links|] == links;
    }

    method ScanMetaTags(web: Web)
      modifies this
      ensures paths == old(paths) + LegacyAccepted(env, baseUrl, PageLinkAdds(web))
    {
      if web.tabUrl.None? || !StartsWith(web.tabUrl.value, "http") || web.pageLinks.None? {
        return;
      }
      var links := web.pageLinks.value;
      assert PageLinkAdds(web) == links;
      var i := 0;
      while i < |links|
        invariant 0 <= i <= |links|
        invariant paths == old(paths) + LegacyAccepted(env, baseUrl, links[..i])
      {
        ghost var p0 := paths;
        AddCleanPath(links[i]);
        LegacyAcceptedOne(env, baseUrl, links[i]);
        assert links[..i + 1] == links[..i] + [links[i]];
        AcceptedStep(env, baseUrl, old(paths), p0, paths, links[..i], [links[i]], links[..i + 1]);
        i := i + 1;
      }
      assert links[..|links|] == links;
    }

    /** `checkCommonPaths`: each common path that answers ok is added as it is, without normalisation. */
    method CheckCommonPaths(web: Web)
      modifies this
      ensures paths == old(paths) + CommonHits(env, web, baseUrl, COMMON_PATHS)
    {
      var i := 0;
      while i < |COMMON_PATHS|
        invariant 0 <= i <= |COMMON_PATHS|
        invariant paths == old(paths) + CommonHits(env, web, baseUrl, COMMON_PATHS[..i])
      {
        var p := COMMON_PATHS[i];
        var response := FetchWithTimeout(env, web, baseUrl + p, COMMON_PATH_TIMEOUT_MS);
        if response.Ok? && response.value.ok {
          paths := paths + {p};
        }
        assert COMMON_PATHS[..i + 1] == COMMON_PATHS[..i] + [p];
        i := i + 1;
      }
      assert COMMON_PATHS[..|COMMON_PATHS|] == COMMON_PATHS;
    }

    /**
     * `getAllPaths`: refuses a base URL that fails `isValidUrl`; otherwise
     * runs the five probes (here one after the other; set union does not
     * depend on the order) and returns the set sorted.
     */
    method GetAllPaths(web: Web, fuel: nat) returns (r: Option<seq<string>>)
      modifies this
      ensures r.None? <==> !IsValidUrl(env, baseUrl)
      ensures r.None? ==> paths == old(paths)
      ensures r.Some? ==> paths == old(paths) + LegacyAccepted(env, baseUrl, Discovered(Legacy, env, web, baseUrl, fuel))
                                   + CommonHits(env, web, baseUrl, COMMON_PATHS)
      ensures r.Some? ==> StrictlySorted(r.value) && (forall p :: p in r.value <==> p in paths) && |r.value| == |paths|
    {
      if !IsValidUrl(env, baseUrl) {
        return None;
      }
      ghost var robots, sitemaps := RobotsAdds(Legacy, env, web, baseUrl, fuel), SitemapsAdds(Legacy, env, web, baseUrl, fuel);
      ghost var html, page := HtmlSitemapAdds(env, web, baseUrl), PageLinkAdds(web);
      ghost var m0 := paths;
      GetRobotsTxt(web, fuel);
      GetSitemap(web, fuel);
      GetHtmlSitemap(web);
      ScanMetaTags(web);
      LegacyAcceptedConcat(env, baseUrl, robots, sitemaps);
      LegacyAcceptedConcat(env, baseUrl, robots + sitemaps, html);
      LegacyAcceptedConcat(env, baseUrl, robots + sitemaps + html, page);
      assert Discovered(Legacy, env, web, baseUrl, fuel) == robots + sitemaps + html + page;
      assert paths == m0 + LegacyAccepted(env, baseUrl, Discovered(Legacy, env, web, baseUrl, fuel));
      CheckCommonPaths(web);
      var sorted := SortedKeys(paths);
      return Some(sorted);
    }
  }

  /** The popup's groups: one separator makes a Main page, two a Sub page, more a Deep page. */
  datatype Section = MainPages | SubPages | DeepPages

  /** The group of `p`, by `p.split("/").length`; a path without any "/" belongs to none. */
  function SectionOf(p: string): Option<Section> {
    var n := |Split(p, '/')|;
    if n == 2 then Some(MainPages)
    else if n == 3 then Some(SubPages)
    else if n > 3 then Some(DeepPages)
    else None
  }

  /** `paths.filter(...)` for one group, in list order. */
  function Grouped(paths: seq<string>, sec: Section): (r: seq<string>)
    ensures forall p :: p in r <==> p in paths && SectionOf(p) == Some(sec)
    ensures |r| <= |paths|
  {
    if paths == [] then []
    else
      var p := paths[|paths| - 1];
      Grouped(paths[..|paths| - 1], sec) + (if SectionOf(p) == Some(sec) then [p] else [])
  }

  /** Grouping is a filter: a concatenation is grouped part by part, so the list order survives. */
  lemma {:induction false} GroupedConcat(a: seq<string>, b: seq<string>, sec: Section)
    ensures Grouped(a + b, sec) == Grouped(a, sec) + Grouped(b, sec)
    decreases |b|
  {
    if b == [] {
      assert a + b == a;
    } else {
      var init, p := b[..|b| - 1], b[|b| - 1];
      var keep := if SectionOf(p) == Some(sec) then [p] else [];
      GroupedConcat(a, init, sec);
      assert (a + b)[..|a + b| - 1] == a + init;
      assert Grouped(a + b, sec) == Grouped(a + init, sec) + keep;
      assert Grouped(b, sec) == Grouped(init, sec) + keep;
    }
  }

  /** One path is kept exactly when it belongs to the group. */
  lemma GroupedOne(p: string, sec: Section)
    ensures Grouped([p], sec) == (if SectionOf(p) == Some(sec) then [p] else [])
  {
    assert [p][..0] == [];
  }

  lemma {:induction false} CountZero(s: string, c: char)
    ensures Count(s, c) == 0 <==> c !in s
  {
    if s != [] {
      CountZero(s[1..], c);
      assert s == [s[0]] + s[1..];
    }
  }

  /** A path's group is fixed by how many "/" it holds. */
  lemma SectionByDepth(p: string)
    ensures SectionOf(p) == Some(MainPages) <==> Count(p, '/') == 1
    ensures SectionOf(p) == Some(SubPages) <==> Count(p, '/') == 2
    ensures SectionOf(p) == Some(DeepPages) <==> Count(p, '/') >= 3
    ensures SectionOf(p).None? <==> '/' !in p
  {
    SplitLength(p, '/');
    CountZero(p, '/');
  }

  /**
   * The three groups split the list: every path holding a "/" (every
   * pathname) lands in exactly one group, and the group sizes add up to the
   * length of the list.
   */
  lemma {:induction false} GroupsPartition(paths: seq<string>)
    requires forall p | p in paths :: '/' in p
    ensures |Grouped(paths, MainPages)| + |Grouped(paths, SubPages)| + |Grouped(paths, DeepPages)| == |paths|
    ensures forall p | p in paths :: SectionOf(p).Some?
  {
    if paths != [] {
      var init, p := paths[..|paths| - 1], paths[|paths| - 1];
      assert forall q | q in init :: q in paths;
      GroupsPartition(init);
      SectionByDepth(p);
      forall q | q in paths ensures SectionOf(q).Some? {
        SectionByDepth(q);
      }
    }
  }
}
