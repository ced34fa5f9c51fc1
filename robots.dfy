/**
 * The robots.txt line classifier shared by both `SiteMapper` versions:
 * `line.match(/^(?:Allow|Disallow|Sitemap):\s*(\S+)/i)` followed by the
 * case-sensitive `match[0].startsWith("Sitemap")` routing test.
 */
module Robots {
  import opened Wrappers
  import opened Text

  /** What one line of robots.txt asks the mapper to do. */
  datatype RobotsLine = NoDirective | SitemapLine(url: string) | PathLine(value: string)

  /** The length of a leading `Allow:`, `Disallow:` or `Sitemap:`, in any ASCII case. */
  function DirectiveLength(line: string): (r: Option<nat>)
    ensures r.Some? ==> r.value <= |line|
  {
    if StartsWith(Lower(line), "allow:") then Some(6)
    else if StartsWith(Lower(line), "disallow:") then Some(9)
    else if StartsWith(Lower(line), "sitemap:") then Some(8)
    else None
  }

  /** The end of the run of whitespace starting at `i` (the `\s*`). */
  function SkipSpaces(line: string, i: nat): (r: nat)
    requires i <= |line|
    ensures i <= r <= |line|
    ensures forall j | i <= j < r :: IsSpace(line[j])
    ensures r == |line| || !IsSpace(line[r])
    decreases |line| - i
  {
    if i < |line| && IsSpace(line[i]) then SkipSpaces(line, i + 1) else i
  }

  /** The end of the run of non-whitespace starting at `k` (the greedy `\S+`). */
  function TokenEnd(line: string, k: nat): (r: nat)
    requires k <= |line|
    ensures k <= r <= |line|
    ensures forall j | k <= j < r :: !IsSpace(line[j])
    ensures r == |line| || IsSpace(line[r])
    decreases |line| - k
  {
    if k < |line| && !IsSpace(line[k]) then TokenEnd(line, k + 1) else k
  }

  function ClassifyRobotsLine(line: string): RobotsLine {
    match DirectiveLength(line)
    case None => NoDirective
    case Some(n) =>
      var k := SkipSpaces(line, n);
      var e := TokenEnd(line, k);
      if e == k then NoDirective
      else if StartsWith(line, "Sitemap") then SitemapLine(line[k..e])
      else PathLine(line[k..e])
  }

  /** The value a directive line captured. */
  function Captured(r: RobotsLine): string
    requires !r.NoDirective?
  {
    if r.SitemapLine? then r.url else r.value
  }

  /**
   * The regular expression matches `line`: a directive of length `n` in any
   * case, whitespace up to `k`, and the captured group `line[k..e]`, a
   * maximal non-empty run of non-whitespace.
   */
  predicate RegexMatch(line: string, n: nat, k: nat, e: nat) {
    && n <= k < e <= |line|
    && Lower(line[..n]) in {"allow:", "disallow:", "sitemap:"}
    && (forall i | n <= i < k :: IsSpace(line[i]))
    && (forall i | k <= i < e :: !IsSpace(line[i]))
    && (e == |line| || IsSpace(line[e]))
  }

  lemma LowerPrefix(line: string, n: nat)
    requires n <= |line|
    ensures Lower(line)[..n] == Lower(line[..n])
  {
  }

  lemma DirectiveLengthSound(line: string)
    requires DirectiveLength(line).Some?
    ensures Lower(line[..DirectiveLength(line).value]) in {"allow:", "disallow:", "sitemap:"}
  {
    LowerPrefix(line, DirectiveLength(line).value);
  }

  /** Whenever the line is classified as a directive, the regular expression matches it and captures that value. */
  lemma ClassifySound(line: string)
    requires !ClassifyRobotsLine(line).NoDirective?
    ensures exists n: nat, k: nat, e: nat | RegexMatch(line, n, k, e) :: Captured(ClassifyRobotsLine(line)) == line[k..e]
  {
    var n := DirectiveLength(line).value;
    DirectiveLengthSound(line);
    var k := SkipSpaces(line, n);
    var e := TokenEnd(line, k);
    assert RegexMatch(line, n, k, e);
  }

  /** The directive the regular expression matched is the one `DirectiveLength` finds. */
  lemma DirectiveLengthComplete(line: string, n: nat)
    requires n <= |line| && Lower(line[..n]) in {"allow:", "disallow:", "sitemap:"}
    ensures DirectiveLength(line) == Some(n)
  {
    LowerPrefix(line, n);
    var low := Lower(line);
    if Lower(line[..n]) == "allow:" {
      assert StartsWith(low, "allow:");
    } else if Lower(line[..n]) == "disallow:" {
      assert low[0] == 'd';
      assert StartsWith(low, "disallow:");
    } else {
      assert low[0] == 's';
      assert StartsWith(low, "sitemap:");
    }
  }

  lemma SkipSpacesAt(line: string, i: nat, k: nat)
    requires i <= k <= |line| && (forall j | i <= j < k :: IsSpace(line[j])) && (k == |line| || !IsSpace(line[k]))
    ensures SkipSpaces(line, i) == k
  {
  }

  lemma TokenEndAt(line: string, k: nat, e: nat)
    requires k <= e <= |line| && (forall j | k <= j < e :: !IsSpace(line[j])) && (e == |line| || IsSpace(line[e]))
    ensures TokenEnd(line, k) == e
  {
  }

  /** Whenever the regular expression matches, the line is classified as a directive with exactly the captured value. */
  lemma ClassifyComplete(line: string, n: nat, k: nat, e: nat)
    requires RegexMatch(line, n, k, e)
    ensures !ClassifyRobotsLine(line).NoDirective?
    ensures Captured(ClassifyRobotsLine(line)) == line[k..e]
  {
    DirectiveLengthComplete(line, n);
    SkipSpacesAt(line, n, k);
    TokenEndAt(line, k, e);
  }

  /**
   * Routing: a directive line goes to the sitemap parser exactly when the
   * matched text begins with the case-sensitive "Sitemap"; a lower-case
   * `sitemap:` line, like every `Allow`/`Disallow` line, is a path line.
   */
  lemma RoutingIsCaseSensitive(line: string, n: nat, k: nat, e: nat)
    requires RegexMatch(line, n, k, e)
    ensures ClassifyRobotsLine(line).SitemapLine? <==> StartsWith(line[..e], "Sitemap")
    ensures ClassifyRobotsLine(line).PathLine? <==> !StartsWith(line[..e], "Sitemap")
  {
    ClassifyComplete(line, n, k, e);
    assert Lower(line[..n]) in {"allow:", "disallow:", "sitemap:"};
    assert |line[..n]| >= 6;
    assert line[..e][..7] == line[..7];
  }
}
