/**
 * `PathFilter` of src/popup.js in its ordinary (non-regular-expression)
 * mode: a pattern with a "/" is matched segment by segment, any other
 * pattern as a case-insensitive substring of the whole path.
 */
module Filter {
  import opened Text

  /** A compiled search: the pattern as typed, lower-cased, and its non-empty "/"-separated segments. */
  datatype PathFilter = PathFilter(originalPattern: string, pattern: string, segments: seq<string>)

  /** `new PathFilter(pattern)`. */
  function Compile(pattern: string): PathFilter {
    PathFilter(pattern, Lower(pattern), NonEmpty(Split(pattern, '/')))
  }

  /** `path.split("/").filter(Boolean)`. */
  function PathSegments(path: string): seq<string> {
    NonEmpty(Split(path, '/'))
  }

  /** One search segment against one path segment: `*` and `**` match anything, otherwise a case-insensitive substring. */
  predicate SegmentMatches(search: string, segment: string) {
    search == "*" || search == "**" || Contains(Lower(segment), Lower(search))
  }

  /** `segments.every((s, index) => index < pathSegments.length && ...)`. */
  function Every(search: seq<string>, segs: seq<string>): (r: bool)
    ensures r <==> |search| <= |segs| && forall i | 0 <= i < |search| :: SegmentMatches(search[i], segs[i])
  {
    if search == [] then true
    else |segs| > 0 && SegmentMatches(search[0], segs[0]) && Every(search[1..], segs[1..])
  }

  /** `matches(path)`. */
  function Matches(f: PathFilter, path: string): bool {
    if f.originalPattern == [] then true
    else if '/' in f.pattern then Every(f.segments, PathSegments(path))
    else Contains(Lower(path), f.pattern)
  }

  lemma LowerKeepsSlash(s: string)
    ensures '/' in Lower(s) <==> '/' in s
  {
    if '/' in s {
      var i :| 0 <= i < |s| && s[i] == '/';
      assert Lower(s)[i] == '/';
    }
  }

  /**
   * What a pattern matches, stated without the compiled form: the empty
   * pattern matches every path; a pattern with a "/" needs at least as many
   * path segments as it has segments, each matching its counterpart; any
   * other pattern must occur in the path, ignoring case.
   */
  lemma MatchesMeaning(pattern: string, path: string)
    ensures Matches(Compile(pattern), path) <==>
      || pattern == []
      || ('/' in pattern && |NonEmpty(Split(pattern, '/'))| <= |PathSegments(path)|
          && forall i | 0 <= i < |NonEmpty(Split(pattern, '/'))| :: SegmentMatches(NonEmpty(Split(pattern, '/'))[i], PathSegments(path)[i]))
      || ('/' !in pattern && Contains(Lower(path), Lower(pattern)))
  {
    LowerKeepsSlash(pattern);
  }

  /** Lower-casing every string of a list. */
  function LowerAll(xs: seq<string>): (r: seq<string>)
    ensures |r| == |xs| && forall i | 0 <= i < |xs| :: r[i] == Lower(xs[i])
  {
    seq(|xs|, i requires 0 <= i < |xs| => Lower(xs[i]))
  }

  lemma LowerIdempotent(s: string)
    ensures Lower(Lower(s)) == Lower(s)
  {
  }

  /** Lower-casing commutes with splitting on "/", which has no case. */
  lemma {:induction false} SplitLower(s: string)
    ensures Split(Lower(s), '/') == LowerAll(Split(s, '/'))
  {
    if s != [] {
      SplitLower(s[1..]);
      assert Lower(s)[1..] == Lower(s[1..]);
      var rest := Split(s[1..], '/');
      if s[0] != '/' {
        assert Lower([s[0]] + rest[0]) == [LowerChar(s[0])] + Lower(rest[0]);
        assert LowerAll(rest)[1..] == LowerAll(rest[1..]);
      } else {
        assert LowerAll([[]] + rest) == [[]] + LowerAll(rest);
      }
    }
  }

  lemma LowerAllCons(x: string, ys: seq<string>)
    ensures LowerAll([x] + ys) == [Lower(x)] + LowerAll(ys)
  {
  }

  lemma {:induction false} NonEmptyLower(xs: seq<string>)
    ensures NonEmpty(LowerAll(xs)) == LowerAll(NonEmpty(xs))
  {
    if xs != [] {
      var x, ys := xs[0], xs[1..];
      assert xs == [x] + ys;
      NonEmptyLower(ys);
      LowerAllCons(x, ys);
      var l := LowerAll(xs);
      assert l[0] == Lower(x) && l[1..] == LowerAll(ys);
      assert (Lower(x) == []) == (x == []);
      if x != [] {
        LowerAllCons(x, NonEmpty(ys));
      }
    }
  }

  lemma SegmentMatchesLower(search: string, segment: string)
    ensures SegmentMatches(search, Lower(segment)) == SegmentMatches(search, segment)
    ensures SegmentMatches(Lower(search), segment) == SegmentMatches(search, segment)
  {
    LowerIdempotent(segment);
    LowerIdempotent(search);
    if Lower(search) == "*" || Lower(search) == "**" {
      assert Lower(search)[0] == LowerChar(search[0]);
    }
  }

  /** Matching ignores case: lower-casing the path does not change the outcome. */
  lemma MatchesIgnoresPathCase(pattern: string, path: string)
    ensures Matches(Compile(pattern), Lower(path)) == Matches(Compile(pattern), path)
  {
    var f := Compile(pattern);
    LowerIdempotent(path);
    SplitLower(path);
    NonEmptyLower(Split(path, '/'));
    var segs := PathSegments(path);
    assert PathSegments(Lower(path)) == LowerAll(segs);
    forall i | 0 <= i < |segs| && i < |f.segments|
      ensures SegmentMatches(f.segments[i], Lower(segs[i])) == SegmentMatches(f.segments[i], segs[i])
    {
      SegmentMatchesLower(f.segments[i], segs[i]);
    }
  }

  /** Matching ignores case: lower-casing the pattern does not change the outcome. */
  lemma MatchesIgnoresPatternCase(pattern: string, path: string)
    ensures Matches(Compile(Lower(pattern)), path) == Matches(Compile(pattern), path)
  {
    var f, g := Compile(pattern), Compile(Lower(pattern));
    LowerIdempotent(pattern);
    SplitLower(pattern);
    NonEmptyLower(Split(pattern, '/'));
    assert g.segments == LowerAll(f.segments);
    forall i | 0 <= i < |f.segments| && i < |PathSegments(path)|
      ensures SegmentMatches(g.segments[i], PathSegments(path)[i]) == SegmentMatches(f.segments[i], PathSegments(path)[i])
    {
      SegmentMatchesLower(f.segments[i], PathSegments(path)[i]);
    }
  }

  lemma SplitExample(s: string, parts: seq<string>)
    requires |parts| >= 1 && (forall k | 0 <= k < |parts| :: '/' !in parts[k]) && Join(parts, '/') == s
    ensures Split(s, '/') == parts
  {
    SplitJoin(parts, '/');
  }

  lemma BlogPattern(pattern: string)
    requires pattern == "/blog/*"
    ensures Compile(pattern).segments == ["blog", "*"] && '/' in Compile(pattern).pattern
    ensures Compile(pattern).originalPattern != []
  {
    SplitExample(pattern, ["", "blog", "*"]);
    assert NonEmpty(["", "blog", "*"]) == ["blog", "*"];
    LowerFixesLowercase(pattern);
    assert pattern[0] == '/';
  }

  lemma BlogSegmentMatches(blog: string, shop: string)
    requires blog == "blog" && shop == "shop"
    ensures SegmentMatches(blog, blog) && !SegmentMatches(blog, shop)
  {
    LowerFixesLowercase(blog);
    LowerFixesLowercase(shop);
    assert StartsWith(blog[0..], blog);
    forall i | 0 <= i <= |shop|
      ensures !StartsWith(shop[i..], blog)
    {
      if i == 0 {
        assert shop[i..][0] != blog[0];
      }
    }
  }

  /** The pattern `blog` then a wildcard segment matches `/blog/my-post`. */
  lemma SegmentExampleMatch(pattern: string, post: string)
    requires pattern == "/blog/*" && post == "/blog/my-post"
    ensures Matches(Compile(pattern), post)
  {
    BlogPattern(pattern);
    BlogSegmentMatches("blog", "shop");
    SplitExample(post, ["", "blog", "my-post"]);
    assert NonEmpty(["", "blog", "my-post"]) == ["blog", "my-post"];
  }

  /** The pattern `blog` then a wildcard segment rejects `/blog`: it has fewer segments than the pattern. */
  lemma SegmentExampleTooFew(pattern: string, bare: string)
    requires pattern == "/blog/*" && bare == "/blog"
    ensures !Matches(Compile(pattern), bare)
  {
    BlogPattern(pattern);
    SplitExample(bare, ["", "blog"]);
    assert NonEmpty(["", "blog"]) == ["blog"];
  }

  /** The pattern `blog` then a wildcard segment rejects `/shop/blog`: segments are compared by position. */
  lemma SegmentExampleByPosition(pattern: string, other: string)
    requires pattern == "/blog/*" && other == "/shop/blog"
    ensures !Matches(Compile(pattern), other)
  {
    BlogPattern(pattern);
    BlogSegmentMatches("blog", "shop");
    SplitExample(other, ["", "shop", "blog"]);
    assert NonEmpty(["", "shop", "blog"]) == ["shop", "blog"];
  }

  /** A pattern without a slash matches any path whose lower-cased text contains the lower-cased pattern at some offset. */
  lemma SubstringMatch(pattern: string, path: string, k: nat)
    requires pattern != [] && '/' !in Lower(pattern)
    requires k <= |Lower(path)| && StartsWith(Lower(path)[k..], Lower(pattern))
    ensures Matches(Compile(pattern), path)
  {
  }

  /** `contact` matches `/contact-us` and `/about/contact`, as a substring anywhere. */
  lemma SubstringExamples(pattern: string, first: string, second: string)
    requires pattern == "contact" && first == "/contact-us" && second == "/about/contact"
    ensures Matches(Compile(pattern), first)
    ensures Matches(Compile(pattern), second)
  {
    LowerFixesLowercase(pattern);
    LowerFixesLowercase(first);
    LowerFixesLowercase(second);
    assert first[1..8] == pattern;
    assert second[7..] == pattern;
    SubstringMatch(pattern, first, 1);
    SubstringMatch(pattern, second, 7);
  }
}
