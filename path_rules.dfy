/**
 * The path normaliser (`addCleanPath` of src/popup.js and its older form in
 * popup.js) and the algebra of the path store it inserts into.
 */
module PathRules {
  import opened Wrappers
  import opened Text
  import opened Net

  /** A path's HTTP status: `null` (unknown or not yet checked) or a number. */
  type Status = Option<int>

  /** One `{path, status}` record of the final path list. */
  datatype PathEntry = PathEntry(path: string, status: Status)

  /** `new URL(url, baseUrl)` for a string beginning with "/", `new URL(url)` otherwise. */
  function ParseCandidate(env: UrlEnv, baseUrl: string, url: string): Option<ParsedUrl> {
    if StartsWith(url, "/") then env.resolve(url, baseUrl) else env.parse(url)
  }

  /** Both URLs parse and name the same hostname. */
  predicate SameHost(env: UrlEnv, baseUrl: string, url: string) {
    && ParseCandidate(env, baseUrl, url).Some?
    && env.parse(baseUrl).Some?
    && ParseCandidate(env, baseUrl, url).value.hostname == env.parse(baseUrl).value.hostname
  }

  function CandidatePathname(env: UrlEnv, baseUrl: string, url: string): string
    requires SameHost(env, baseUrl, url)
  {
    ParseCandidate(env, baseUrl, url).value.pathname
  }

  /** The final filter: empty, the root, or holding `*`, `$` or `..`. */
  predicate IsNoise(p: string) {
    p == [] || p == "/" || '*' in p || '$' in p || Contains(p, "..")
  }

  /** The shape of every path the normaliser stores. */
  predicate Acceptable(p: string) {
    !IsNoise(p) && !HasTimestamp(p) && IsCollapsed(p)
  }

  /**
   * Steps after the host check: percent-decode (keeping the raw pathname if
   * decoding throws), reject date-time-like text, collapse whitespace, reject
   * noise.
   */
  function NormalizePathname(env: UrlEnv, pathname: string): (r: Option<string>)
    ensures r.Some? ==> Acceptable(r.value)
  {
    var decoded := env.decode(pathname).GetOr(pathname);
    if HasTimestamp(decoded) then None
    else
      var path := Collapse(decoded);
      if IsNoise(path) then None
      else
        CollapseKeepsTimestampFree(decoded);
        Some(path)
  }

  /** A pathname already in canonical form, on which decoding changes nothing, is kept as it is. */
  lemma NormalizeKeepsCanonical(env: UrlEnv, pathname: string)
    requires Acceptable(pathname)
    requires env.decode(pathname) == None || env.decode(pathname) == Some(pathname)
    ensures NormalizePathname(env, pathname) == Some(pathname)
  {
    CollapseFixesCollapsed(pathname);
  }

  /** `addCleanPath`'s acceptance rule: the canonical path to store, or `None` when the candidate is rejected. */
  function CleanPath(env: UrlEnv, baseUrl: string, url: string): (r: Option<string>)
    ensures r.Some? ==> SameHost(env, baseUrl, url) && Acceptable(r.value)
    ensures !SameHost(env, baseUrl, url) ==> r.None?
  {
    if SameHost(env, baseUrl, url) then NormalizePathname(env, CandidatePathname(env, baseUrl, url)) else None
  }

  /** The older rule of popup.js: the raw pathname of a same-host URL unless it is noise. */
  function LegacyCleanPath(env: UrlEnv, baseUrl: string, url: string): (r: Option<string>)
    ensures r.Some? ==> SameHost(env, baseUrl, url) && !IsNoise(r.value) && r.value == CandidatePathname(env, baseUrl, url)
    ensures SameHost(env, baseUrl, url) && !IsNoise(CandidatePathname(env, baseUrl, url)) ==> r.Some?
  {
    if SameHost(env, baseUrl, url) && !IsNoise(CandidatePathname(env, baseUrl, url))
    then Some(CandidatePathname(env, baseUrl, url))
    else None
  }

  /**
   * On a pathname that is already collapsed, free of date-time text and
   * unchanged by decoding, the two rules agree.
   */
  lemma RulesAgreeOnPlainPaths(env: UrlEnv, baseUrl: string, url: string)
    requires SameHost(env, baseUrl, url)
    requires var p := CandidatePathname(env, baseUrl, url);
      && IsCollapsed(p) && !HasTimestamp(p)
      && (env.decode(p) == None || env.decode(p) == Some(p))
    ensures CleanPath(env, baseUrl, url) == LegacyCleanPath(env, baseUrl, url)
  {
    CollapseFixesCollapsed(CandidatePathname(env, baseUrl, url));
  }

  /** The older rule stores date-time-like paths that the newer rule rejects. */
  lemma LegacyKeepsTimestamps(env: UrlEnv, baseUrl: string, url: string)
    requires SameHost(env, baseUrl, url)
    requires var p := CandidatePathname(env, baseUrl, url);
      && HasTimestamp(p) && !IsNoise(p)
      && (env.decode(p) == None || env.decode(p) == Some(p))
    ensures LegacyCleanPath(env, baseUrl, url).Some? && CleanPath(env, baseUrl, url).None?
  {
  }

  /**
   * `addCleanPath(url, status)` on the path map: first writer wins. At most
   * the one normalised key is added, no existing status changes, and a
   * candidate from another host (or one that does not parse) changes nothing.
   */
  function Insert(m: map<string, Status>, env: UrlEnv, baseUrl: string, url: string, status: Status): (r: map<string, Status>)
    ensures forall k | k in m :: k in r && r[k] == m[k]
    ensures forall k | k in r && k !in m :: CleanPath(env, baseUrl, url) == Some(k) && r[k] == status
    ensures CleanPath(env, baseUrl, url).Some? ==> CleanPath(env, baseUrl, url).value in r
    ensures !SameHost(env, baseUrl, url) ==> r == m
  {
    InsertKey(m, CleanPath(env, baseUrl, url), status)
  }

  /** Stores `key` with `status` unless it is absent or already present. */
  function InsertKey(m: map<string, Status>, key: Option<string>, status: Status): map<string, Status> {
    match key
    case None => m
    case Some(p) => if p in m then m else m[p := status]
  }

  function KeySet(key: Option<string>): set<string> {
    if key.Some? then {key.value} else {}
  }

  /** `addCleanPath(url)` (status `null`) applied to each candidate in turn. */
  function AddAll(m: map<string, Status>, env: UrlEnv, baseUrl: string, urls: seq<string>): map<string, Status> {
    if urls == [] then m
    else Insert(AddAll(m, env, baseUrl, urls[..|urls| - 1]), env, baseUrl, urls[|urls| - 1], None)
  }

  lemma AddAllSnoc(m: map<string, Status>, env: UrlEnv, baseUrl: string, urls: seq<string>, u: string)
    ensures AddAll(m, env, baseUrl, urls + [u]) == Insert(AddAll(m, env, baseUrl, urls), env, baseUrl, u, None)
  {
    assert (urls + [u])[..|urls|] == urls;
  }

  /** Adding two runs of candidates one after the other is adding their concatenation. */
  lemma {:induction false} AddAllConcat(m: map<string, Status>, env: UrlEnv, baseUrl: string, a: seq<string>, b: seq<string>)
    ensures AddAll(m, env, baseUrl, a + b) == AddAll(AddAll(m, env, baseUrl, a), env, baseUrl, b)
    decreases |b|
  {
    if b == [] {
      assert a + b == a;
    } else {
      var init, last := b[..|b| - 1], b[|b| - 1];
      AddAllConcat(m, env, baseUrl, a, init);
      assert (a + b)[..|a + b| - 1] == a + init;
      assert (a + b)[|a + b| - 1] == last;
      assert AddAll(m, env, baseUrl, a + b) == Insert(AddAll(m, env, baseUrl, a + init), env, baseUrl, last, None);
      assert AddAll(AddAll(m, env, baseUrl, a), env, baseUrl, b)
        == Insert(AddAll(AddAll(m, env, baseUrl, a), env, baseUrl, init), env, baseUrl, last, None);
    }
  }

  /** The canonical paths of the candidates the rule accepts. */
  function Accepted(env: UrlEnv, baseUrl: string, urls: seq<string>): set<string> {
    if urls == [] then {}
    else Accepted(env, baseUrl, urls[..|urls| - 1]) + AcceptedOne(env, baseUrl, urls[|urls| - 1])
  }

  /** Every accepted path has the shape the normaliser promises. */
  lemma {:induction false} AcceptedAreAcceptable(env: UrlEnv, baseUrl: string, urls: seq<string>)
    ensures forall k | k in Accepted(env, baseUrl, urls) :: Acceptable(k)
    decreases |urls|
  {
    if urls != [] {
      AcceptedAreAcceptable(env, baseUrl, urls[..|urls| - 1]);
    }
  }

  /** Every path of `keys`, with status `null`. */
  function Nulls(keys: set<string>): map<string, Status> {
    map k | k in keys :: None
  }

  lemma AcceptedSnoc(env: UrlEnv, baseUrl: string, urls: seq<string>, u: string)
    ensures Accepted(env, baseUrl, urls + [u]) == Accepted(env, baseUrl, urls) + AcceptedOne(env, baseUrl, u)
  {
    assert (urls + [u])[..|urls|] == urls;
  }

  /** The set of paths one candidate contributes: its canonical path, or nothing. */
  function AcceptedOne(env: UrlEnv, baseUrl: string, u: string): set<string> {
    KeySet(CleanPath(env, baseUrl, u))
  }

  lemma InsertIntoUnion(a: set<string>, m: map<string, Status>, env: UrlEnv, baseUrl: string, u: string)
    ensures Insert(Nulls(a) + m, env, baseUrl, u, None) == Nulls(a + AcceptedOne(env, baseUrl, u)) + m
  {
    InsertKeyIntoUnion(a, m, CleanPath(env, baseUrl, u));
  }

  lemma InsertKeyIntoUnion(a: set<string>, m: map<string, Status>, c: Option<string>)
    ensures InsertKey(Nulls(a) + m, c, None) == Nulls(a + KeySet(c)) + m
  {
    var x := Nulls(a) + m;
    if c.None? {
      assert a + {} == a;
    } else {
      var p := c.value;
      var y := Nulls(a + {p}) + m;
      if p in x {
        assert y.Keys == x.Keys;
        assert forall k | k in y :: y[k] == x[k];
      } else {
        var z := x[p := None];
        assert y.Keys == z.Keys;
        assert forall k | k in y :: y[k] == z[k];
      }
    }
  }

  /**
   * The store after a run of `addCleanPath` calls: the paths already present
   * keep their status, every newly accepted path has status `null`, and
   * nothing else is there.
   */
  lemma {:induction false} AddAllIsUnion(m: map<string, Status>, env: UrlEnv, baseUrl: string, urls: seq<string>)
    ensures AddAll(m, env, baseUrl, urls) == Nulls(Accepted(env, baseUrl, urls)) + m
    decreases |urls|
  {
    if urls == [] {
      assert Nulls(Accepted(env, baseUrl, urls)) + m == m;
    } else {
      var init, u := urls[..|urls| - 1], urls[|urls| - 1];
      assert urls == init + [u];
      AddAllIsUnion(m, env, baseUrl, init);
      AcceptedSnoc(env, baseUrl, init, u);
      InsertIntoUnion(Accepted(env, baseUrl, init), m, env, baseUrl, u);
    }
  }

  /** The order of the candidates does not matter, so neither does the order the probes finish in. */
  lemma AddAllOrderIrrelevant(m: map<string, Status>, env: UrlEnv, baseUrl: string, a: seq<string>, b: seq<string>)
    ensures AddAll(AddAll(m, env, baseUrl, a), env, baseUrl, b) == AddAll(AddAll(m, env, baseUrl, b), env, baseUrl, a)
  {
    var sa, sb := Accepted(env, baseUrl, a), Accepted(env, baseUrl, b);
    AddAllIsUnion(m, env, baseUrl, a);
    AddAllIsUnion(m, env, baseUrl, b);
    AddAllIsUnion(Nulls(sa) + m, env, baseUrl, b);
    AddAllIsUnion(Nulls(sb) + m, env, baseUrl, a);
    NullsUnion(sa, sb, m);
    NullsUnion(sb, sa, m);
    assert sa + sb == sb + sa;
  }

  lemma NullsUnion(a: set<string>, b: set<string>, m: map<string, Status>)
    ensures Nulls(b) + (Nulls(a) + m) == Nulls(a + b) + m
  {
    var l, r := Nulls(b) + (Nulls(a) + m), Nulls(a + b) + m;
    assert l.Keys == r.Keys;
    assert forall k | k in l :: l[k] == r[k];
  }

  /**
   * One write to the shared path map: an `addCleanPath(url)` of one of the
   * discovery probes, or the unconditional `paths.set(path, status)` of the
   * common-path probe.
   */
  datatype Op = Add(url: string) | Overwrite(path: string, status: Status)

  function Apply(m: map<string, Status>, env: UrlEnv, baseUrl: string, ops: seq<Op>): map<string, Status> {
    if ops == [] then m
    else
      var prev := Apply(m, env, baseUrl, ops[..|ops| - 1]);
      match ops[|ops| - 1]
      case Add(url) => Insert(prev, env, baseUrl, url, None)
      case Overwrite(p, s) => prev[p := s]
  }

  function AddsOf(ops: seq<Op>): seq<string> {
    if ops == [] then []
    else AddsOf(ops[..|ops| - 1]) + (if ops[|ops| - 1].Add? then [ops[|ops| - 1].url] else [])
  }

  /** The overwrites of `ops` as one map; a later write to the same path wins. */
  function WritesOf(ops: seq<Op>): map<string, Status> {
    if ops == [] then map[]
    else if ops[|ops| - 1].Overwrite? then WritesOf(ops[..|ops| - 1])[ops[|ops| - 1].path := ops[|ops| - 1].status]
    else WritesOf(ops[..|ops| - 1])
  }

  /** An `addCleanPath` after some overwrites acts as if it had come before them. */
  lemma InsertUnderWrites(x: map<string, Status>, w: map<string, Status>, env: UrlEnv, baseUrl: string, u: string)
    ensures Insert(x + w, env, baseUrl, u, None) == Insert(x, env, baseUrl, u, None) + w
  {
    InsertKeyUnderWrites(x, w, CleanPath(env, baseUrl, u));
  }

  lemma InsertKeyUnderWrites(x: map<string, Status>, w: map<string, Status>, c: Option<string>)
    ensures InsertKey(x + w, c, None) == InsertKey(x, c, None) + w
  {
    var l, r := InsertKey(x + w, c, None), InsertKey(x, c, None) + w;
    assert l.Keys == r.Keys;
    assert forall k | k in l :: l[k] == r[k];
  }

  /**
   * However the probes' writes interleave, the final map is the initial map
   * plus every accepted candidate (status `null`, unless already present),
   * overridden by the common-path probe's writes: the outcome depends only on
   * the set of accepted paths and on the overwrites, never on the order.
   */
  lemma {:induction false} InterleavingIrrelevant(m: map<string, Status>, env: UrlEnv, baseUrl: string, ops: seq<Op>)
    ensures Apply(m, env, baseUrl, ops) == (Nulls(Accepted(env, baseUrl, AddsOf(ops))) + m) + WritesOf(ops)
    decreases |ops|
  {
    if ops == [] {
      assert Nulls(Accepted(env, baseUrl, [])) == map[];
    } else {
      var init, last := ops[..|ops| - 1], ops[|ops| - 1];
      InterleavingIrrelevant(m, env, baseUrl, init);
      var a := Accepted(env, baseUrl, AddsOf(init));
      var w := WritesOf(init);
      if last.Add? {
        AcceptedSnoc(env, baseUrl, AddsOf(init), last.url);
        assert AddsOf(ops) == AddsOf(init) + [last.url];
        InsertUnderWrites(Nulls(a) + m, w, env, baseUrl, last.url);
        InsertIntoUnion(a, m, env, baseUrl, last.url);
      } else {
        assert AddsOf(ops) == AddsOf(init);
        var l, r := ((Nulls(a) + m) + w)[last.path := last.status], (Nulls(a) + m) + w[last.path := last.status];
        assert l.Keys == r.Keys;
        assert forall k | k in l :: l[k] == r[k];
      }
    }
  }
}
