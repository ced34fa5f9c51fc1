/**
 * The JavaScript string operations the core applies to URLs, paths and
 * robots.txt lines: the `\s` class, `trim`, `replace(/\s+/g, " ")`,
 * `includes`, `startsWith`, `endsWith`, `split`, ASCII `toLowerCase`, and the
 * date-time regular expression `\d{4}-\d{2}-\d{2}T\d{2}:\d{2}:\d{2}`.
 */
module Text {

  /** The characters of JavaScript's `\s`; `String.prototype.trim` removes the same set. */
  predicate IsSpace(c: char) {
    || c == ' ' || c == '\t' || c == '\n' || c == '\U{B}' || c == '\U{C}' || c == '\r'
    || c == '\U{A0}' || c == '\U{1680}' || ('\U{2000}' <= c <= '\U{200A}')
    || c == '\U{2028}' || c == '\U{2029}' || c == '\U{202F}' || c == '\U{205F}'
    || c == '\U{3000}' || c == '\U{FEFF}'
  }

  /** JavaScript's `\d` without the `u` flag: the ASCII digits only. */
  predicate IsDigit(c: char) {
    '0' <= c <= '9'
  }

  predicate IsAsciiAlnum(c: char) {
    IsDigit(c) || 'a' <= c <= 'z' || 'A' <= c <= 'Z'
  }

  function LowerChar(c: char): char {
    if 'A' <= c <= 'Z' then (c as int + 32) as char else c
  }

  /** `toLowerCase`, restricted to the ASCII letters. */
  function Lower(s: string): (r: string)
    ensures |r| == |s|
    ensures forall i | 0 <= i < |s| :: r[i] == LowerChar(s[i])
  {
    seq(|s|, i requires 0 <= i < |s| => LowerChar(s[i]))
  }

  /** What `toLowerCase` does to ASCII text: no upper-case letter is left, and exactly the upper-case letters change, each into its lower-case partner. */
  lemma LowerMeaning(s: string)
    ensures |Lower(s)| == |s|
    ensures forall i | 0 <= i < |s| :: !('A' <= Lower(s)[i] <= 'Z')
    ensures forall i | 0 <= i < |s| :: Lower(s)[i] != s[i] <==> 'A' <= s[i] <= 'Z'
    ensures forall i | 0 <= i < |s| && 'A' <= s[i] <= 'Z' :: Lower(s)[i] as int - 'a' as int == s[i] as int - 'A' as int
  {
  }

  predicate StartsWith(s: string, prefix: string) {
    |prefix| <= |s| && s[..|prefix|] == prefix
  }

  predicate EndsWith(s: string, suffix: string) {
    |suffix| <= |s| && s[|s| - |suffix|..] == suffix
  }

  /** `s.includes(sub)`: `sub` occurs at some position of `s` (the empty string occurs everywhere). */
  predicate Contains(s: string, sub: string) {
    exists i | 0 <= i <= |s| :: StartsWith(s[i..], sub)
  }

  lemma ContainsInSuffix(s: string, k: nat, sub: string)
    requires k <= |s| && Contains(s[k..], sub)
    ensures Contains(s, sub)
  {
    var i :| 0 <= i <= |s[k..]| && StartsWith(s[k..][i..], sub);
    assert s[k..][i..] == s[k + i..];
  }

  lemma ContainsInPrefix(s: string, k: nat, sub: string)
    requires k <= |s| && Contains(s[..k], sub)
    ensures Contains(s, sub)
  {
    var i :| 0 <= i <= |s[..k]| && StartsWith(s[..k][i..], sub);
    assert s[i..][..|sub|] == s[..k][i..][..|sub|];
  }

  /** Drops the leading characters of `\s`. */
  function TrimStart(s: string): (r: string)
    ensures |r| <= |s|
    ensures r == [] || !IsSpace(r[0])
    ensures forall i | 0 <= i < |s| - |r| :: IsSpace(s[i])
  {
    if s != [] && IsSpace(s[0]) then TrimStart(s[1..]) else s
  }

  /** What `TrimStart` keeps is a suffix of its input. */
  lemma {:induction false} TrimStartSuffix(s: string)
    ensures TrimStart(s) == s[|s| - |TrimStart(s)|..]
    decreases |s|
  {
    if s != [] && IsSpace(s[0]) {
      TrimStartSuffix(s[1..]);
      assert s[1..][|s[1..]| - |TrimStart(s)|..] == s[|s| - |TrimStart(s)|..];
    }
  }

  /** Drops the trailing characters of `\s`. */
  function TrimEnd(s: string): (r: string)
    ensures |r| <= |s| && r == s[..|r|]
    ensures r == [] || !IsSpace(r[|r| - 1])
    ensures forall i | |r| <= i < |s| :: IsSpace(s[i])
  {
    if s != [] && IsSpace(s[|s| - 1]) then TrimEnd(s[..|s| - 1]) else s
  }

  /** How many leading characters `trim` drops. */
  function TrimOffset(s: string): nat {
    |s| - |TrimStart(s)|
  }

  /** `String.prototype.trim`. */
  function Trim(s: string): (r: string)
    ensures r == [] || (!IsSpace(r[0]) && !IsSpace(r[|r| - 1]))
    ensures TrimOffset(s) + |r| <= |s|
  {
    TrimEnd(TrimStart(s))
  }

  /** What `trim` keeps is the slice of its input after the leading whitespace. */
  lemma TrimSlice(s: string)
    ensures Trim(s) == s[TrimOffset(s)..TrimOffset(s) + |Trim(s)|]
  {
    TrimStartSuffix(s);
  }

  /** Whitespace appears only as single spaces, never first, never last. */
  predicate IsCollapsed(s: string) {
    forall i | 0 <= i < |s| && IsSpace(s[i]) :: s[i] == ' ' && 0 < i < |s| - 1 && !IsSpace(s[i + 1])
  }

  /** A space is never followed by whitespace and every whitespace character is a space. */
  predicate Squashed(s: string) {
    forall i | 0 <= i < |s| && IsSpace(s[i]) :: s[i] == ' ' && (i + 1 < |s| ==> !IsSpace(s[i + 1]))
  }

  /**
   * `s.replace(/\s+/g, " ")`: every maximal run of whitespace becomes one
   * space; afterwards a space is never followed by whitespace.
   */
  function SquashSpaces(s: string): (r: string)
    ensures r == [] <==> s == []
    ensures s != [] && !IsSpace(s[0]) ==> r[0] == s[0]
    decreases |s|
  {
    if s == [] then []
    else if IsSpace(s[0]) then [' '] + SquashSpaces(TrimStart(s[1..]))
    else [s[0]] + SquashSpaces(s[1..])
  }

  lemma {:induction false} SquashIsSquashed(s: string)
    ensures Squashed(SquashSpaces(s))
    decreases |s|
  {
    if s != [] {
      var rest := if IsSpace(s[0]) then TrimStart(s[1..]) else s[1..];
      SquashIsSquashed(rest);
      var q := SquashSpaces(rest);
      var r := SquashSpaces(s);
      assert r == [r[0]] + q;
      forall i | 0 <= i < |r| && IsSpace(r[i])
        ensures r[i] == ' ' && (i + 1 < |r| ==> !IsSpace(r[i + 1]))
      {
        if i > 0 {
          assert r[i] == q[i - 1];
          if i + 1 < |r| {
            assert r[i + 1] == q[i];
          }
        } else if 1 < |r| {
          assert r[1] == q[0];
        }
      }
    }
  }

  /** `s.replace(/\s+/g, " ").trim()`, the whitespace clean-up of the path normaliser. */
  function Collapse(s: string): (r: string)
    ensures IsCollapsed(r)
  {
    SquashIsSquashed(s);
    TrimSquashed(SquashSpaces(s));
    Trim(SquashSpaces(s))
  }

  lemma TrimSquashed(q: string)
    requires Squashed(q)
    ensures IsCollapsed(Trim(q))
  {
    var r, a := Trim(q), TrimOffset(q);
    TrimSlice(q);
    forall i | 0 <= i < |r| && IsSpace(r[i])
      ensures r[i] == ' ' && 0 < i < |r| - 1 && !IsSpace(r[i + 1])
    {
      assert r[i] == q[a + i];
      if i + 1 < |r| {
        assert r[i + 1] == q[a + i + 1];
      }
    }
  }

  lemma {:induction false} SquashOfCollapsed(s: string)
    requires forall i | 0 <= i < |s| && IsSpace(s[i]) :: i + 1 < |s| && !IsSpace(s[i + 1]) && s[i] == ' '
    ensures SquashSpaces(s) == s
    decreases |s|
  {
    if s != [] {
      if IsSpace(s[0]) {
        assert TrimStart(s[1..]) == s[1..];
      }
      SquashOfCollapsed(s[1..]);
    }
  }

  /** Collapsing is idempotent: a collapsed string is left as it is. */
  lemma CollapseFixesCollapsed(s: string)
    requires IsCollapsed(s)
    ensures Collapse(s) == s
  {
    SquashOfCollapsed(s);
    assert TrimStart(s) == s;
    assert TrimEnd(s) == s;
  }

  /** A collapsed string has no whitespace at either end. */
  lemma TrimFixesCollapsed(s: string)
    requires IsCollapsed(s)
    ensures Trim(s) == s
  {
    assert TrimStart(s) == s;
    assert TrimEnd(s) == s;
  }

  lemma CollapseIdempotent(s: string)
    ensures Collapse(Collapse(s)) == Collapse(s)
  {
    CollapseFixesCollapsed(Collapse(s));
  }

  predicate NoSpace(w: string) {
    forall i | 0 <= i < |w| :: !IsSpace(w[i])
  }

  lemma {:induction false} SquashPrefix(t: string, u: string)
    requires NoSpace(u) && StartsWith(SquashSpaces(t), u)
    ensures StartsWith(t, u)
    decreases |u|
  {
    if u != [] {
      assert u[0] == SquashSpaces(t)[0];
      var q := SquashSpaces(t[1..]);
      assert SquashSpaces(t) == [t[0]] + q;
      assert StartsWith(q, u[1..]) by {
        assert q[..|u| - 1] == SquashSpaces(t)[1..|u|];
      }
      SquashPrefix(t[1..], u[1..]);
    }
  }

  /** What `SquashSpaces` keeps of `s` after its first character: the rest, with leading whitespace dropped after a space. */
  function SquashTail(s: string): (rest: string)
    requires s != []
    ensures |rest| < |s|
  {
    if IsSpace(s[0]) then TrimStart(s[1..]) else s[1..]
  }

  /** What `SquashSpaces` keeps after the first character is a suffix of its input. */
  lemma SquashTailSuffix(s: string)
    requires s != []
    ensures SquashTail(s) == s[|s| - |SquashTail(s)|..]
  {
    if IsSpace(s[0]) {
      TrimStartSuffix(s[1..]);
      assert s[1..][|s[1..]| - |SquashTail(s)|..] == s[|s| - |SquashTail(s)|..];
    }
  }

  lemma SquashStep(s: string)
    requires s != []
    ensures SquashSpaces(s) == [SquashSpaces(s)[0]] + SquashSpaces(SquashTail(s))
  {
  }

  /** A match at a later position of `[c] + q` is a match in `q`. */
  lemma ContainsInTail(c: char, q: string, i: nat, w: string)
    requires 0 < i <= |q| + 1 && StartsWith(([c] + q)[i..], w)
    ensures Contains(q, w)
  {
    assert ([c] + q)[i..] == q[i - 1..];
  }

  /** A space-free word found after `replace(/\s+/g, " ")` was already in the input. */
  lemma {:induction false} SquashKeepsWords(s: string, w: string)
    requires w != [] && NoSpace(w) && Contains(SquashSpaces(s), w)
    ensures Contains(s, w)
    decreases |s|
  {
    var q := SquashSpaces(s);
    var i :| 0 <= i <= |q| && StartsWith(q[i..], w);
    if i == 0 {
      assert q[0..] == q;
      SquashPrefix(s, w);
      assert s[0..] == s;
    } else {
      var rest := SquashTail(s);
      SquashTailSuffix(s);
      SquashStep(s);
      ContainsInTail(q[0], SquashSpaces(rest), i, w);
      SquashKeepsWords(rest, w);
      ContainsInSuffix(s, |s| - |rest|, w);
    }
  }

  /** The nineteen characters `DDDD-DD-DDTDD:DD:DD`. */
  predicate IsTimestamp(w: string) {
    && |w| == 19
    && IsDigit(w[0]) && IsDigit(w[1]) && IsDigit(w[2]) && IsDigit(w[3]) && w[4] == '-'
    && IsDigit(w[5]) && IsDigit(w[6]) && w[7] == '-' && IsDigit(w[8]) && IsDigit(w[9])
    && w[10] == 'T' && IsDigit(w[11]) && IsDigit(w[12]) && w[13] == ':'
    && IsDigit(w[14]) && IsDigit(w[15]) && w[16] == ':' && IsDigit(w[17]) && IsDigit(w[18])
  }

  /** `s.match(/\d{4}-\d{2}-\d{2}T\d{2}:\d{2}:\d{2}/)` finds a match somewhere in `s`. */
  predicate HasTimestamp(s: string) {
    exists i | 0 <= i <= |s| - 19 :: TimestampAt(s, i)
  }

  predicate TimestampAt(s: string, i: nat)
    requires i + 19 <= |s|
  {
    IsTimestamp(s[i..i + 19])
  }

  lemma TimestampHasNoSpace(w: string)
    requires IsTimestamp(w)
    ensures w != [] && NoSpace(w)
  {
    forall i | 0 <= i < |w| ensures !IsSpace(w[i]) {
      assert IsDigit(w[i]) || w[i] in "-T:";
    }
  }

  /** A date-time match inside a substring of `s` is a match in `s`. */
  lemma TimestampInSlice(s: string, a: nat, b: nat)
    requires a <= b <= |s| && HasTimestamp(s[a..b])
    ensures HasTimestamp(s)
  {
    var i :| 0 <= i <= b - a - 19 && TimestampAt(s[a..b], i);
    var t := s[a..b];
    assert forall k | i <= k < i + 19 :: t[k] == s[a + k];
    assert t[i..i + 19] == s[a + i..a + i + 19];
    assert TimestampAt(s, a + i);
  }

  /** A date-time match after `replace(/\s+/g, " ")` was already in the input. */
  lemma SquashKeepsTimestamp(s: string)
    requires HasTimestamp(SquashSpaces(s))
    ensures HasTimestamp(s)
  {
    var q := SquashSpaces(s);
    var i :| 0 <= i <= |q| - 19 && TimestampAt(q, i);
    var w := q[i..i + 19];
    TimestampHasNoSpace(w);
    assert StartsWith(q[i..], w);
    SquashKeepsWords(s, w);
    var j :| 0 <= j <= |s| && StartsWith(s[j..], w);
    assert s[j..j + 19] == w;
    assert TimestampAt(s, j);
  }

  /** Collapsing whitespace never creates a date-time match that was not there before. */
  lemma CollapseKeepsTimestampFree(s: string)
    requires !HasTimestamp(s)
    ensures !HasTimestamp(Collapse(s))
  {
    var q := SquashSpaces(s);
    var a := TrimOffset(q);
    if HasTimestamp(Collapse(s)) {
      TrimSlice(q);
      TimestampInSlice(q, a, a + |Collapse(s)|);
      SquashKeepsTimestamp(s);
    }
  }

  /** `s.split(sep)`: the pieces between occurrences of `sep`. */
  function Split(s: string, sep: char): (r: seq<string>)
    ensures |r| >= 1
    ensures forall k | 0 <= k < |r| :: sep !in r[k]
  {
    if s == [] then [[]]
    else
      var rest := Split(s[1..], sep);
      if s[0] == sep then [[]] + rest
      else [[s[0]] + rest[0]] + rest[1..]
  }

  /** `parts.join(sep)`. */
  function Join(parts: seq<string>, sep: char): string {
    if |parts| == 0 then []
    else if |parts| == 1 then parts[0]
    else parts[0] + [sep] + Join(parts[1..], sep)
  }

  /** Splitting and joining again on the same separator gives back the input. */
  lemma {:induction false} JoinSplit(s: string, sep: char)
    ensures Join(Split(s, sep), sep) == s
  {
    if s != [] {
      var rest := Split(s[1..], sep);
      JoinSplit(s[1..], sep);
      if s[0] != sep {
        if |rest| > 1 {
          assert Join([[s[0]] + rest[0]] + rest[1..], sep) == [s[0]] + rest[0] + [sep] + Join(rest[1..], sep);
        }
      }
    }
  }

  lemma {:induction false} SplitNoSeparator(a: string, sep: char)
    requires sep !in a
    ensures Split(a, sep) == [a]
  {
    if a != [] {
      SplitNoSeparator(a[1..], sep);
      assert [a[0]] + a[1..] == a;
    }
  }

  lemma {:induction false} SplitAtSeparator(a: string, b: string, sep: char)
    requires sep !in a
    ensures Split(a + [sep] + b, sep) == [a] + Split(b, sep)
  {
    if a == [] {
      assert (a + [sep] + b)[1..] == b;
    } else {
      SplitAtSeparator(a[1..], b, sep);
      assert (a + [sep] + b)[1..] == a[1..] + [sep] + b;
      assert [a[0]] + a[1..] == a;
    }
  }

  /** Joining separator-free pieces and splitting again gives back the pieces. */
  lemma {:induction false} SplitJoin(parts: seq<string>, sep: char)
    requires |parts| >= 1 && forall k | 0 <= k < |parts| :: sep !in parts[k]
    ensures Split(Join(parts, sep), sep) == parts
  {
    if |parts| == 1 {
      SplitNoSeparator(parts[0], sep);
    } else {
      SplitJoin(parts[1..], sep);
      SplitAtSeparator(parts[0], Join(parts[1..], sep), sep);
    }
  }

  /** `toLowerCase` leaves a string without upper-case ASCII letters unchanged. */
  lemma LowerFixesLowercase(s: string)
    requires forall i | 0 <= i < |s| :: !('A' <= s[i] <= 'Z')
    ensures Lower(s) == s
  {
  }

  function Count(s: string, c: char): nat {
    if s == [] then 0 else (if s[0] == c then 1 else 0) + Count(s[1..], c)
  }

  /** `s.split(sep).length` is one more than the number of separators. */
  lemma {:induction false} SplitLength(s: string, sep: char)
    ensures |Split(s, sep)| == Count(s, sep) + 1
  {
    if s != [] {
      SplitLength(s[1..], sep);
    }
  }

  /** `parts.filter(Boolean)`: the non-empty pieces, in order. */
  function NonEmpty(parts: seq<string>): (r: seq<string>)
    ensures |r| <= |parts|
    ensures forall k | 0 <= k < |r| :: r[k] != [] && r[k] in parts
  {
    if parts == [] then []
    else if parts[0] == [] then NonEmpty(parts[1..])
    else [parts[0]] + NonEmpty(parts[1..])
  }

  /** `filter(Boolean)` drops exactly the empty pieces: every non-empty piece of the input is kept. */
  lemma {:induction false} NonEmptyMembers(parts: seq<string>, x: string)
    ensures x in NonEmpty(parts) <==> x in parts && x != []
  {
    if parts != [] {
      NonEmptyMembers(parts[1..], x);
      assert parts == [parts[0]] + parts[1..];
    }
  }

  /** `filter(Boolean)` keeps the non-empty pieces in their order: a concatenation is filtered part by part. */
  lemma {:induction false} NonEmptyConcat(a: seq<string>, b: seq<string>)
    ensures NonEmpty(a + b) == NonEmpty(a) + NonEmpty(b)
    decreases |a|
  {
    if a != [] {
      assert (a + b)[0] == a[0];
      assert (a + b)[1..] == a[1..] + b;
      NonEmptyConcat(a[1..], b);
    } else {
      assert a + b == b;
    }
  }
}
