/**
 * `btoa` and `atob` as the license cache uses them: the Base64 encoding of
 * RFC 4648 section 4 over strings of Latin-1 characters, and the
 * "forgiving-base64 decode" of the WHATWG Infra standard (section 4.7),
 * which strips ASCII whitespace and tolerates missing padding. The
 * obfuscation of the license cache reverses the encoded text.
 */
module Base64 {
  import opened Wrappers

  /** The character of the Base64 alphabet for the 6-bit value `i`. */
  function IndexToChar(i: nat): (c: char)
    requires i < 64
  {
    if i < 26 then (65 + i) as char
    else if i < 52 then (97 + i - 26) as char
    else if i < 62 then (48 + i - 52) as char
    else if i == 62 then '+'
    else '/'
  }

  /** The 6-bit value of an alphabet character, `None` for any other character. */
  function CharToIndex(c: char): (r: Option<nat>)
    ensures r.Some? ==> r.value < 64 && IndexToChar(r.value) == c
  {
    if 'A' <= c <= 'Z' then Some(c as int - 65)
    else if 'a' <= c <= 'z' then Some(c as int - 97 + 26)
    else if '0' <= c <= '9' then Some(c as int - 48 + 52)
    else if c == '+' then Some(62)
    else if c == '/' then Some(63)
    else None
  }

  lemma IndexRoundTrip(i: nat)
    requires i < 64
    ensures CharToIndex(IndexToChar(i)) == Some(i)
  {
  }

  predicate IsAlphabet(c: char) {
    CharToIndex(c).Some?
  }

  /** What `btoa` accepts: every character is a single byte (code point at most 0xFF). */
  predicate IsLatin1(s: string) {
    forall i | 0 <= i < |s| :: s[i] as int < 256
  }

  /** Three bytes as four 6-bit values, most significant bits first. */
  function Quad(b0: nat, b1: nat, b2: nat): (r: seq<nat>)
    requires b0 < 256 && b1 < 256 && b2 < 256
    ensures |r| == 4 && forall k | 0 <= k < 4 :: r[k] < 64
  {
    [b0 / 4, (b0 % 4) * 16 + b1 / 16, (b1 % 16) * 4 + b2 / 64, b2 % 64]
  }

  /**
   * The 6-bit values of the encoding of `s` before padding: four per
   * complete group of three bytes, then two for one trailing byte or three
   * for two trailing bytes (the missing low bits are zero).
   */
  function Sextets(s: string): (r: seq<nat>)
    requires IsLatin1(s)
    ensures |r| == 4 * (|s| / 3) + (if |s| % 3 == 0 then 0 else |s| % 3 + 1)
    ensures forall k | 0 <= k < |r| :: r[k] < 64
  {
    if |s| == 0 then []
    else if |s| == 1 then Quad(s[0] as nat, 0, 0)[..2]
    else if |s| == 2 then Quad(s[0] as nat, s[1] as nat, 0)[..3]
    else Quad(s[0] as nat, s[1] as nat, s[2] as nat) + Sextets(s[3..])
  }

  function Chars(xs: seq<nat>): (r: string)
    requires forall k | 0 <= k < |xs| :: xs[k] < 64
    ensures |r| == |xs| && forall k | 0 <= k < |xs| :: r[k] == IndexToChar(xs[k])
  {
    seq(|xs|, k requires 0 <= k < |xs| => IndexToChar(xs[k]))
  }

  /** The `=` characters that complete the last group of four. */
  function Padding(n: nat): string {
    if n % 3 == 1 then "==" else if n % 3 == 2 then "=" else ""
  }

  /** `btoa(s)`: `None` stands for the `InvalidCharacterError` it throws on a character above 0xFF. */
  function Btoa(s: string): (r: Option<string>)
    ensures r.Some? <==> IsLatin1(s)
    ensures r.Some? ==> |r.value| % 4 == 0 && |r.value| == 4 * ((|s| + 2) / 3)
  {
    if IsLatin1(s) then Some(Chars(Sextets(s)) + Padding(|s|)) else None
  }

  /** The whitespace that forgiving-base64 decode removes: TAB, LF, FF, CR and SPACE. */
  predicate IsAsciiWhitespace(c: char) {
    c == '\t' || c == '\n' || c == '\U{C}' || c == '\r' || c == ' '
  }

  function RemoveWhitespace(s: string): (r: string)
    ensures |r| <= |s|
    ensures forall k | 0 <= k < |r| :: !IsAsciiWhitespace(r[k])
  {
    if s == [] then []
    else if IsAsciiWhitespace(s[0]) then RemoveWhitespace(s[1..])
    else [s[0]] + RemoveWhitespace(s[1..])
  }

  /** Step 2: when the length is a multiple of four, one or two trailing `=` are dropped. */
  function DropPadding(d: string): (r: string)
    ensures |r| <= |d|
  {
    if |d| % 4 == 0 && |d| >= 2 && d[|d| - 1] == '=' && d[|d| - 2] == '=' then d[..|d| - 2]
    else if |d| % 4 == 0 && |d| >= 1 && d[|d| - 1] == '=' then d[..|d| - 1]
    else d
  }

  function Value(c: char): (v: nat)
    requires IsAlphabet(c)
    ensures v < 64 && CharToIndex(c) == Some(v)
  {
    CharToIndex(c).value
  }

  /** The 6-bit values of a string of alphabet characters. */
  function Indices(d: string): (r: seq<nat>)
    requires forall k | 0 <= k < |d| :: IsAlphabet(d[k])
    ensures |r| == |d| && forall k | 0 <= k < |d| :: r[k] == Value(d[k])
  {
    seq(|d|, k requires 0 <= k < |d| => Value(d[k]))
  }

  /** Four 6-bit values back to bytes: all three of a full group, or the one or two a short group carries. */
  function Bytes(xs: seq<nat>): (r: string)
    requires |xs| % 4 != 1
    requires forall k | 0 <= k < |xs| :: xs[k] < 64
    ensures IsLatin1(r)
    ensures |r| == 3 * (|xs| / 4) + (if |xs| % 4 == 0 then 0 else |xs| % 4 - 1)
  {
    if |xs| == 0 then []
    else
      var b0 := (xs[0] * 4 + xs[1] / 16) as char;
      if |xs| == 2 then [b0]
      else
        var b1 := ((xs[1] % 16) * 16 + xs[2] / 4) as char;
        if |xs| == 3 then [b0, b1]
        else [b0, b1, ((xs[2] % 4) * 64 + xs[3]) as char] + Bytes(xs[4..])
  }

  /** `atob(s)`: `None` stands for the `InvalidCharacterError` it throws. */
  function Atob(s: string): (r: Option<string>)
    ensures r.Some? ==> IsLatin1(r.value)
  {
    var d := DropPadding(RemoveWhitespace(s));
    if |d| % 4 == 1 then None
    else if exists k | 0 <= k < |d| :: !IsAlphabet(d[k]) then None
    else Some(Bytes(Indices(d)))
  }

  /** The arithmetic heart of the round trip: one group of three bytes survives encoding and decoding. */
  lemma QuadRoundTrip(b0: nat, b1: nat, b2: nat)
    requires b0 < 256 && b1 < 256 && b2 < 256
    ensures var q := Quad(b0, b1, b2);
      && q[0] * 4 + q[1] / 16 == b0
      && (q[1] % 16) * 16 + q[2] / 4 == b1
      && (q[2] % 4) * 64 + q[3] == b2
  {
  }

  /** One step of `Bytes` over a full group. */
  lemma BytesStep(xs: seq<nat>)
    requires |xs| >= 4 && forall k | 0 <= k < |xs| :: xs[k] < 64
    requires |xs[4..]| % 4 != 1
    ensures |xs| % 4 != 1
    ensures Bytes(xs) == [(xs[0] * 4 + xs[1] / 16) as char, ((xs[1] % 16) * 16 + xs[2] / 4) as char, ((xs[2] % 4) * 64 + xs[3]) as char] + Bytes(xs[4..])
  {
    assert |xs| == |xs[4..]| + 4;
    assert |xs| % 4 == |xs[4..]| % 4;
    assert |xs| != 0 && |xs| != 2 && |xs| != 3;
  }

  lemma GroupRoundTrip(b0: nat, b1: nat, b2: nat, rest: seq<nat>)
    requires b0 < 256 && b1 < 256 && b2 < 256
    requires |rest| % 4 != 1 && forall k | 0 <= k < |rest| :: rest[k] < 64
    ensures |Quad(b0, b1, b2) + rest| % 4 != 1
    ensures Bytes(Quad(b0, b1, b2) + rest) == [b0 as char, b1 as char, b2 as char] + Bytes(rest)
  {
    var q := Quad(b0, b1, b2);
    var xs := q + rest;
    QuadRoundTrip(b0, b1, b2);
    assert xs[0] == q[0] && xs[1] == q[1] && xs[2] == q[2] && xs[3] == q[3];
    assert xs[4..] == rest;
    BytesStep(xs);
  }

  lemma ShortRoundTrip(b0: nat, b1: nat)
    requires b0 < 256 && b1 < 256
    ensures Bytes(Quad(b0, 0, 0)[..2]) == [b0 as char]
    ensures Bytes(Quad(b0, b1, 0)[..3]) == [b0 as char, b1 as char]
  {
    QuadRoundTrip(b0, 0, 0);
    QuadRoundTrip(b0, b1, 0);
  }

  /** Decoding the sextets of a Latin-1 string gives the string back. */
  lemma {:induction false} SextetsRoundTrip(s: string)
    requires IsLatin1(s)
    ensures |Sextets(s)| % 4 != 1
    ensures Bytes(Sextets(s)) == s
    decreases |s|
  {
    if |s| == 1 {
      ShortRoundTrip(s[0] as nat, 0);
    } else if |s| == 2 {
      ShortRoundTrip(s[0] as nat, s[1] as nat);
    } else if |s| >= 3 {
      SextetsRoundTrip(s[3..]);
      GroupRoundTrip(s[0] as nat, s[1] as nat, s[2] as nat, Sextets(s[3..]));
      assert s == [s[0], s[1], s[2]] + s[3..];
    }
  }

  lemma IndicesOfChars(xs: seq<nat>)
    requires forall k | 0 <= k < |xs| :: xs[k] < 64
    ensures forall k | 0 <= k < |xs| :: IsAlphabet(Chars(xs)[k])
    ensures Indices(Chars(xs)) == xs
  {
    forall k | 0 <= k < |xs|
      ensures CharToIndex(Chars(xs)[k]) == Some(xs[k])
    {
      IndexRoundTrip(xs[k]);
    }
  }

  lemma {:induction false} NoWhitespaceKept(s: string)
    requires forall k | 0 <= k < |s| :: !IsAsciiWhitespace(s[k])
    ensures RemoveWhitespace(s) == s
    decreases |s|
  {
    if s != [] {
      NoWhitespaceKept(s[1..]);
    }
  }

  /** The output of `btoa` has no whitespace, so step 1 leaves it alone. */
  lemma EncodedHasNoWhitespace(s: string)
    requires IsLatin1(s)
    ensures RemoveWhitespace(Btoa(s).value) == Btoa(s).value
  {
    var xs := Sextets(s);
    var body := Chars(xs);
    var e := body + Padding(|s|);
    forall k | 0 <= k < |e|
      ensures !IsAsciiWhitespace(e[k])
    {
      if k < |body| {
        IndexRoundTrip(xs[k]);
      }
    }
    NoWhitespaceKept(e);
  }

  /** Step 2 removes exactly the padding `btoa` added. */
  lemma PaddingDropped(s: string)
    requires IsLatin1(s)
    ensures DropPadding(Btoa(s).value) == Chars(Sextets(s))
  {
    var xs := Sextets(s);
    var body := Chars(xs);
    var e := body + Padding(|s|);
    if |body| > 0 {
      IndexRoundTrip(xs[|body| - 1]);
      assert e[|body| - 1] == body[|body| - 1] != '=';
    }
    assert e[..|body|] == body;
  }

  /** `atob(btoa(s))` is `s` for every string `btoa` accepts. */
  lemma BtoaAtob(s: string)
    requires IsLatin1(s)
    ensures Atob(Btoa(s).value) == Some(s)
  {
    var xs := Sextets(s);
    EncodedHasNoWhitespace(s);
    PaddingDropped(s);
    IndicesOfChars(xs);
    SextetsRoundTrip(s);
  }

  function Reverse(s: string): (r: string)
    ensures |r| == |s| && forall k | 0 <= k < |s| :: r[k] == s[|s| - 1 - k]
  {
    seq(|s|, k requires 0 <= k < |s| => s[|s| - 1 - k])
  }

  lemma ReverseReverse(s: string)
    ensures Reverse(Reverse(s)) == s
  {
  }

  /** `encryptData` after `JSON.stringify`: Base64, then the characters in reverse order. */
  function Encrypt(json: string): (r: Option<string>)
    ensures r.Some? <==> IsLatin1(json)
  {
    match Btoa(json)
    case None => None
    case Some(encoded) => Some(Reverse(encoded))
  }

  /** `decryptData` before `JSON.parse`: undo the reversal, then `atob`. */
  function Decrypt(encrypted: string): Option<string> {
    Atob(Reverse(encrypted))
  }

  /** The obfuscation round-trips: whatever `encryptData` produces, `decryptData` turns back into the same text. */
  lemma DecryptEncrypt(json: string)
    requires IsLatin1(json)
    ensures Decrypt(Encrypt(json).value) == Some(json)
  {
    ReverseReverse(Btoa(json).value);
    BtoaAtob(json);
  }
}
