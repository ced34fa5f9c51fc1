/**
 * Ordinal string order, the order `Array.prototype.sort` uses by default
 * and the one the path list is sorted by, and the sort of a set of keys.
 */
module Ordinal {

  /** `a` sorts strictly before `b`, comparing character codes left to right. */
  predicate Less(a: string, b: string) {
    if b == [] then false
    else if a == [] then true
    else if a[0] != b[0] then a[0] < b[0]
    else Less(a[1..], b[1..])
  }

  lemma {:induction false} LessIrreflexive(a: string)
    ensures !Less(a, a)
  {
    if a != [] {
      LessIrreflexive(a[1..]);
    }
  }

  lemma {:induction false} LessTransitive(a: string, b: string, c: string)
    requires Less(a, b) && Less(b, c)
    ensures Less(a, c)
  {
    if a != [] && a[0] == b[0] && b[0] == c[0] {
      LessTransitive(a[1..], b[1..], c[1..]);
    }
  }

  lemma {:induction false} LessTotal(a: string, b: string)
    requires a != b
    ensures Less(a, b) || Less(b, a)
  {
    if a != [] && b != [] && a[0] == b[0] {
      assert a == [a[0]] + a[1..] && b == [b[0]] + b[1..];
      LessTotal(a[1..], b[1..]);
    }
  }

  lemma LessAsymmetric(a: string, b: string)
    requires Less(a, b)
    ensures !Less(b, a)
  {
    if Less(b, a) {
      LessTransitive(a, b, a);
      LessIrreflexive(a);
    }
  }

  predicate StrictlySorted(s: seq<string>) {
    forall i, j | 0 <= i < j < |s| :: Less(s[i], s[j])
  }

  predicate IsMinimum(m: string, keys: set<string>) {
    m in keys && forall k | k in keys && k != m :: Less(m, k)
  }

  /** Every finite non-empty set of strings has a least element. */
  lemma {:induction false} MinimumExists(keys: set<string>)
    requires keys != {}
    ensures exists m :: IsMinimum(m, keys)
    decreases |keys|
  {
    var x :| x in keys;
    if keys != {x} {
      var rest := keys - {x};
      MinimumExists(rest);
      var m :| IsMinimum(m, rest);
      if Less(x, m) {
        forall k | k in keys && k != x ensures Less(x, k) {
          if k != m {
            LessTransitive(x, m, k);
          }
        }
        assert IsMinimum(x, keys);
      } else {
        LessTotal(x, m);
        assert IsMinimum(m, keys);
      }
    } else {
      assert IsMinimum(x, keys);
    }
  }

  /**
   * The keys of a map or the elements of a set in ascending ordinal order:
   * each key exactly once, and nothing else.
   */
  method SortedKeys(keys: set<string>) returns (r: seq<string>)
    ensures StrictlySorted(r)
    ensures forall k :: k in r <==> k in keys
    ensures |r| == |keys|
  {
    var rest := keys;
    r := [];
    while rest != {}
      invariant rest <= keys
      invariant forall k :: k in keys <==> k in rest || k in r
      invariant StrictlySorted(r)
      invariant forall i, k | 0 <= i < |r| && k in rest :: Less(r[i], k)
      invariant |r| + |rest| == |keys|
      decreases |rest|
    {
      MinimumExists(rest);
      var m :| IsMinimum(m, rest);
      forall i | 0 <= i < |r| ensures r[i] != m {
        LessIrreflexive(m);
      }
      r := r + [m];
      rest := rest - {m};
    }
  }
}
