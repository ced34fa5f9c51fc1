/**
 * The background worker's per-tab page counts and the badge text it
 * derives from them: `updateBadge`, the `onUpdated` reset, the `onRemoved`
 * deletion and the periodic cleanup against the open tabs.
 */
module Badge {
  import opened Wrappers
  import opened Text

  function DigitChar(d: nat): (c: char)
    requires d < 10
    ensures IsDigit(c)
  {
    (48 + d) as char
  }

  /** `count.toString()` for a non-negative integer. */
  function DecimalString(n: nat): (r: string)
    ensures r != [] && forall i | 0 <= i < |r| :: IsDigit(r[i])
    ensures n > 0 ==> r[0] != '0'
  {
    if n < 10 then [DigitChar(n)] else DecimalString(n / 10) + [DigitChar(n % 10)]
  }

  function DigitValue(c: char): (d: nat)
    requires IsDigit(c)
    ensures d < 10
  {
    c as int - 48
  }

  /** Reading a string of digits back as a number. */
  function DecimalValue(s: string): (n: nat)
    requires forall i | 0 <= i < |s| :: IsDigit(s[i])
  {
    if s == [] then 0 else DecimalValue(s[..|s| - 1]) * 10 + DigitValue(s[|s| - 1])
  }

  /** The digits of `n` read back give `n`. */
  lemma {:induction false} DecimalRoundTrip(n: nat)
    ensures DecimalValue(DecimalString(n)) == n
    decreases n
  {
    if n >= 10 {
      var r := DecimalString(n);
      DecimalRoundTrip(n / 10);
      assert r[..|r| - 1] == DecimalString(n / 10);
    }
  }

  /** A number below 1000 takes at most three digits. */
  lemma DecimalLength(n: nat)
    requires n <= 999
    ensures |DecimalString(n)| <= 3
  {
    if n >= 10 {
      var m := n / 10;
      if m >= 10 {
        assert m / 10 < 10;
        assert |DecimalString(m / 10)| == 1;
        assert |DecimalString(m)| == 2;
      } else {
        assert |DecimalString(m)| == 1;
      }
    }
  }

  /** The text `updateBadge` puts on the badge for `count`. */
  function BadgeText(count: int): string {
    if count > 0 then " " + (if count > 999 then "999+" else DecimalString(count)) + " " else ""
  }

  /**
   * The badge is blank exactly when the count is not positive; otherwise it
   * is the count's digits, or `999+` from a thousand on, padded with one
   * space on each side, so it never takes more than six characters.
   */
  lemma BadgeTextSpec(count: int)
    ensures BadgeText(count) == [] <==> count <= 0
    ensures count > 0 ==>
      var t := BadgeText(count);
      var inner := t[1..|t| - 1];
      && |t| >= 3 && t[0] == ' ' && t[|t| - 1] == ' ' && |t| <= 6
      && (count > 999 <==> inner == "999+")
      && (count <= 999 ==> (forall i | 0 <= i < |inner| :: IsDigit(inner[i])) && DecimalValue(inner) == count && inner[0] != '0')
  {
    if 0 < count <= 999 {
      DecimalRoundTrip(count);
      DecimalLength(count);
      var t := BadgeText(count);
      assert t[1..|t| - 1] == DecimalString(count);
      assert !IsDigit('+');
      assert "999+"[3] == '+';
    }
    if count > 999 {
      var t := BadgeText(count);
      assert t[1..|t| - 1] == "999+";
    }
  }

  lemma HasElement(s: set<int>)
    requires s != {}
    ensures exists t :: t in s
  {
    if forall t :: t !in s {
      assert false;
    }
  }

  /** The module-level `tabPageCounts` map. */
  class BadgeState {
    var tabPageCounts: map<int, int>

    constructor()
      ensures tabPageCounts == map[]
    {
      tabPageCounts := map[];
    }

    /** `updateBadge(tabId, count)`, also reached by an `UPDATE_PAGE_COUNT` message; returns the badge text it sets. */
    method UpdateBadge(tabId: int, count: int) returns (text: string)
      modifies this
      ensures tabPageCounts == old(tabPageCounts)[tabId := count]
      ensures text == BadgeText(count)
    {
      tabPageCounts := tabPageCounts[tabId := count];
      text := BadgeText(count);
    }

    /** `onUpdated`: a tab that finished loading an `http` page starts again from zero. */
    method OnUpdated(tabId: int, complete: bool, url: Option<string>) returns (text: Option<string>)
      modifies this
      ensures complete && url.Some? && StartsWith(url.value, "http") ==>
        tabPageCounts == old(tabPageCounts)[tabId := 0] && text == Some("")
      ensures !(complete && url.Some? && StartsWith(url.value, "http")) ==>
        tabPageCounts == old(tabPageCounts) && text == None
    {
      if complete && url.Some? && StartsWith(url.value, "http") {
        var t := UpdateBadge(tabId, 0);
        text := Some(t);
      } else {
        text := None;
      }
    }

    /** `onRemoved`. */
    method OnRemoved(tabId: int)
      modifies this
      ensures tabPageCounts == old(tabPageCounts) - {tabId}
    {
      tabPageCounts := tabPageCounts - {tabId};
    }

    /** The minute-by-minute cleanup: forget every tab that is not among the open ones. */
    method CleanupTabs(activeTabs: seq<int>)
      modifies this
      ensures tabPageCounts.Keys == set t | t in old(tabPageCounts) && t in activeTabs
      ensures forall t | t in tabPageCounts :: tabPageCounts[t] == old(tabPageCounts)[t]
    {
      var pending := tabPageCounts.Keys;
      while pending != {}
        invariant pending <= old(tabPageCounts).Keys
        invariant tabPageCounts.Keys == set t | t in old(tabPageCounts) && (t in pending || t in activeTabs)
        invariant forall t | t in tabPageCounts :: tabPageCounts[t] == old(tabPageCounts)[t]
        decreases |pending|
      {
        HasElement(pending);
        var tabId :| tabId in pending;
        if tabId !in activeTabs {
          tabPageCounts := tabPageCounts - {tabId};
        }
        pending := pending - {tabId};
      }
    }
  }
}
