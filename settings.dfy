/**
 * `SettingsManager.shouldShowPath`: which discovered paths the list shows,
 * given the two visibility switches of the settings panel.
 */
module Settings {
  import opened Text

  /** The two switches `shouldShowPath` consults; `autoPing` and `theme` play no part in it. */
  datatype Settings = Settings(hideXml: bool, hideFiles: bool)

  /** Both switches are on until the user changes them. */
  const DEFAULT_SETTINGS := Settings(true, true)

  /** The number of ASCII letters and digits at the end of `s`. */
  function AlnumSuffix(s: string): (n: nat)
    ensures n <= |s|
    ensures forall i | |s| - n <= i < |s| :: IsAsciiAlnum(s[i])
    ensures n < |s| ==> !IsAsciiAlnum(s[|s| - n - 1])
  {
    if s == [] || !IsAsciiAlnum(s[|s| - 1]) then 0
    else 1 + AlnumSuffix(s[..|s| - 1])
  }

  /** `/\.[a-zA-Z0-9]+$/.test(path)`, computed from the letters and digits at the end. */
  predicate HasExtension(path: string) {
    var n := AlnumSuffix(path);
    0 < n < |path| && path[|path| - n - 1] == '.'
  }

  /** The regular expression read declaratively: a dot at `i` followed by one or more letters or digits up to the end. */
  predicate ExtensionAt(path: string, i: int) {
    0 <= i < |path| - 1 && path[i] == '.' && forall j | i < j < |path| :: IsAsciiAlnum(path[j])
  }

  /** The computed test and the regular expression agree on every path. */
  lemma HasExtensionMeaning(path: string)
    ensures HasExtension(path) <==> exists i :: ExtensionAt(path, i)
  {
    var n := AlnumSuffix(path);
    if HasExtension(path) {
      assert ExtensionAt(path, |path| - n - 1);
    }
  }

  /** `/\.(html?|php|asp|jsp)$/i.test(path)`. */
  predicate IsHtml(path: string) {
    var p := Lower(path);
    EndsWith(p, ".html") || EndsWith(p, ".htm") || EndsWith(p, ".php") || EndsWith(p, ".asp") || EndsWith(p, ".jsp")
  }

  /** `path.toLowerCase().endsWith('.xml')`. */
  predicate IsXml(path: string) {
    EndsWith(Lower(path), ".xml")
  }

  /** `shouldShowPath(path)`. */
  predicate ShouldShowPath(settings: Settings, path: string) {
    && !(settings.hideXml && IsXml(path))
    && !(settings.hideFiles && HasExtension(path) && !IsHtml(path))
  }

  /** A path ending in `.xml`, in any case, ends in a dot followed by three letters. */
  lemma XmlHasExtension(path: string)
    requires IsXml(path)
    ensures ExtensionAt(path, |path| - 4)
    ensures HasExtension(path)
  {
    var p := Lower(path);
    var t := p[|p| - 4..];
    assert t == ".xml";
    assert t[0] == '.' && t[1] == 'x' && t[2] == 'm' && t[3] == 'l';
    assert path[|path| - 4] == '.';
    forall j | |path| - 4 < j < |path|
      ensures IsAsciiAlnum(path[j])
    {
      assert p[j] == t[j - (|path| - 4)];
    }
    HasExtensionMeaning(path);
  }

  /** A string whose character at some position of the would-be suffix differs does not end with it. */
  lemma DiffersAt(p: string, w: string, k: nat)
    requires k < |w| && (|w| <= |p| ==> p[|p| - |w| + k] != w[k])
    ensures !EndsWith(p, w)
  {
  }

  /** An ending in `.xml` is none of the page endings. */
  lemma XmlIsNotHtml(path: string)
    requires IsXml(path)
    ensures !IsHtml(path)
  {
    var p := Lower(path);
    var t := p[|p| - 4..];
    assert t == ".xml";
    assert p[|p| - 1] == t[3] == 'l';
    assert p[|p| - 4] == t[0] == '.';
    DiffersAt(p, ".html", 1);
    DiffersAt(p, ".htm", 3);
    DiffersAt(p, ".php", 3);
    DiffersAt(p, ".asp", 3);
    DiffersAt(p, ".jsp", 3);
  }

  /** An `.xml` path is hidden as soon as either switch is on. */
  lemma XmlHiddenByEitherSwitch(settings: Settings, path: string)
    requires IsXml(path) && (settings.hideXml || settings.hideFiles)
    ensures !ShouldShowPath(settings, path)
  {
    XmlHasExtension(path);
    XmlIsNotHtml(path);
  }

  /** A path without an extension is always shown, whatever the switches. */
  lemma NoExtensionShown(settings: Settings, path: string)
    requires !HasExtension(path)
    ensures ShouldShowPath(settings, path)
  {
    if IsXml(path) {
      XmlHasExtension(path);
    }
  }

  /** A page ending (`.html`, `.htm`, `.php`, `.asp`, `.jsp`) is always shown, whatever the switches. */
  lemma HtmlShown(settings: Settings, path: string)
    requires IsHtml(path)
    ensures ShouldShowPath(settings, path)
  {
    if IsXml(path) {
      XmlIsNotHtml(path);
    }
  }

  /** With both switches off every path is shown. */
  lemma AllSwitchesOffShowsAll(path: string)
    ensures ShouldShowPath(Settings(false, false), path)
  {
  }

  /**
   * Under the default settings, a path is shown exactly when it has no
   * extension or a page ending: the `hideXml` rule adds nothing that
   * `hideFiles` does not already hide.
   */
  lemma DefaultsShowPagesOnly(path: string)
    ensures ShouldShowPath(DEFAULT_SETTINGS, path) <==> !HasExtension(path) || IsHtml(path)
  {
    if IsXml(path) {
      XmlHasExtension(path);
      XmlIsNotHtml(path);
    }
  }

  /** Turning a switch on never brings a hidden path back. */
  lemma MoreSwitchesHideMore(s1: Settings, s2: Settings, path: string)
    requires (s1.hideXml ==> s2.hideXml) && (s1.hideFiles ==> s2.hideFiles)
    ensures ShouldShowPath(s2, path) ==> ShouldShowPath(s1, path)
  {
  }
}
