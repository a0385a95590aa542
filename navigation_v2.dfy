/**
 * NavigationV2 (navigationv2.js): the current menu. Its registry has five
 * categories and a separator, its classifier knows five directories, maps
 * the IPv6 calculator to the network category, and falls back to the
 * directory of a page no tool matches. The menu ends with the language
 * selector.
 */
module NavigationV2 {
  import opened Wrappers
  import opened Strings
  import opened NavMenu
  import I18nCore

  function Registry(): seq<Category>
  {
    [ Category("network", [
        Tool("Subnet Calculator", "nettools/subnet-calculator.html", "subnet"),
        Tool("Subnet Planner", "nettools/subnet-planner.html", "planner"),
        Tool("CIDR Convert", "nettools/cidr-converter.html", "cidr"),
        Tool("Bit Calc", "nettools/bit-calculator.html", "bit"),
        Tool("Data-Rate Calc", "nettools/data-rate-calculator.html", "data-rate"),
        Tool("MTU Calc", "nettools/mtu-calculator.html", "mtu"),
        Tool("Jinja Builder", "nettools/jinja-builder.html", "jinja")]),
      Category("system", [
        Tool("Regex", "system/regex-tester.html", "regex"),
        Tool("Timestamp Convert", "system/timestamp-converter.html", "timestamp"),
        Tool("Disk Tools", "system/disk-tools.html", "disk"),
        Tool("Password Gen", "system/password-generator.html", "password"),
        Tool("Certificate Parse", "system/certificate-parser.html", "cert-parser"),
        Separator("(Linux)"),
        Tool("Cron", "system/cron-builder.html", "cron"),
        Tool("Chmod", "system/chmod-calculator.html", "chmod")]),
      Category("data", [
        Tool("Base64/Hash", "data/base64-hash.html", "base64"),
        Tool("String Tools", "data/string-tools.html", "string-tools"),
        Tool("Text Diff(Compare)", "data/text-diff.html", "text-diff"),
        Tool("UUID Gen", "data/uuid-generator.html", "uuid"),
        Tool("Measurement Convert", "data/measurement-converter.html", "measurement")]),
      Category("financials", [
        Tool("Amortization", "financials/amortization-calculator.html", "amortization"),
        Tool("Compound Interest", "financials/compound-interest-calculator.html", "compound-interest"),
        Tool("Debt Payoff", "financials/debt-payoff-comparison.html", "debt-payoff"),
        Tool("Retirement", "financials/retirement-calculator.html", "retirement")]),
      Category("productivity", [
        Tool("Pomodoro Timer", "productivity/pomodoro.html", "pomodoro")]) ]
  }

  /** The directories whose `index.html` is a category home page, in check order. */
  function IndexRules(): seq<DirRule>
  {
    [ DirRule("/nettools/", "network"), DirRule("/system/", "system"), DirRule("/data/", "data"),
      DirRule("/financials/", "financials"), DirRule("/productivity/", "productivity") ]
  }

  /** The subdirectory fallback for pages no tool matches, in its own check order. */
  function FallbackRules(): seq<DirRule>
  {
    [ DirRule("/financials/", "financials"), DirRule("/nettools/", "network"), DirRule("/system/", "system"),
      DirRule("/data/", "data"), DirRule("/productivity/", "productivity") ]
  }

  const Ipv6File: string := "subnet-calculator-ipv6.html"

  /**
   * getCurrentPageInfo, over a registry and the two directory tables: a
   * directory's `index.html` is its category home, the root `index.html`
   * the home page, the IPv6 calculator belongs to the network category, and
   * any other page is looked up in the registry, falling back to the first
   * directory of the fallback table its path contains.
   */
  function Classify(pathname: string, registry: seq<Category>, indexRules: seq<DirRule>, fallbackRules: seq<DirRule>): (info: PageInfo)
    ensures Filename(pathname) == "index.html" ==>
      info == (if FirstMarker(pathname, indexRules).Some?
               then PageInfo(Some(FirstMarker(pathname, indexRules).value + "-home"), FirstMarker(pathname, indexRules))
               else PageInfo(Some("home"), None))
    ensures Filename(pathname) == Ipv6File ==> info == PageInfo(Some("subnet-ipv6"), Some("network"))
    ensures Filename(pathname) != "index.html" && Filename(pathname) != Ipv6File ==>
      info == (if Search(registry, Filename(pathname)).Some? then Search(registry, Filename(pathname)).value
               else PageInfo(None, FirstMarker(pathname, fallbackRules)))
  {
    var filename := Filename(pathname);
    var indexCategory := FirstMarker(pathname, indexRules);
    if (filename == "index.html" || filename == "") && indexCategory.Some? then
      PageInfo(Some(indexCategory.value + "-home"), Some(indexCategory.value))
    else if filename == "" || filename == "/" || filename == "index.html" then
      PageInfo(Some("home"), None)
    else if filename == Ipv6File then
      PageInfo(Some("subnet-ipv6"), Some("network"))
    else
      match Search(registry, filename)
      case Some(found) => found
      case None =>
        var dir := FirstMarker(pathname, fallbackRules);
        if dir.Some? then PageInfo(None, Some(dir.value)) else PageInfo(None, None)
  }

  /** The classification the menu uses, over this file's own tables. */
  function GetCurrentPageInfo(pathname: string): (info: PageInfo)
    ensures info.category.None? ==> info.id.None? || info.id == Some("home")
    ensures I18nCore.GetPathPrefix(pathname) == "../" ==> info.category.Some?
    ensures Filename(pathname) == Ipv6File ==> info == PageInfo(Some("subnet-ipv6"), Some("network"))
  {
    CategorylessPages(pathname, Registry(), IndexRules(), FallbackRules());
    if I18nCore.GetPathPrefix(pathname) == "../" then
      SubdirPagesGetPrefix(pathname, Registry());
      Classify(pathname, Registry(), IndexRules(), FallbackRules())
    else Classify(pathname, Registry(), IndexRules(), FallbackRules())
  }

  /** A page without a category is the root home page or has no id. */
  lemma CategorylessPages(pathname: string, registry: seq<Category>, indexRules: seq<DirRule>, fallbackRules: seq<DirRule>)
    ensures var info := Classify(pathname, registry, indexRules, fallbackRules);
      info.category.None? ==> info.id.None? || info.id == Some("home")
  {
  }

  /** A directory path with a trailing slash is classified as its `index.html`. */
  lemma TrailingSlashIsIndex(dir: string, registry: seq<Category>, fallbackRules: seq<DirRule>)
    ensures Classify(dir + "/", registry, IndexRules(), fallbackRules)
         == Classify(dir + "/index.html", registry, IndexRules(), fallbackRules)
  {
    FilenameOfDirectory(dir);
    assert dir + "/" + "index.html" == dir + "/index.html";
    FirstMarkerIgnoresFile(dir, "index.html", IndexRules());
  }

  /** Both tables hold the five markers the translation loader's path prefix looks for. */
  lemma MarkerTables()
    ensures Markers(IndexRules()) == Markers(FallbackRules()) == SubdirMarkerSet()
  {
    assert Markers(IndexRules()) == {"/nettools/", "/system/", "/data/", "/financials/", "/productivity/"} by {
      assert IndexRules()[0].marker == "/nettools/";
      assert IndexRules()[1].marker == "/system/";
      assert IndexRules()[2].marker == "/data/";
      assert IndexRules()[3].marker == "/financials/";
      assert IndexRules()[4].marker == "/productivity/";
    }
    assert Markers(FallbackRules()) == {"/nettools/", "/system/", "/data/", "/financials/", "/productivity/"} by {
      assert FallbackRules()[0].marker == "/financials/";
      assert FallbackRules()[1].marker == "/nettools/";
      assert FallbackRules()[2].marker == "/system/";
      assert FallbackRules()[3].marker == "/data/";
      assert FallbackRules()[4].marker == "/productivity/";
    }
    assert SubdirMarkerSet() == {"/nettools/", "/system/", "/data/", "/financials/", "/productivity/"} by {
      var markers := I18nCore.SubdirMarkers;
      assert markers[0] == "/nettools/" && markers[1] == "/system/" && markers[2] == "/data/";
      assert markers[3] == "/financials/" && markers[4] == "/productivity/";
    }
  }

  function SubdirMarkerSet(): set<string>
  {
    set k | 0 <= k < |I18nCore.SubdirMarkers| :: I18nCore.SubdirMarkers[k]
  }

  lemma PathPrefixMarkers(pathname: string)
    ensures I18nCore.GetPathPrefix(pathname) == "../" <==> exists m :: m in SubdirMarkerSet() && Contains(pathname, m)
  {
    var markers := I18nCore.SubdirMarkers;
    forall k | 0 <= k < |markers| {
      ContainsIff(pathname, markers[k]);
    }
    if exists m :: m in SubdirMarkerSet() && Contains(pathname, m) {
      var m :| m in SubdirMarkerSet() && Contains(pathname, m);
      var k :| 0 <= k < |markers| && markers[k] == m;
    }
  }

  /** A rule of either table applies exactly when the translation loader uses the `../` prefix. */
  lemma RulesMatchPathPrefix(pathname: string)
    ensures FirstMarker(pathname, IndexRules()).Some? <==> I18nCore.GetPathPrefix(pathname) == "../"
    ensures FirstMarker(pathname, FallbackRules()).Some? <==> I18nCore.GetPathPrefix(pathname) == "../"
  {
    MarkerTables();
    PathPrefixMarkers(pathname);
    FirstMarkerFound(pathname, IndexRules());
    FirstMarkerFound(pathname, FallbackRules());
  }

  /**
   * Every page under one of the five directories gets a category, so its menu
   * links get the same `../` prefix the translation loader uses for it.
   */
  lemma SubdirPagesGetPrefix(pathname: string, registry: seq<Category>)
    requires I18nCore.GetPathPrefix(pathname) == "../"
    ensures Classify(pathname, registry, IndexRules(), FallbackRules()).category.Some?
    ensures PathPrefix(Classify(pathname, registry, IndexRules(), FallbackRules())) == "../"
  {
    RulesMatchPathPrefix(pathname);
  }

  /** A page no tool matches, outside the five directories, is neither a tool nor in a category. */
  lemma UnmatchedPage(pathname: string, registry: seq<Category>)
    requires Filename(pathname) != "index.html" && Filename(pathname) != Ipv6File
    requires Search(registry, Filename(pathname)).None?
    requires I18nCore.GetPathPrefix(pathname) != "../"
    ensures Classify(pathname, registry, IndexRules(), FallbackRules()) == PageInfo(None, None)
  {
    RulesMatchPathPrefix(pathname);
  }

  /** The separator entry has no file, so no filename selects it. */
  lemma SeparatorNeverMatches(filename: string)
    ensures !Matches(Registry()[1].entries[5], filename)
  {
  }

  /** generateNavHTML of this file: the menu ends with the language selector. */
  method GenerateNavHTML(page: PageInfo) returns (html: seq<NavItem>)
    ensures html == Render(Registry(), page, true)
  {
    html := NavMenu.GenerateNavHTML(Registry(), page, true);
  }

  /* ---------------------------------------------------------------------- */
  /* The language selector                                                   */
  /* ---------------------------------------------------------------------- */

  /** The `data-lang` of the selector's options, in menu order. */
  const LanguageOptions: seq<string> := ["en", "es", "hi", "zh"]

  /** The `aria-current` value each option gets for language `lang`. */
  function AriaCurrentFor(options: seq<string>, lang: string): (marks: seq<string>)
    ensures |marks| == |options|
    ensures forall i :: 0 <= i < |options| ==> (marks[i] == "true" || marks[i] == "false")
    ensures forall i :: 0 <= i < |options| ==> (marks[i] == "true" <==> options[i] == lang)
  {
    seq(|options|, i requires 0 <= i < |options| => if options[i] == lang then "true" else "false")
  }

  /** With distinct option codes, exactly the option of the language is current, or none for an unknown one. */
  lemma ExactlyOneCurrent(options: seq<string>, lang: string)
    requires Distinct(options)
    ensures lang in options ==> exists i :: (0 <= i < |options| && AriaCurrentFor(options, lang)[i] == "true"
      && forall j :: 0 <= j < |options| && AriaCurrentFor(options, lang)[j] == "true" ==> j == i)
    ensures lang !in options ==> forall i :: 0 <= i < |options| ==> AriaCurrentFor(options, lang)[i] == "false"
  {
    var marks := AriaCurrentFor(options, lang);
    if lang in options {
      var i :| 0 <= i < |options| && options[i] == lang;
      assert forall j :: 0 <= j < |options| && marks[j] == "true" ==> j == i;
    }
  }

  /** The button's code label and the options' `aria-current` attributes. */
  class LanguageSelector {
    var code: string
    var ariaCurrent: seq<string>
    const options: seq<string>

    predicate Valid()
      reads this
    {
      |ariaCurrent| == |options|
    }

    /** The markup generateNavHTML writes: "EN", with English current. */
    constructor ()
      ensures Valid() && options == LanguageOptions && code == "EN"
      ensures ariaCurrent == AriaCurrentFor(LanguageOptions, "en")
    {
      options := LanguageOptions;
      code := "EN";
      ariaCurrent := ["true", "false", "false", "false"];
    }

    /** updateLanguageDisplay. */
    method UpdateLanguageDisplay(lang: string)
      requires Valid()
      modifies this
      ensures Valid()
      ensures code == Upper(lang)
      ensures ariaCurrent == AriaCurrentFor(options, lang)
    {
      code := Upper(lang);
      var i := 0;
      while i < |options|
        invariant 0 <= i <= |options| && |ariaCurrent| == |options|
        invariant forall j :: 0 <= j < i ==> ariaCurrent[j] == AriaCurrentFor(options, lang)[j]
        invariant code == Upper(lang)
      {
        var current := if options[i] == lang then "true" else "false";
        ariaCurrent := ariaCurrent[i := current];
        i := i + 1;
      }
    }
  }
}
