/**
 * Navigation (navigation.js): the first version of the menu. Its registry
 * has three categories and no separators, its classifier knows the index
 * pages of three directories and has no subdirectory fallback, and its menu
 * has no language selector.
 */
module Navigation {
  import opened Wrappers
  import opened Strings
  import opened NavMenu

  function Registry(): seq<Category>
  {
    [ Category("network", [
        Tool("Subnet Calc (IPv4)", "nettools/subnet-calculator.html", "subnet"),
        Tool("Subnet Calc (IPv6)", "nettools/subnet-calculator-ipv6.html", "subnet-ipv6"),
        Tool("Subnet Planner", "nettools/subnet-planner.html", "planner"),
        Tool("CIDR Converter", "nettools/cidr-converter.html", "cidr"),
        Tool("Bit Calc", "nettools/bit-calculator.html", "bit"),
        Tool("Data Rate", "nettools/data-rate-calculator.html", "data-rate")]),
      Category("system", [
        Tool("Regex", "system/regex-tester.html", "regex"),
        Tool("Timestamp", "system/timestamp-converter.html", "timestamp"),
        Tool("Disk Tools", "system/disk-tools.html", "disk"),
        Tool("Cron", "system/cron-builder.html", "cron"),
        Tool("Chmod", "system/chmod-calculator.html", "chmod"),
        Tool("Password", "system/password-generator.html", "password")]),
      Category("data", [
        Tool("Base64/Hash", "data/base64-hash.html", "base64")]) ]
  }

  /** The directories whose `index.html` is a category home page, in check order. */
  function IndexRules(): seq<DirRule>
  {
    [DirRule("/nettools/", "network"), DirRule("/system/", "system"), DirRule("/data/", "data")]
  }

  /** Every entry is a tool with a file, so `t.file.endsWith(filename)` never meets a missing file. */
  lemma RegistryHasOnlyTools()
    ensures forall c, j :: 0 <= c < |Registry()| && 0 <= j < |Registry()[c].entries| ==>
      Registry()[c].entries[j].Tool? && Registry()[c].entries[j].file != ""
  {
  }

  /**
   * The unguarded test of this file, `t.file.endsWith(filename)`, agrees
   * with the shared guarded one on this registry.
   */
  lemma UnguardedMatchAgrees(c: nat, j: nat, filename: string)
    requires c < |Registry()| && j < |Registry()[c].entries|
    ensures Matches(Registry()[c].entries[j], filename) == EndsWith(Registry()[c].entries[j].file, filename)
  {
    RegistryHasOnlyTools();
  }

  /** getCurrentPageInfo. */
  function GetCurrentPageInfo(pathname: string): (info: PageInfo)
    ensures Filename(pathname) == "index.html" ==>
      info == (if FirstMarker(pathname, IndexRules()).Some?
               then PageInfo(Some(FirstMarker(pathname, IndexRules()).value + "-home"), FirstMarker(pathname, IndexRules()))
               else PageInfo(Some("home"), None))
    ensures Filename(pathname) != "index.html" ==>
      info == (if Search(Registry(), Filename(pathname)).Some? then Search(Registry(), Filename(pathname)).value
               else PageInfo(None, None))
  {
    var filename := Filename(pathname);
    var indexCategory := FirstMarker(pathname, IndexRules());
    if (filename == "index.html" || filename == "") && indexCategory.Some? then
      PageInfo(Some(indexCategory.value + "-home"), Some(indexCategory.value))
    else if filename == "" || filename == "/" || filename == "index.html" then
      PageInfo(Some("home"), None)
    else
      match Search(Registry(), filename)
      case Some(found) => found
      case None => PageInfo(None, None)
  }

  /** A page without a category is the root home page or has no id. */
  lemma CategorylessPages(pathname: string)
    ensures GetCurrentPageInfo(pathname).category.None? ==>
      GetCurrentPageInfo(pathname).id.None? || GetCurrentPageInfo(pathname).id == Some("home")
  {
  }

  /** A directory path with a trailing slash is classified as its `index.html`. */
  lemma TrailingSlashIsIndex(dir: string)
    ensures GetCurrentPageInfo(dir + "/") == GetCurrentPageInfo(dir + "/index.html")
  {
    FilenameOfDirectory(dir);
    assert dir + "/" + "index.html" == dir + "/index.html";
    FirstMarkerIgnoresFile(dir, "index.html", IndexRules());
  }

  /**
   * No subdirectory fallback: a page no tool matches is unclassified even
   * inside a tool directory, so its menu links get no `../` prefix.
   */
  lemma UnmatchedPageHasNoCategory(pathname: string)
    requires Filename(pathname) != "index.html"
    requires Search(Registry(), Filename(pathname)).None?
    ensures GetCurrentPageInfo(pathname) == PageInfo(None, None)
    ensures PathPrefix(GetCurrentPageInfo(pathname)) == ""
  {
  }

  /** generateNavHTML of this file: no language selector. */
  method GenerateNavHTML(page: PageInfo) returns (html: seq<NavItem>)
    ensures html == Render(Registry(), page, false)
  {
    html := NavMenu.GenerateNavHTML(Registry(), page, false);
  }
}
