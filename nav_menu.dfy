/**
 * NavMenu: the code navigation.js and navigationv2.js share. The page
 * classifier's building blocks (the filename, the ordered directory checks,
 * the tool search), the menu generateNavHTML produces, the "at most one open
 * dropdown" state machine and the keyboard index rules. The two files differ
 * only in their registries, their directory tables and a few classifier
 * steps, which live in Navigation and NavigationV2.
 */
module NavMenu {
  import opened Wrappers
  import opened Strings

  /* ---------------------------------------------------------------------- */
  /* The tool registry and the page classifier's parts                       */
  /* ---------------------------------------------------------------------- */

  /** `{ id, category }`; `None` is `null`. */
  datatype PageInfo = PageInfo(id: Option<string>, category: Option<string>)

  /** A registry entry: a tool, or (navigationv2.js only) a labelled separator. */
  datatype Entry = Tool(name: string, file: string, toolId: string) | Separator(caption: string)

  /** One category of the registry, in `Object.entries` order. */
  datatype Category = Category(key: string, entries: seq<Entry>)

  /** `pathname.split('/').pop() || 'index.html'`. */
  function Filename(pathname: string): (filename: string)
    ensures filename != "" && '/' !in filename
    ensures LastPart(pathname, '/') != "" ==> filename == LastPart(pathname, '/')
    ensures LastPart(pathname, '/') == "" ==> filename == "index.html"
  {
    SplitPartsFree(pathname, '/');
    var last := LastPart(pathname, '/');
    if last == "" then "index.html" else last
  }

  /** A trailing slash names the same file as an explicit `index.html`. */
  lemma FilenameOfDirectory(dir: string)
    ensures Filename(dir + "/") == "index.html"
    ensures Filename(dir + "/index.html") == "index.html"
  {
    assert dir + "/" == dir + ['/'] + "";
    LastPartAfterSep(dir, "", '/');
    assert dir + "/index.html" == dir + ['/'] + "index.html";
    LastPartAfterSep(dir, "index.html", '/');
  }

  /** A directory marker of a classifier table, with the category it stands for. */
  datatype DirRule = DirRule(marker: string, category: string)

  /** The first rule, in table order, whose marker the pathname contains: a chain of `includes` checks. */
  function FirstMarker(pathname: string, table: seq<DirRule>): (r: Option<string>)
    ensures r.None? <==> forall k :: 0 <= k < |table| ==> !Contains(pathname, table[k].marker)
    ensures r.Some? ==> exists k :: (0 <= k < |table| && table[k].category == r.value
      && Contains(pathname, table[k].marker)
      && forall k' :: 0 <= k' < k ==> !Contains(pathname, table[k'].marker))
  {
    if |table| == 0 then None
    else if Contains(pathname, table[0].marker) then Some(table[0].category)
    else
      var r := FirstMarker(pathname, table[1..]);
      if r.Some? then
        ghost var k :| 0 <= k < |table[1..]| && table[1..][k].category == r.value
          && Contains(pathname, table[1..][k].marker)
          && forall k' :: 0 <= k' < k ==> !Contains(pathname, table[1..][k'].marker);
        assert table[k + 1].category == r.value;
        r
      else r
  }

  function Markers(table: seq<DirRule>): set<string>
  {
    set k | 0 <= k < |table| :: table[k].marker
  }

  /** Whether some rule applies depends only on the set of markers, not on their order. */
  lemma FirstMarkerFound(pathname: string, table: seq<DirRule>)
    ensures FirstMarker(pathname, table).Some? <==> exists m :: m in Markers(table) && Contains(pathname, m)
  {
    if exists m :: m in Markers(table) && Contains(pathname, m) {
      var m :| m in Markers(table) && Contains(pathname, m);
      var k :| 0 <= k < |table| && table[k].marker == m;
    }
  }

  /** Adding text after the last `/` does not change which directory markers occur. */
  lemma FirstMarkerIgnoresFile(dir: string, file: string, table: seq<DirRule>)
    requires '/' !in file
    requires forall k :: 0 <= k < |table| ==> |table[k].marker| > 0 && table[k].marker[|table[k].marker| - 1] == '/'
    ensures FirstMarker(dir + "/" + file, table) == FirstMarker(dir + "/", table)
    decreases |table|
  {
    if |table| > 0 {
      ContainsIgnoresTail(dir + "/", file, table[0].marker);
      FirstMarkerIgnoresFile(dir, file, table[1..]);
    }
  }

  /** `t.file && t.file.endsWith(filename)`: separators have no file and never match. */
  predicate Matches(e: Entry, filename: string)
  {
    e.Tool? && e.file != "" && EndsWith(e.file, filename)
  }

  /** `tools.find(...)`: the first matching entry of a category. */
  function FindTool(entries: seq<Entry>, filename: string): (r: Option<Entry>)
    ensures r.None? <==> forall j :: 0 <= j < |entries| ==> !Matches(entries[j], filename)
    ensures r.Some? ==> exists j :: (0 <= j < |entries| && entries[j] == r.value && Matches(entries[j], filename)
      && forall j' :: 0 <= j' < j ==> !Matches(entries[j'], filename))
  {
    if |entries| == 0 then None
    else if Matches(entries[0], filename) then Some(entries[0])
    else
      var r := FindTool(entries[1..], filename);
      if r.Some? then
        ghost var j :| 0 <= j < |entries[1..]| && entries[1..][j] == r.value && Matches(entries[1..][j], filename)
          && forall j' :: 0 <= j' < j ==> !Matches(entries[1..][j'], filename);
        assert entries[j + 1] == r.value;
        r
      else r
  }

  /** The search over all categories, returning at the first tool found: a page it finds has an id and a category. */
  function Search(cats: seq<Category>, filename: string): (r: Option<PageInfo>)
    ensures r.None? <==> forall c :: 0 <= c < |cats| ==> FindTool(cats[c].entries, filename).None?
    ensures r.Some? ==> r.value.id.Some? && r.value.category.Some?
  {
    if |cats| == 0 then None
    else
      match FindTool(cats[0].entries, filename)
      case Some(tool) => Some(PageInfo(Some(tool.toolId), Some(cats[0].key)))
      case None => Search(cats[1..], filename)
  }

  /** The search's answer is the first category, in order, with a matching tool, and that tool's id. */
  lemma {:induction false} SearchFindsFirst(cats: seq<Category>, filename: string)
    requires Search(cats, filename).Some?
    ensures exists c :: (0 <= c < |cats| && FindTool(cats[c].entries, filename).Some?
      && Search(cats, filename).value == PageInfo(Some(FindTool(cats[c].entries, filename).value.toolId), Some(cats[c].key))
      && forall c' :: 0 <= c' < c ==> FindTool(cats[c'].entries, filename).None?)
  {
    if FindTool(cats[0].entries, filename).Some? {
      assert Search(cats, filename).value == PageInfo(Some(FindTool(cats[0].entries, filename).value.toolId), Some(cats[0].key));
    } else {
      var rest := cats[1..];
      assert Search(cats, filename) == Search(rest, filename);
      SearchFindsFirst(rest, filename);
      var c :| 0 <= c < |rest| && FindTool(rest[c].entries, filename).Some?
        && Search(rest, filename).value == PageInfo(Some(FindTool(rest[c].entries, filename).value.toolId), Some(rest[c].key))
        && forall c' :: 0 <= c' < c ==> FindTool(rest[c'].entries, filename).None?;
      assert cats[c + 1] == rest[c];
      forall c' | 0 <= c' < c + 1
        ensures FindTool(cats[c'].entries, filename).None?
      {
        if c' > 0 {
          assert cats[c'] == rest[c' - 1];
        }
      }
    }
  }

  /* ---------------------------------------------------------------------- */
  /* generateNavHTML                                                         */
  /* ---------------------------------------------------------------------- */

  /** The pieces of the menu markup that carry a decision. */
  datatype NavItem =
    | HomeLink(href: string, current: bool)                     // `aria-current="page"` when current
    | CategoryOpen(key: string, name: string, current: bool)    // class `nav-category current` when current
    | ToolLink(href: string, name: string, current: bool)       // `aria-current="page"` when current
    | SeparatorItem(caption: string)                              // `role="separator"`
    | CategoryClose
    | LanguageMenu                                              // the language selector block

  /** Links are relative to the parent directory exactly when the page has a category. */
  function PathPrefix(page: PageInfo): (prefix: string)
    ensures prefix == "../" <==> page.category.Some?
    ensures prefix == "" <==> page.category.None?
  {
    if page.category.Some? then "../" else ""
  }

  /** `category.charAt(0).toUpperCase() + category.slice(1)`. */
  function CategoryName(key: string): (name: string)
    ensures |name| == |key|
    ensures |key| > 0 ==> name[0] == UpperChar(key[0]) && name[1..] == key[1..]
  {
    if |key| == 0 then "" else [UpperChar(key[0])] + key[1..]
  }

  function EntryItem(e: Entry, prefix: string, id: Option<string>): NavItem
  {
    match e
    case Tool(name, file, toolId) => ToolLink(prefix + file, name, Some(toolId) == id)
    case Separator(caption) => SeparatorItem(caption)
  }

  function EntryItems(entries: seq<Entry>, prefix: string, id: Option<string>): (items: seq<NavItem>)
    ensures |items| == |entries| && forall j :: 0 <= j < |entries| ==> items[j] == EntryItem(entries[j], prefix, id)
  {
    seq(|entries|, j requires 0 <= j < |entries| => EntryItem(entries[j], prefix, id))
  }

  function CategoryItems(cat: Category, page: PageInfo, prefix: string): seq<NavItem>
  {
    [CategoryOpen(cat.key, CategoryName(cat.key), page.category == Some(cat.key))]
    + EntryItems(cat.entries, prefix, page.id)
    + [CategoryClose]
  }

  function CategoriesItems(cats: seq<Category>, page: PageInfo, prefix: string): seq<NavItem>
    decreases |cats|
  {
    if |cats| == 0 then []
    else CategoriesItems(cats[..|cats| - 1], page, prefix) + CategoryItems(cats[|cats| - 1], page, prefix)
  }

  /** The menu for a page: Home, each category with its entries, then the language selector if the file has one. */
  function Render(cats: seq<Category>, page: PageInfo, withLanguageMenu: bool): (items: seq<NavItem>)
    ensures |items| >= 1 && items[0] == HomeLink(PathPrefix(page) + "index.html", page.id == Some("home"))
    ensures withLanguageMenu ==> items[|items| - 1] == LanguageMenu
  {
    var prefix := PathPrefix(page);
    [HomeLink(prefix + "index.html", page.id == Some("home"))]
    + CategoriesItems(cats, page, prefix)
    + (if withLanguageMenu then [LanguageMenu] else [])
  }

  /** generateNavHTML, accumulating the markup one piece at a time. */
  method GenerateNavHTML(cats: seq<Category>, page: PageInfo, withLanguageMenu: bool) returns (html: seq<NavItem>)
    ensures html == Render(cats, page, withLanguageMenu)
  {
    var homeCurrent := page.id == Some("home");
    var inSubfolder := page.category.Some?;
    var pathPrefix := if inSubfolder then "../" else "";
    html := [HomeLink(pathPrefix + "index.html", homeCurrent)];
    html := AppendCategories(html, cats, page, pathPrefix);
    if withLanguageMenu {
      html := html + [LanguageMenu];
    }
  }

  /** The loop of generateNavHTML over the categories: heading, entries, closing markup. */
  method AppendCategories(html0: seq<NavItem>, cats: seq<Category>, page: PageInfo, pathPrefix: string)
    returns (html: seq<NavItem>)
    ensures html == html0 + CategoriesItems(cats, page, pathPrefix)
  {
    html := html0;
    var c := 0;
    while c < |cats|
      invariant 0 <= c <= |cats|
      invariant html == html0 + CategoriesItems(cats[..c], page, pathPrefix)
    {
      html := AppendCategory(html, cats[c], page, pathPrefix);
      CategoriesSnoc(cats, c, page, pathPrefix);
      c := c + 1;
    }
    assert cats[..c] == cats;
  }

  /** One category's markup: its heading, its entries, its closing tags. */
  method AppendCategory(html0: seq<NavItem>, category: Category, page: PageInfo, pathPrefix: string)
    returns (html: seq<NavItem>)
    ensures html == html0 + CategoryItems(category, page, pathPrefix)
  {
    var isCurrent := page.category == Some(category.key);
    html := html0 + [CategoryOpen(category.key, CategoryName(category.key), isCurrent)];
    html := AppendEntries(html, category.entries, pathPrefix, page.id);
    html := html + [CategoryClose];
  }

  lemma CategoriesSnoc(cats: seq<Category>, c: nat, page: PageInfo, prefix: string)
    requires c < |cats|
    ensures CategoriesItems(cats[..c + 1], page, prefix) == CategoriesItems(cats[..c], page, prefix) + CategoryItems(cats[c], page, prefix)
  {
    assert cats[..c + 1][..c] == cats[..c];
  }

  /** The `tools.forEach` of generateNavHTML: a separator or a link per entry. */
  method AppendEntries(html0: seq<NavItem>, entries: seq<Entry>, pathPrefix: string, id: Option<string>)
    returns (html: seq<NavItem>)
    ensures html == html0 + EntryItems(entries, pathPrefix, id)
  {
    html := html0;
    var j := 0;
    while j < |entries|
      invariant 0 <= j <= |entries|
      invariant html == html0 + EntryItems(entries[..j], pathPrefix, id)
    {
      var tool := entries[j];
      if tool.Separator? {
        html := html + [SeparatorItem(tool.caption)];
      } else {
        var isCurrentTool := Some(tool.toolId) == id;
        html := html + [ToolLink(pathPrefix + tool.file, tool.name, isCurrentTool)];
      }
      assert entries[..j + 1] == entries[..j] + [tool];
      j := j + 1;
    }
    assert entries[..j] == entries;
  }

  /** The categories' part of the menu holds exactly the pieces of each category. */
  lemma {:induction false} CategoriesMembers(cats: seq<Category>, page: PageInfo, prefix: string, item: NavItem)
    ensures item in CategoriesItems(cats, page, prefix) <==>
      exists c :: 0 <= c < |cats| && item in CategoryItems(cats[c], page, prefix)
    decreases |cats|
  {
    if |cats| > 0 {
      var init := cats[..|cats| - 1];
      CategoriesMembers(init, page, prefix, item);
      if item in CategoriesItems(cats, page, prefix) {
        if item in CategoriesItems(init, page, prefix) {
          var c :| 0 <= c < |init| && item in CategoryItems(init[c], page, prefix);
          assert cats[c] == init[c];
        } else {
          assert item in CategoryItems(cats[|cats| - 1], page, prefix);
        }
      }
      if exists c :: 0 <= c < |cats| && item in CategoryItems(cats[c], page, prefix) {
        var c :| 0 <= c < |cats| && item in CategoryItems(cats[c], page, prefix);
        if c < |cats| - 1 {
          assert init[c] == cats[c];
        }
      }
    }
  }

  lemma EntryMembers(entries: seq<Entry>, prefix: string, id: Option<string>, item: NavItem)
    ensures item in EntryItems(entries, prefix, id) <==>
      exists j :: 0 <= j < |entries| && item == EntryItem(entries[j], prefix, id)
  {
    if item in EntryItems(entries, prefix, id) {
      var j :| 0 <= j < |entries| && EntryItems(entries, prefix, id)[j] == item;
    }
  }

  /** A category's entries render as tool links and separators only. */
  lemma EntryItemsKinds(entries: seq<Entry>, prefix: string, id: Option<string>, item: NavItem)
    requires item in EntryItems(entries, prefix, id)
    ensures item.ToolLink? || item.SeparatorItem?
  {
    EntryMembers(entries, prefix, id, item);
  }

  /** The pieces of the menu, as a membership test. */
  lemma RenderMembers(cats: seq<Category>, page: PageInfo, withLanguageMenu: bool, item: NavItem)
    ensures var prefix := PathPrefix(page);
      item in Render(cats, page, withLanguageMenu) <==>
        || item == HomeLink(prefix + "index.html", page.id == Some("home"))
        || (withLanguageMenu && item == LanguageMenu)
        || exists c :: 0 <= c < |cats| && item in CategoryItems(cats[c], page, prefix)
  {
    CategoriesMembers(cats, page, PathPrefix(page), item);
  }

  /**
   * The menu links every tool of the registry and nothing else: a tool link
   * is in the menu exactly when some tool has that name, has the link as
   * prefix + file, and is current exactly when its id is the page's id.
   */
  lemma ToolLinksAreTools(cats: seq<Category>, page: PageInfo, withLanguageMenu: bool,
                          href: string, name: string, current: bool)
    ensures ToolLink(href, name, current) in Render(cats, page, withLanguageMenu) <==>
      exists c, j :: 0 <= c < |cats| && 0 <= j < |cats[c].entries| && cats[c].entries[j].Tool?
        && name == cats[c].entries[j].name && href == PathPrefix(page) + cats[c].entries[j].file
        && current == (Some(cats[c].entries[j].toolId) == page.id)
  {
    var prefix := PathPrefix(page);
    var item := ToolLink(href, name, current);
    RenderMembers(cats, page, withLanguageMenu, item);
    if item in Render(cats, page, withLanguageMenu) {
      var c :| 0 <= c < |cats| && item in CategoryItems(cats[c], page, prefix);
      EntryMembers(cats[c].entries, prefix, page.id, item);
      var j :| 0 <= j < |cats[c].entries| && item == EntryItem(cats[c].entries[j], prefix, page.id);
      assert cats[c].entries[j].Tool?;
    }
    if exists c, j :: 0 <= c < |cats| && 0 <= j < |cats[c].entries| && cats[c].entries[j].Tool?
        && name == cats[c].entries[j].name && href == prefix + cats[c].entries[j].file
        && current == (Some(cats[c].entries[j].toolId) == page.id) {
      var c, j :| 0 <= c < |cats| && 0 <= j < |cats[c].entries| && cats[c].entries[j].Tool?
        && name == cats[c].entries[j].name && href == prefix + cats[c].entries[j].file
        && current == (Some(cats[c].entries[j].toolId) == page.id);
      assert EntryItem(cats[c].entries[j], prefix, page.id) == item;
      EntryMembers(cats[c].entries, prefix, page.id, item);
      assert item in CategoryItems(cats[c], page, prefix);
    }
  }

  /** A separator entry renders as a separator with its caption, and separators come from nowhere else. */
  lemma SeparatorsRender(cats: seq<Category>, page: PageInfo, withLanguageMenu: bool, caption: string)
    ensures SeparatorItem(caption) in Render(cats, page, withLanguageMenu) <==>
      exists c, j :: 0 <= c < |cats| && 0 <= j < |cats[c].entries| && cats[c].entries[j] == Separator(caption)
  {
    var prefix := PathPrefix(page);
    var item := SeparatorItem(caption);
    RenderMembers(cats, page, withLanguageMenu, item);
    if item in Render(cats, page, withLanguageMenu) {
      var c :| 0 <= c < |cats| && item in CategoryItems(cats[c], page, prefix);
      EntryMembers(cats[c].entries, prefix, page.id, item);
      var j :| 0 <= j < |cats[c].entries| && item == EntryItem(cats[c].entries[j], prefix, page.id);
      assert cats[c].entries[j] == Separator(caption);
    }
    if exists c, j :: 0 <= c < |cats| && 0 <= j < |cats[c].entries| && cats[c].entries[j] == Separator(caption) {
      var c, j :| 0 <= c < |cats| && 0 <= j < |cats[c].entries| && cats[c].entries[j] == Separator(caption);
      assert EntryItem(cats[c].entries[j], prefix, page.id) == item;
      EntryMembers(cats[c].entries, prefix, page.id, item);
      assert item in CategoryItems(cats[c], page, prefix);
    }
  }

  /**
   * Home is the menu's first piece, linked through the prefix, and it is the
   * current page exactly when the page id is `'home'`.
   */
  lemma HomeLinkRendered(cats: seq<Category>, page: PageInfo, withLanguageMenu: bool, href: string, current: bool)
    ensures Render(cats, page, withLanguageMenu)[0] == HomeLink(PathPrefix(page) + "index.html", page.id == Some("home"))
    ensures HomeLink(href, current) in Render(cats, page, withLanguageMenu) <==>
      href == PathPrefix(page) + "index.html" && current == (page.id == Some("home"))
  {
    var prefix := PathPrefix(page);
    var item := HomeLink(href, current);
    RenderMembers(cats, page, withLanguageMenu, item);
    forall c | 0 <= c < |cats|
      ensures item !in CategoryItems(cats[c], page, prefix)
    {
      if item in EntryItems(cats[c].entries, prefix, page.id) {
        EntryItemsKinds(cats[c].entries, prefix, page.id, item);
      }
    }
  }

  /** Each category heading shows the key with its first letter upper-cased and is current exactly for the page's category. */
  lemma CategoryHeadings(cats: seq<Category>, page: PageInfo, withLanguageMenu: bool, key: string, name: string, current: bool)
    ensures CategoryOpen(key, name, current) in Render(cats, page, withLanguageMenu) <==>
      (exists c :: 0 <= c < |cats| && cats[c].key == key) && name == CategoryName(key)
      && current == (page.category == Some(key))
  {
    var prefix := PathPrefix(page);
    var item := CategoryOpen(key, name, current);
    RenderMembers(cats, page, withLanguageMenu, item);
    if item in Render(cats, page, withLanguageMenu) {
      var c :| 0 <= c < |cats| && item in CategoryItems(cats[c], page, prefix);
      if item in EntryItems(cats[c].entries, prefix, page.id) {
        EntryItemsKinds(cats[c].entries, prefix, page.id, item);
      }
    }
    if (exists c :: 0 <= c < |cats| && cats[c].key == key) && name == CategoryName(key)
        && current == (page.category == Some(key)) {
      var c :| 0 <= c < |cats| && cats[c].key == key;
      assert item in CategoryItems(cats[c], page, prefix);
    }
  }

  /** No two tools share an id. */
  predicate ToolIdsDistinct(cats: seq<Category>)
  {
    forall c1, j1, c2, j2 ::
      0 <= c1 < |cats| && 0 <= j1 < |cats[c1].entries| && 0 <= c2 < |cats| && 0 <= j2 < |cats[c2].entries|
      && cats[c1].entries[j1].Tool? && cats[c2].entries[j2].Tool?
      && cats[c1].entries[j1].toolId == cats[c2].entries[j2].toolId
      ==> c1 == c2 && j1 == j2
  }

  /** With distinct tool ids, every link marked `aria-current` points to one and the same tool. */
  lemma CurrentToolUnique(cats: seq<Category>, page: PageInfo, withLanguageMenu: bool,
                          href1: string, name1: string, href2: string, name2: string)
    requires ToolIdsDistinct(cats)
    requires ToolLink(href1, name1, true) in Render(cats, page, withLanguageMenu)
    requires ToolLink(href2, name2, true) in Render(cats, page, withLanguageMenu)
    ensures href1 == href2 && name1 == name2
  {
    ToolLinksAreTools(cats, page, withLanguageMenu, href1, name1, true);
    ToolLinksAreTools(cats, page, withLanguageMenu, href2, name2, true);
  }

  /* ---------------------------------------------------------------------- */
  /* The dropdown state machine                                              */
  /* ---------------------------------------------------------------------- */

  /**
   * The category buttons' `aria-expanded`, their dropdowns' `hidden`, and the
   * tracker `currentOpenDropdown`, as a category index.
   */
  class Dropdowns {
    var expanded: seq<bool>
    var hidden: seq<bool>
    var tracked: Option<nat>

    /** Every button and dropdown come in pairs that agree, and the tracker names one of them. */
    predicate Valid()
      reads this
    {
      |expanded| == |hidden|
      && (tracked.Some? ==> tracked.value < |expanded|)
      && forall i :: 0 <= i < |expanded| ==> hidden[i] == !expanded[i]
    }

    /** The property the tracker exists for: any open dropdown is the tracked one. */
    predicate AtMostOneOpen()
      reads this
    {
      Valid() && forall i :: 0 <= i < |expanded| && expanded[i] ==> tracked == Some(i)
    }

    /** The generated markup: every button collapsed, every dropdown hidden, nothing tracked. */
    constructor (n: nat)
      ensures |expanded| == n && AtMostOneOpen() && tracked.None?
      ensures forall i :: 0 <= i < n ==> !expanded[i]
    {
      expanded := seq(n, i => false);
      hidden := seq(n, i => true);
      tracked := None;
    }

    method OpenDropdown(i: nat)
      requires Valid() && i < |expanded|
      modifies this
      ensures Valid()
      ensures expanded == old(expanded)[i := true] && hidden == old(hidden)[i := false]
      ensures tracked == old(tracked)
    {
      expanded := expanded[i := true];
      hidden := hidden[i := false];
    }

    /** Closing always clears the tracker, whichever dropdown it closes. */
    method CloseDropdown(i: nat)
      requires Valid() && i < |expanded|
      modifies this
      ensures Valid()
      ensures expanded == old(expanded)[i := false] && hidden == old(hidden)[i := true]
      ensures tracked.None?
      ensures old(AtMostOneOpen()) && (old(expanded)[i] || old(tracked).None?) ==> forall k :: 0 <= k < |expanded| ==> !expanded[k]
    {
      expanded := expanded[i := false];
      hidden := hidden[i := true];
      tracked := None;
    }

    /**
     * toggleDropdown: an open dropdown closes; a closed one opens after the
     * tracked one is closed, and becomes the tracked one.
     */
    method ToggleDropdown(i: nat)
      requires Valid() && i < |expanded|
      modifies this
      ensures Valid() && |expanded| == |old(expanded)|
      ensures old(expanded)[i] ==> expanded == old(expanded)[i := false] && tracked.None?
      ensures !old(expanded)[i] ==> (tracked == Some(i)
        && expanded == (if old(tracked).Some? then old(expanded)[old(tracked).value := false] else old(expanded))[i := true])
      ensures old(AtMostOneOpen()) ==> AtMostOneOpen()
      ensures old(AtMostOneOpen()) && !old(expanded)[i] ==> forall k :: 0 <= k < |expanded| ==> (expanded[k] <==> k == i)
    {
      var isExpanded := expanded[i];
      if isExpanded {
        CloseDropdown(i);
      } else {
        if tracked.Some? {
          CloseDropdown(tracked.value);
        }
        OpenDropdown(i);
        tracked := Some(i);
      }
    }

    /** closeAllDropdowns: close every expanded button's dropdown, in document order. */
    method CloseAllDropdowns()
      requires Valid()
      modifies this
      ensures Valid() && AtMostOneOpen()
      ensures |expanded| == |old(expanded)| && forall k :: 0 <= k < |expanded| ==> !expanded[k] && hidden[k]
      ensures (exists k :: 0 <= k < |old(expanded)| && old(expanded)[k]) ==> tracked.None?
      ensures (forall k :: 0 <= k < |old(expanded)| ==> !old(expanded)[k]) ==> tracked == old(tracked)
    {
      var i := 0;
      while i < |expanded|
        invariant Valid() && |expanded| == |old(expanded)|
        invariant 0 <= i <= |expanded|
        invariant forall k :: 0 <= k < i ==> !expanded[k]
        invariant forall k :: i <= k < |expanded| ==> expanded[k] == old(expanded)[k]
        invariant (exists k :: 0 <= k < i && old(expanded)[k]) ==> tracked.None?
        invariant (forall k :: 0 <= k < i ==> !old(expanded)[k]) ==> tracked == old(tracked)
      {
        if expanded[i] {
          CloseDropdown(i);
        }
        i := i + 1;
      }
    }

    /** The Escape key: close the first expanded dropdown, if any, and report its button for focus. */
    method Escape() returns (focus: Option<nat>)
      requires Valid()
      modifies this
      ensures Valid()
      ensures focus.None? <==> forall k :: 0 <= k < |old(expanded)| ==> !old(expanded)[k]
      ensures focus.None? ==> expanded == old(expanded) && hidden == old(hidden) && tracked == old(tracked)
      ensures focus.Some? ==> (focus.value < |old(expanded)| && old(expanded)[focus.value]
        && (forall k :: 0 <= k < focus.value ==> !old(expanded)[k])
        && expanded == old(expanded)[focus.value := false] && tracked.None?)
      ensures old(AtMostOneOpen()) ==> AtMostOneOpen()
    {
      var i := 0;
      while i < |expanded| && !expanded[i]
        invariant 0 <= i <= |expanded|
        invariant forall k :: 0 <= k < i ==> !expanded[k]
      {
        i := i + 1;
      }
      if i < |expanded| {
        CloseDropdown(i);
        focus := Some(i);
      } else {
        focus := None;
      }
    }

    /** ArrowDown on a category button: open a collapsed dropdown, or move focus into an open one. */
    method ArrowDownOnButton(i: nat) returns (focusFirstLink: bool)
      requires Valid() && i < |expanded|
      modifies this
      ensures Valid() && |expanded| == |old(expanded)|
      ensures focusFirstLink == old(expanded)[i]
      ensures focusFirstLink ==> expanded == old(expanded) && hidden == old(hidden) && tracked == old(tracked)
      ensures !focusFirstLink ==> expanded[i] && tracked == Some(i)
      ensures old(AtMostOneOpen()) ==> AtMostOneOpen()
    {
      if !expanded[i] {
        ToggleDropdown(i);
        focusFirstLink := false;
      } else {
        focusFirstLink := true;
      }
    }

    /**
     * A navigation key on link `index` of dropdown `i`, which has `n` links:
     * focus moves by LinkFocus, and ArrowUp from the first link closes the
     * dropdown.
     */
    method KeyOnLink(i: nat, key: Key, index: nat, n: nat) returns (focus: Focus)
      requires Valid() && i < |expanded| && index < n
      modifies this
      ensures Valid()
      ensures focus == LinkFocus(key, index, n)
      ensures focus.ReturnToButton? ==> expanded == old(expanded)[i := false] && tracked.None?
      ensures focus.FocusLink? ==> expanded == old(expanded) && hidden == old(hidden) && tracked == old(tracked)
    {
      focus := LinkFocus(key, index, n);
      if focus.ReturnToButton? {
        CloseDropdown(i);
      }
    }
  }

  /* ---------------------------------------------------------------------- */
  /* Keyboard index rules                                                    */
  /* ---------------------------------------------------------------------- */

  datatype Key = ArrowDown | ArrowUp | Home | End

  /** Where focus goes: a link of the list, or back to the category button. */
  datatype Focus = FocusLink(index: nat) | ReturnToButton

  /**
   * The rules in a dropdown's link list: ArrowDown stops at the last link,
   * ArrowUp from the first link leaves the list, Home and End jump to the ends.
   */
  function LinkFocus(key: Key, index: nat, n: nat): (f: Focus)
    requires index < n
    ensures f.FocusLink? ==> f.index < n
    ensures f.ReturnToButton? <==> key == ArrowUp && index == 0
    ensures key == ArrowDown ==> f == FocusLink(if index == n - 1 then index else index + 1)
    ensures key == ArrowUp && index > 0 ==> f == FocusLink(index - 1)
    ensures key == Home ==> f == FocusLink(0)
    ensures key == End ==> f == FocusLink(n - 1)
  {
    match key
    case ArrowDown => FocusLink(Min(index + 1, n - 1))
    case ArrowUp => if index == 0 then ReturnToButton else FocusLink(index - 1)
    case Home => FocusLink(0)
    case End => FocusLink(n - 1)
  }

  function Min(a: int, b: int): int
  {
    if a < b then a else b
  }

  function Max(a: int, b: int): int
  {
    if a > b then a else b
  }

  /** ArrowUp undoes ArrowDown away from the last link, and ArrowDown undoes ArrowUp away from the first. */
  lemma ArrowKeysInverse(index: nat, n: nat)
    requires index < n
    ensures index + 1 < n ==> LinkFocus(ArrowUp, LinkFocus(ArrowDown, index, n).index, n) == FocusLink(index)
    ensures index > 0 ==> LinkFocus(ArrowDown, LinkFocus(ArrowUp, index, n).index, n) == FocusLink(index)
  {
  }

  /**
   * The language list's arrow keys: the index of the focused option may be
   * -1 (focus outside the list), and the next index is clamped to [0, n-1].
   */
  function LanguageFocus(down: bool, index: int, n: nat): (next: nat)
    requires n >= 1 && -1 <= index < n
    ensures next < n
    ensures down ==> next == (if index + 1 < n then index + 1 else n - 1)
    ensures !down ==> next == (if index >= 1 then index - 1 else 0)
  {
    if down then Min(index + 1, n - 1) else Max(index - 1, 0)
  }
}
