# OldWeb Tools: translation engine, navigation menu and preference store

OldWeb Tools is a set of static browser pages. Three small pieces of shared
script run on every page, and this project models them in Dafny:

- **The translation engine** (`I18nUtils`). It keeps one bundle of
  translations, the current language code and a ready flag. `init` picks the
  language in this order: the saved preference, then the browser's primary
  language subtag if it is supported, then `en`. It then fetches
  `<prefix>i18n/<lang>.json`, retrying once with `en`. The prefix is `../`
  on pages under one of five directories. After loading it sets the page
  language, translates every marked element and announces readiness.
  `t` resolves dotted keys through nested objects and fills in `{{word}}`
  tokens. On a miss it returns the key, or the fallback text when one is
  given. `setLang` persists a new supported language, reloads and
  re-translates.
- **The navigation menu** (`navigationv2.js` and its older copy
  `navigation.js`). `getCurrentPageInfo` classifies the current path into a
  page id and a category. `generateNavHTML` renders the menu. The
  category dropdowns form a small state machine with one tracked open menu,
  and the keyboard moves focus by index rules.
- **The preference store** (`StorageUtils`). It is a namespace over
  `localStorage`: every key gets the prefix `owt_`, and values are stored
  as JSON.

## Design

- **Modules.** There is one module per concern:
  - `Strings`: split, join, contains, ASCII case mapping.
  - `JsonValue`: JSON values with the script's truthiness and property access.
  - `StorageUtils`.
  - `I18nCore`: code both copies of the engine share, word for word.
  - `I18nUtils`: the current engine.
  - `LegacyI18nUtils`: the `t` of `public_html/i18n-utils.js`.
  - `NavMenu`: code both menus share.
  - `Navigation` and `NavigationV2`.
- **State.** State the script changes in place is a class:
  - `StorageUtils.LocalStorage` is the browser store: its key order and its items.
  - `I18nUtils.Session` holds the engine's module variables, the page language,
    the marked elements and a trace of outside effects.
  - `NavMenu.Dropdowns` holds the dropdown buttons.
  - `NavigationV2.LanguageSelector` is the language button.
- **Outside effects.** The `trace` records, in order:
  - every fetch URL,
  - every persisted preference,
  - every page-language write,
  - every translation pass,
  - every dispatched event, callback and screen-reader announcement.
- **Fetch.** `fetch` is the parameter `net`. It maps a URL to a parsed
  body, a not-ok response, or a throw.
- **The two engine copies.** They differ in two ways:
  - the copy under `public_html/` dispatches no ready event (`Session.legacy`);
  - its `t` takes no fallback.
  `LegacyI18nUtils.AgreesWithParamsForm` proves that this `t` is the params
  form of the current one.
- **The two menus.** Both are modelled over the shared `NavMenu` with their
  own registries and directory tables.
  - The dropdown and key code of the two files is identical, so it is modelled
    once; rows cite the `navigationv2.js` lines. The same code is at
    `navigation.js:324-359` and `navigation.js:382-437`.
  - For the current menu's classifier, `NavigationV2.Classify` takes the
    registry and the tables as arguments. `GetCurrentPageInfo` applies it to
    the file's own tables.

## Model

| member | source | states |
|---|---|---|
| Strings.ContainsIff | i18n-utils.js:127-131 | `includes` holds exactly when the substring occurs at some index |
| Strings.ContainsIgnoresTail | navigationv2.js:415-416 | appending text after a directory path adds no marker occurrence when the marker ends in a character the text lacks |
| Strings.Split | i18n-utils.js:197 | `split` always yields at least one part |
| Strings.SplitPartsFree | i18n-utils.js:197 | no part of a split contains the separator |
| Strings.JoinSplit | i18n-utils.js:197 | joining the parts of a split gives back the string |
| Strings.SplitJoin | i18n-utils.js:197 | splitting a join of separator-free parts gives back the parts |
| Strings.SplitWithout | i18n-utils.js:75 | a string without the separator splits into itself alone |
| Strings.SplitAround | i18n-utils.js:197 | splitting around one separator concatenates the two sides' splits |
| Strings.LastPartAfterSep | navigationv2.js:412 | `split('/').pop()` is the text after the last `/` |
| StorageUtils.KeepMembers | public_html/storage-utils.js:45-51 | dropping keys keeps exactly the members not dropped |
| StorageUtils.KeepDistinct | public_html/storage-utils.js:45-51 | dropping keys keeps the store's keys duplicate-free |
| StorageUtils.KeepNothing | public_html/storage-utils.js:45-51 | dropping no key changes nothing |
| StorageUtils.KeepTwice | public_html/storage-utils.js:56-69 | dropping two key sets one after another drops their union |
| StorageUtils.LocalStorage.constructor | public_html/storage-utils.js:7-10 | the browser's store, here starting empty and consistent; the script itself creates no store, and the empty one stands for whatever the browser holds |
| StorageUtils.LocalStorage.SetItem | public_html/storage-utils.js:17-23 | `setItem` overwrites one item; a new key goes at the end of the modelled (insertion) key order |
| StorageUtils.LocalStorage.RemoveItem | public_html/storage-utils.js:45-51 | `removeItem` deletes one item and its key, keeping the other keys in the modelled insertion order |
| StorageUtils.Save | public_html/storage-utils.js:17-23 | save writes the JSON of the value under `owt_` + key and changes nothing else |
| StorageUtils.Load | public_html/storage-utils.js:31-39 | load gives the parsed stored value when the item parses, and the default when it is missing or does not parse; it is what `LoadFrom` gives on the store's items |
| StorageUtils.SaveThenLoad | public_html/storage-utils.js:17-39 | on the store as save leaves it, load of the saved key gives the saved value, whatever the default |
| StorageUtils.SaveKeepsOthers | public_html/storage-utils.js:17-39 | on the store as save leaves it, every other key loads what it loaded before |
| StorageUtils.SaveAndReload | public_html/storage-utils.js:17-39 | save then load on one store: the saved key reads back its value, every other key reads what it read before the save |
| StorageUtils.Remove | public_html/storage-utils.js:45-51 | remove deletes exactly `owt_` + key |
| StorageUtils.Prefixed | public_html/storage-utils.js:57-63 | the keys collected are exactly the store's keys that start with `owt_` |
| StorageUtils.ClearAll | public_html/storage-utils.js:56-69 | clearAll removes exactly the `owt_` items and keeps every other item, and the other keys in the modelled insertion order |
| StorageUtils.CollectPrefixed | public_html/storage-utils.js:57-63 | the collecting loop gathers the `owt_` keys in store order |
| StorageUtils.RemoveEach | public_html/storage-utils.js:64-66 | the removing loop deletes exactly the collected keys |
| StorageUtils.ClearedState | public_html/storage-utils.js:56-69 | removing the collected keys leaves exactly the items without the prefix |
| StorageUtils.PrefixedAppend | public_html/storage-utils.js:57-63 | the collected keys grow by one key exactly when that key has the prefix |
| StorageUtils.SaveList | public_html/storage-utils.js:164-166 | saveList is save of the whole list |
| StorageUtils.LoadList | public_html/storage-utils.js:174-176 | loadList gives the parsed stored value when the item parses, else the default, an empty array unless given; it is what `LoadFrom` gives on the store's items |
| I18nCore.GetNestedValue | i18n-utils.js:196-200 | a key without a dot is one property access on a truthy object, and undefined on a falsy one |
| I18nCore.WalkUndefined | i18n-utils.js:196-200 | once the walk hits undefined it stays undefined |
| I18nCore.WalkAppend | i18n-utils.js:196-200 | walking a key path in two pieces equals walking it whole |
| I18nCore.WalkAt | i18n-utils.js:196-200 | where a nested value is present, the reduce reaches exactly it |
| I18nCore.GetNestedValuePresent | i18n-utils.js:196-200 | a dotted key whose segments lead to a present value resolves to that value |
| I18nCore.GetNestedValueStops | i18n-utils.js:196-200 | a falsy intermediate or a missing segment makes the whole lookup undefined |
| I18nCore.WordRun | i18n-utils.js:182 | the `\w+` run is the longest prefix of word characters |
| I18nCore.TokenAtSpells | i18n-utils.js:182 | a recognised token is `{{`, a nonempty word, then `}}` |
| I18nCore.InterpolateNoParams | i18n-utils.js:181-185 | `Interpolate` with no parameters returns the text unchanged |
| I18nCore.InterpolateCons | i18n-utils.js:182-184 | a character that cannot open a token is copied |
| I18nCore.InterpolateLiteral | i18n-utils.js:182-184 | text without `{` is copied unchanged before the rest is interpolated |
| I18nCore.WordRunOf | i18n-utils.js:182 | a word followed by a non-word character is exactly one run |
| I18nCore.InterpolateToken | i18n-utils.js:182-184 | `{{w}}` becomes `params[w]` when that is defined, else stays as written |
| I18nCore.GetPathPrefix | i18n-utils.js:123-136 | the prefix is `../` exactly when one of the five directory markers occurs in the path, else empty |
| I18nCore.DetectBrowserLanguage | i18n-utils.js:70-79 | a language is detected exactly when the browser tag's lower-cased primary subtag is supported, and it is that subtag |
| I18nCore.ChooseLanguage | i18n-utils.js:25 | the start language is always truthy: the saved value when truthy, else a detected code or `en` |
| I18nCore.ChooseLanguagePriority | i18n-utils.js:25 | a truthy saved preference wins, then the detected language, then `en` |
| I18nCore.FindLang | i18n-utils.js:276 | `find` returns a descriptor with the code, and none exactly when no descriptor has it |
| I18nCore.GetLangNativeName | i18n-utils.js:275-278 | a supported code gets its descriptor's native name, any other code is returned as is |
| I18nCore.SupportedLanguages | i18n-utils.js:261-268 | getSupportedLanguages lists exactly the supported codes, in order |
| I18nUtils.T | i18n-utils.js:155-188 | miss: the key, or the interpolated fallback text; hit on a string: it, interpolated; hit on another value: that value |
| I18nUtils.Translate | i18n-utils.js:155-188 | `t(key)`: a miss gives the key, a hit gives the stored value with no token replaced |
| I18nUtils.MissReturnsKey | i18n-utils.js:176-177 | without fallback text, a missing key comes back as the key |
| I18nUtils.ResolvesPresentKey | i18n-utils.js:165-187 | a present dotted key gives its leaf, interpolated when it is a string |
| I18nUtils.EmptyBundleMisses | i18n-utils.js:14 | before any bundle is loaded every key misses and `t(key)` is the key |
| I18nUtils.NestedKeyExample | i18n-utils.js:196-200 | `a.b.c` resolves to its leaf, and a path cut off one level short gives back the key |
| I18nUtils.InterpolateOneToken | i18n-utils.js:182-184 | one token between two literal runs is replaced in place |
| I18nUtils.NameTokenExample | i18n-utils.js:182-184 | `{{name}}` is replaced by the `name` parameter when it is given and kept otherwise |
| I18nUtils.FallbackExample | i18n-utils.js:167-175 | on a miss, fallback `Hi {{name}}` with a name parameter gives `Hi ` plus that name |
| I18nUtils.GreetingLookup | i18n-utils.js:196-200 | a top-level key resolves to its string |
| I18nUtils.GreetingExample | i18n-utils.js:181-185 | `Hello {{name}}` with a name parameter gives `Hello ` plus that name |
| I18nUtils.GreetingKeepsToken | i18n-utils.js:183 | a token with no matching parameter stays as written |
| I18nUtils.TranslateAll | i18n-utils.js:283-324 | the pass translates every element independently, keeping their number and order |
| I18nUtils.PassKeepsMarkers | i18n-utils.js:283-324 | the pass never changes the marker attributes nor adds or removes `data-placeholder` |
| I18nUtils.PassWritesOnlyHits | i18n-utils.js:283-324 | every place the pass changes belongs to a marker whose key is present, and it then holds `t(key)`; a placeholder goes to `data-placeholder` exactly when that attribute exists |
| I18nUtils.PassWritesHits | i18n-utils.js:283-324 | every marker whose key `t` does not echo back has `t(key)` in its place after the pass, the placeholder in `data-placeholder` when that attribute exists and in `placeholder` otherwise |
| I18nUtils.PassIdempotent | i18n-utils.js:283-324 | running the pass twice over the same bundle equals running it once |
| I18nUtils.LoadCode | i18n-utils.js:86-88 | the code loaded is the requested one when supported, else `en` |
| I18nUtils.LoadedBundle | i18n-utils.js:85-117 | a successful first fetch installs its bundle; any result is the old bundle, the empty object, or a fetched bundle |
| I18nUtils.LoadRetriesOnce | i18n-utils.js:85-117 | one fetch of the chosen bundle, and a second one of `en` exactly when the first did not succeed and the code was not `en` |
| I18nUtils.LoadSuccessReplaces | i18n-utils.js:93-99 | a successful first fetch installs its bundle, and an unsupported code loads as `en` |
| I18nUtils.LoadFallbackLaw | i18n-utils.js:100-110 | when the language fails and `en` loads, the bundle is `en` |
| I18nUtils.LoadAllFailed | i18n-utils.js:100-116 | when every fetch fails the old bundle stays, except that a thrown retry empties it |
| I18nUtils.LoadThenResolve | i18n-utils.js:85-200 | after loading a supported language, a key present in its bundle resolves to its leaf |
| I18nUtils.Session.constructor | i18n-utils.js:14-16 | the engine starts with an empty bundle, `en` and not ready |
| I18nUtils.Session.IsReady | i18n-utils.js:330-332 | isReady reports the ready flag, which `Init` sets and the constructor clears |
| I18nUtils.Session.GetCurrentLang | i18n-utils.js:253-255 | getCurrentLang reports the current code, which `Init` and `SetLang` set |
| I18nUtils.Session.GetSavedLanguage | i18n-utils.js:54-57 | the saved language is what load gives for `user-language` with default `null`, so `null` when nothing is stored |
| I18nUtils.Session.LoadTranslations | i18n-utils.js:85-117 | the bundle becomes the load result over the page's prefix, the fetches are traced, nothing else changes |
| I18nUtils.Session.ApplyMarker | i18n-utils.js:285-322 | one marker's pass over all elements, in document order |
| I18nUtils.Session.ApplyTranslations | i18n-utils.js:283-324 | every element is translated with the current bundle |
| I18nUtils.Session.Init | i18n-utils.js:23-48 | language chosen by priority, bundle loaded, page language set, ready, elements translated, then the ready event and callback, and the language is returned |
| I18nUtils.Session.FinishInit | i18n-utils.js:30-45 | page language, ready flag, pass, event and callback in that order |
| I18nUtils.Session.SetLang | i18n-utils.js:207-247 | an unsupported or current language changes nothing; another is current, persisted, loaded, set on the page, applied, announced |
| I18nUtils.Session.SwitchTo | i18n-utils.js:214-246 | persist, load, page language, pass, event and announcement in that order |
| I18nUtils.Session.FinishSwitch | i18n-utils.js:230-246 | page language, pass, the language-change event, then the announcement when the collaborator is loaded |
| LegacyI18nUtils.T | public_html/i18n-utils.js:141-157 | miss: the key; hit on a string: it, interpolated; hit on another value: that value |
| LegacyI18nUtils.AgreesWithParamsForm | public_html/i18n-utils.js:141-157 | the older `t` equals the current `t` called with a params object, and `t(key)` agrees in both |
| LegacyI18nUtils.MissIgnoresFallback | public_html/i18n-utils.js:143-146 | the older `t` has no fallback text: on a miss it gives the key where the current one gives the fallback |
| NavMenu.Filename | navigationv2.js:412 | the file name is never empty and holds no `/`; an empty last segment reads as `index.html` |
| NavMenu.FilenameOfDirectory | navigationv2.js:412 | a path ending in `/` and the same path plus `index.html` both have file name `index.html` |
| NavMenu.FirstMarker | navigationv2.js:451-466 | the first table entry whose marker occurs in the path decides, and none exactly when no marker occurs |
| NavMenu.FirstMarkerFound | navigationv2.js:451-466 | some rule applies exactly when some marker of the table occurs in the path |
| NavMenu.FirstMarkerIgnoresFile | navigationv2.js:415-428 | the file name after the last `/` never changes which directory rule applies |
| NavMenu.FindTool | navigationv2.js:443 | `find` returns the first entry with a file ending in the file name, and none exactly when no entry matches |
| NavMenu.Search | navigationv2.js:440-448 | the search finds nothing exactly when no category has a matching tool, and a hit has an id and a category |
| NavMenu.SearchFindsFirst | navigationv2.js:440-448 | a hit is the first matching tool of the first category holding one, with that category's key |
| NavMenu.PathPrefix | navigationv2.js:476-478 | links get `../` exactly when the page has a category |
| NavMenu.CategoryName | navigationv2.js:492 | the heading is the key with its first letter upper-cased |
| NavMenu.EntryItems | navigationv2.js:506-518 | one menu item per registry entry, in order |
| NavMenu.Render | navigationv2.js:473-557 | the menu starts with the home link, current exactly on the home page, and ends with the language menu when the file has one |
| NavMenu.GenerateNavHTML | navigationv2.js:473-557 | the loops emit the home link, each category with its entries, then the language menu when the file has one |
| NavMenu.AppendCategories | navigationv2.js:488-523 | the category loop appends each category's items in registry order |
| NavMenu.AppendCategory | navigationv2.js:489-522 | one category: its heading, its entries, its closing |
| NavMenu.CategoriesSnoc | navigationv2.js:488-523 | rendering one more category appends its items |
| NavMenu.AppendEntries | navigationv2.js:506-518 | the entry loop appends one item per entry |
| NavMenu.CategoriesMembers | navigationv2.js:488-523 | an item is in the categories' output exactly when one category emits it |
| NavMenu.EntryMembers | navigationv2.js:506-518 | an item is in a category's entries exactly when one entry renders to it |
| NavMenu.EntryItemsKinds | navigationv2.js:506-518 | entries render only to links and separators |
| NavMenu.RenderMembers | navigationv2.js:473-557 | the menu holds exactly the home link, the language menu where present, and the categories' items |
| NavMenu.ToolLinksAreTools | navigationv2.js:512-516 | a tool link is in the menu exactly when a registry tool has that name, the prefixed file as link, and is current exactly when its id is the page id |
| NavMenu.SeparatorsRender | navigationv2.js:508-510 | a separator is in the menu exactly when the registry has it |
| NavMenu.HomeLinkRendered | navigationv2.js:474-482 | the menu starts with the home link, current exactly on the home page, and holds no other |
| NavMenu.CategoryHeadings | navigationv2.js:490-501 | a heading is rendered exactly for a registry category, named by its key and current exactly for the page's category |
| NavMenu.CurrentToolUnique | navigationv2.js:512-513 | with distinct tool ids, at most one tool link is marked current |
| NavMenu.Dropdowns.constructor | navigationv2.js:495-503 | every dropdown starts collapsed, none tracked |
| NavMenu.Dropdowns.OpenDropdown | navigationv2.js:577-580 | openDropdown expands one button and shows its menu |
| NavMenu.Dropdowns.CloseDropdown | navigationv2.js:582-586 | closeDropdown collapses one button, hides its menu and forgets the tracked one |
| NavMenu.Dropdowns.ToggleDropdown | navigationv2.js:560-575 | an open dropdown closes; a closed one opens after the tracked one closes and becomes tracked, so at most one stays open |
| NavMenu.Dropdowns.CloseAllDropdowns | navigationv2.js:588-595 | closeAllDropdowns leaves every dropdown collapsed, and forgets the tracked one when any was open |
| NavMenu.Dropdowns.Escape | navigationv2.js:733-740 | Escape closes the first open dropdown and returns focus to its button, and does nothing when none is open |
| NavMenu.Dropdowns.ArrowDownOnButton | navigationv2.js:743-753 | ArrowDown on a closed button opens it; on an open one it focuses the first link |
| NavMenu.Dropdowns.KeyOnLink | navigationv2.js:756-788 | the focus follows the link rules, and ArrowUp on the first link closes the dropdown |
| NavMenu.LinkFocus | navigationv2.js:756-788 | ArrowDown stops at the last link, ArrowUp at the first returns to the button, Home and End reach the ends |
| NavMenu.ArrowKeysInverse | navigationv2.js:756-775 | ArrowUp undoes ArrowDown and the other way round away from the ends |
| NavMenu.LanguageFocus | navigationv2.js:688-701 | language-menu arrows move by one, clamped to the options, also from an unfocused start |
| Navigation.RegistryHasOnlyTools | navigation.js:3-28 | the older registry has only tools, each with a file |
| Navigation.UnguardedMatchAgrees | navigation.js:258 | over that registry, the unguarded `endsWith` test is the guarded one |
| Navigation.GetCurrentPageInfo | navigation.js:236-267 | three directory homes, then the root home, then the registry search, else no id and no category |
| Navigation.CategorylessPages | navigation.js:236-267 | a page without a category is the root home page or has no id |
| Navigation.TrailingSlashIsIndex | navigation.js:238 | a directory path ending in `/` is classified as its `index.html` |
| Navigation.UnmatchedPageHasNoCategory | navigation.js:256-266 | a page no tool matches gets no category and so unprefixed links |
| Navigation.GenerateNavHTML | navigation.js:270-321 | the older menu has no language selector |
| NavigationV2.Classify | navigationv2.js:410-470 | five directory homes, the root home, the IPv6 page in network, the registry search, then the fallback table's first directory |
| NavigationV2.GetCurrentPageInfo | navigationv2.js:410-470 | over the file's tables: a page without a category is the root home page or has no id, every page under the five directories has a category, and the IPv6 page is in network |
| NavigationV2.CategorylessPages | navigationv2.js:410-470 | a page without a category is the root home page or has no id |
| NavigationV2.TrailingSlashIsIndex | navigationv2.js:412-428 | a directory path ending in `/` is classified as its `index.html` |
| NavigationV2.MarkerTables | navigationv2.js:415-466 | both directory tables hold the same five markers as the translation loader's prefix rule |
| NavigationV2.PathPrefixMarkers | i18n-utils.js:123-136 | the loader's prefix is `../` exactly when one of its five markers occurs |
| NavigationV2.RulesMatchPathPrefix | navigationv2.js:451-466 | a directory rule applies exactly when the translation loader uses the `../` prefix |
| NavigationV2.SubdirPagesGetPrefix | navigationv2.js:410-470 | every page under the five directories gets a category and so the same `../` prefix the loader uses |
| NavigationV2.UnmatchedPage | navigationv2.js:440-469 | a page no tool matches outside the five directories gets no id and no category |
| NavigationV2.SeparatorNeverMatches | navigationv2.js:443 | the separator has no file, so the `t.file &&` guard never selects it |
| NavigationV2.GenerateNavHTML | navigationv2.js:473-557 | the current menu ends with the language selector |
| NavigationV2.AriaCurrentFor | navigationv2.js:610-612 | each option is marked `true` exactly when its code is the language, else `false` |
| NavigationV2.ExactlyOneCurrent | navigationv2.js:610-612 | with distinct codes, a listed language marks exactly one option and an unlisted one marks none |
| NavigationV2.LanguageSelector.constructor | navigationv2.js:538-553 | the selector starts showing `EN` with English current |
| NavigationV2.LanguageSelector.UpdateLanguageDisplay | navigationv2.js:606-613 | the button shows the code upper-cased and the options' marks follow the language |

## Left out

- Number, currency and date formatting (`formatNumber`, `formatCurrency`, `formatDate`) are left out. They rest on `Intl` and floating point.
- The internals of the accessibility helpers are left out. A screen-reader announcement is recorded in the trace as an `Announce` effect, with its message and priority.
- The announcement collaborator's presence is the flag `Session.hasA11y`. The store is always present, so the engine's direct-`localStorage` branches are not modelled.
- The style sheet, menu markup text, DOM lookups and event-listener wiring are left out.
  - Focus moves are returned as values.
  - Events and the callback are trace entries.
  - `init` is modelled as called directly, not on `DOMContentLoaded`.
- `console.warn` output is left out. So are the page reload on the no-engine path of the language menu, and the form helpers and `debounce` of the store.
- Concurrency is left out. The `await`s of `init` and `setLang` run to completion in order, and two overlapping calls are not modelled.
- JSON parsing and stringifying are modelled as the constructors `Json` and `Unparseable` of the stored entries, not as text.
- localStorage quota errors are not modelled.
- StorageUtils.LocalStorage: Web Storage leaves the order of `key(i)` to the browser. The model fixes it as insertion order: a new key goes at the end and a removed key leaves the others in place. The contracts of `SetItem`, `RemoveItem`, `ClearAll` and the `keys` clauses of their callers state that order. What the script relies on holds in any order: which keys `clearAll` collects and removes.
- Properties inherited from the object prototype (`constructor`, `toString`) are not modelled, in the bundle or in the params object. A key is present only when the bundle has it, and a `{{word}}` token is replaced only when the parameter map has the word. In the source, `{{toString}}` finds the inherited function on any params object and is replaced.
- Numbers are integers.
- `toLowerCase` and `toUpperCase` are modelled for ASCII letters only.
- I18nUtils.T: parameter values are strings only, so a number passed as a parameter is not modelled.
- I18nUtils.T: a second argument that is neither text nor a params object has no case of its own. It is modelled as `Omitted`, because it contributes no parameters.
- LegacyI18nUtils.T: a string passed as its second argument is not modelled. The source would interpolate from that string's character indices. Nor is `null` passed as that argument, which makes `Object.keys` throw.
- NavigationV2.LanguageSelector.UpdateLanguageDisplay: the language is a string. A non-string saved value would throw at `toUpperCase`.
- The open/closed state of the language dropdown, its click handlers and its Escape handler are left out.
- The initial display that `setupLanguageSelector` reads from the store before the engine is ready is left out.
- Navigation.GetCurrentPageInfo: the older file calls `t.file.endsWith` without the `t.file &&` guard. The two agree on its registry (`UnguardedMatchAgrees`), so the guarded test is used.
- The checks `filename === ''` and `filename === '/'` can never hold after `|| 'index.html'`. They are kept as written.
- I18nUtils.FallbackExample: the fallback text is returned only when the key is missing, so it requires a miss. When the bundle holds the key, that value wins.
- NavMenu.Dropdowns: `closeAllDropdowns` and Escape find buttons through a selector on `aria-expanded`. A button without a dropdown element is not modelled.
