/**
 * I18nUtils (i18n-utils.js): key resolution with its calling forms, the DOM
 * pass over `data-i18n*` elements, bundle loading with its fallback chain, and
 * the session state that init and setLang drive. The older copy in
 * public_html/i18n-utils.js runs the same session (its differences are the
 * `legacy` flag here and the module LegacyI18nUtils).
 */
module I18nUtils {
  import opened Wrappers
  import opened Strings
  import opened JsonValue
  import opened I18nCore
  import StorageUtils

  /* ---------------------------------------------------------------------- */
  /* t(key, fallbackOrParams, params)                                        */
  /* ---------------------------------------------------------------------- */

  /** t's second argument, by its runtime type. */
  datatype SecondArg =
    | Omitted                              // undefined, null and other values with no own keys
    | Fallback(text: string)               // typeof === 'string': fallback text
    | Params(params: map<string, string>)  // an object: the parameter map

  /** The parameter map t works with: the third argument after a string, else the second (`|| {}`). */
  function ParamsOf(second: SecondArg, third: Option<map<string, string>>): map<string, string>
  {
    match second
    case Fallback(_) => if third.Some? then third.value else map[]
    case Params(p) => p
    case Omitted => map[]
  }

  /**
   * t. A miss yields the fallback text (interpolated) when the second argument
   * is a string and the key itself otherwise; a hit on a string yields it
   * interpolated and any other hit the stored value as it is. The checks for
   * an empty parameter map in the source change nothing, since interpolating
   * with no parameters is the identity.
   */
  function T(bundle: Value, key: string, second: SecondArg, third: Option<map<string, string>>): (r: Value)
    ensures GetNestedValue(bundle, key).None? && !second.Fallback? ==> r == Str(key)
    ensures GetNestedValue(bundle, key).None? && second.Fallback? ==>
      r == Str(Interpolate(second.text, ParamsOf(second, third)))
    ensures GetNestedValue(bundle, key).Some? && GetNestedValue(bundle, key).value.Str? ==>
      r == Str(Interpolate(GetNestedValue(bundle, key).value.s, ParamsOf(second, third)))
    ensures GetNestedValue(bundle, key).Some? && !GetNestedValue(bundle, key).value.Str? ==>
      r == GetNestedValue(bundle, key).value
  {
    var fallback := if second.Fallback? then Some(second.text) else None;
    var params := ParamsOf(second, third);
    var value := GetNestedValue(bundle, key);
    if value.None? then
      if fallback.Some? then
        if |params| > 0 then Str(Interpolate(fallback.value, params))
        else
          assert params == map[];
          InterpolateNoParams(fallback.value);
          Str(fallback.value)
      else Str(key)
    else if value.value.Str? && |params| > 0 then Str(Interpolate(value.value.s, params))
    else
      if value.value.Str? then
        assert params == map[];
        InterpolateNoParams(value.value.s);
        value.value
      else value.value
  }

  /**
   * `t(key)`, the form the DOM pass uses: a miss yields the key, a hit the
   * stored value as it is (no parameters, so no token is replaced).
   */
  function Translate(bundle: Value, key: string): (r: Value)
    ensures GetNestedValue(bundle, key).None? ==> r == Str(key)
    ensures GetNestedValue(bundle, key).Some? ==> r == GetNestedValue(bundle, key).value
  {
    T(bundle, key, Omitted, None)
  }

  /** On a miss without fallback text, t returns the key string itself, unchanged. */
  lemma MissReturnsKey(bundle: Value, key: string, second: SecondArg, third: Option<map<string, string>>)
    requires !second.Fallback?
    requires GetNestedValue(bundle, key).None?
    ensures T(bundle, key, second, third) == Str(key)
  {
  }

  /** A key present in the tree of objects resolves to its leaf; a string leaf is interpolated. */
  lemma ResolvesPresentKey(bundle: Value, keys: seq<string>, second: SecondArg, third: Option<map<string, string>>)
    requires |keys| >= 1 && forall i :: 0 <= i < |keys| ==> '.' !in keys[i]
    requires At(bundle, keys).Some?
    ensures var leaf := At(bundle, keys).value;
      T(bundle, Join(keys, '.'), second, third)
      == if leaf.Str? then Str(Interpolate(leaf.s, ParamsOf(second, third))) else leaf
  {
    GetNestedValuePresent(bundle, keys);
  }

  /** An empty bundle misses every key: t falls through to its miss policy. */
  lemma EmptyBundleMisses(key: string)
    ensures GetNestedValue(Obj(map[]), key).None?
    ensures Translate(Obj(map[]), key) == Str(key)
  {
    assert Walk(Some(Obj(map[])), Split(key, '.')[..0]) == Some(Obj(map[]));
    GetNestedValueStops(Obj(map[]), key, 0);
  }

  /* Worked examples of the resolver. */

  lemma NestedKeyExample()
    ensures Translate(Obj(map["a" := Obj(map["b" := Obj(map["c" := Str("X")])])]), "a.b.c") == Str("X")
    ensures Translate(Obj(map["a" := Obj(map["b" := Obj(map[])])]), "a.b.c") == Str("a.b.c")
  {
    var keys := ["a", "b", "c"];
    assert Join(keys, '.') == "a.b.c";
    var full := Obj(map["a" := Obj(map["b" := Obj(map["c" := Str("X")])])]);
    GetNestedValuePresent(full, keys);
    var partial := Obj(map["a" := Obj(map["b" := Obj(map[])])]);
    SplitJoin(keys, '.');
    assert keys[..2] == ["a", "b"];
    assert At(partial, ["a", "b"]) == Some(Obj(map[]));
    WalkAt(partial, ["a", "b"]);
    GetNestedValueStops(partial, "a.b.c", 2);
  }

  /** A message with one placeholder between two literal runs. */
  lemma InterpolateOneToken(a: string, w: string, b: string, params: map<string, string>)
    requires '{' !in a && '{' !in b && IsWord(w)
    ensures Interpolate(a + Token(w) + b, params) == a + Replacement(w, params) + b
  {
    var tail := Token(w) + b;
    assert a + Token(w) + b == a + tail;
    assert Interpolate(tail, params) == Replacement(w, params) + b by {
      InterpolateToken(w, b, params);
      assert Interpolate(b, params) == b by {
        InterpolateLiteral(b, "", params);
        assert b + "" == b;
      }
    }
    InterpolateLiteral(a, tail, params);
  }

  /** `"{{name}}"` after a literal run, with and without a `name` parameter. */
  lemma NameTokenExample(a: string, params: map<string, string>)
    requires '{' !in a
    ensures "name" in params ==> Interpolate(a + "{{name}}", params) == a + params["name"]
    ensures "name" !in params ==> Interpolate(a + "{{name}}", params) == a + "{{name}}"
  {
    assert a + "{{name}}" == a + Token("name") + "";
    InterpolateOneToken(a, "name", "", params);
  }

  /** The example messages, as a literal run followed by the token. */
  lemma Literals()
    ensures "Hi " + "{{name}}" == "Hi {{name}}"
    ensures "Hello " + "{{name}}" == "Hello {{name}}"
  {
  }

  lemma FallbackExample(bundle: Value, user: string)
    requires GetNestedValue(bundle, "missing").None?
    ensures T(bundle, "missing", Fallback("Hi {{name}}"), Some(map["name" := user])) == Str("Hi " + user)
  {
    NameTokenExample("Hi ", map["name" := user]);
    Literals();
  }

  lemma GreetingLookup(greeting: Value)
    requires greeting == Obj(map["greet" := Str("Hello {{name}}")])
    ensures GetNestedValue(greeting, "greet") == Some(Str("Hello {{name}}"))
  {
    SplitWithout("greet", '.');
  }

  /** A parameter fills its token. */
  lemma GreetingExample(greeting: Value, user: string)
    requires greeting == Obj(map["greet" := Str("Hello {{name}}")])
    ensures T(greeting, "greet", Params(map["name" := user]), None) == Str("Hello " + user)
  {
    Literals();
    GreetingLookup(greeting);
    NameTokenExample("Hello ", map["name" := user]);
  }

  /** A token without a parameter stays as written. */
  lemma GreetingKeepsToken(greeting: Value, other: string)
    requires greeting == Obj(map["greet" := Str("Hello {{name}}")])
    requires other != "name"
    ensures T(greeting, "greet", Params(map[other := "5"]), None) == Str("Hello {{name}}")
  {
    Literals();
    assert "name" !in map[other := "5"];
    GreetingLookup(greeting);
    NameTokenExample("Hello ", map[other := "5"]);
  }

  /* ---------------------------------------------------------------------- */
  /* applyTranslations                                                       */
  /* ---------------------------------------------------------------------- */

  /**
   * An element as the DOM pass sees it: its four marker attributes and the
   * four places a translation can go. `dataPlaceholder` and `ariaLabel` are
   * attributes that may be absent.
   */
  datatype Element = Element(
    i18n: Option<string>,
    i18nPlaceholder: Option<string>,
    i18nAriaLabel: Option<string>,
    i18nTitle: Option<string>,
    textContent: Value,
    placeholder: Value,
    dataPlaceholder: Option<Value>,
    ariaLabel: Option<Value>,
    title: Value)

  /** The four marker attributes, in the order the pass handles them. */
  datatype Marker = TextMarker | PlaceholderMarker | AriaLabelMarker | TitleMarker

  function MarkerKey(m: Marker, e: Element): Option<string>
  {
    match m
    case TextMarker => e.i18n
    case PlaceholderMarker => e.i18nPlaceholder
    case AriaLabelMarker => e.i18nAriaLabel
    case TitleMarker => e.i18nTitle
  }

  /** The write for one marker; a placeholder goes to `data-placeholder` when that attribute exists. */
  function Write(m: Marker, e: Element, v: Value): Element
  {
    match m
    case TextMarker => e.(textContent := v)
    case PlaceholderMarker => if e.dataPlaceholder.Some? then e.(dataPlaceholder := Some(v)) else e.(placeholder := v)
    case AriaLabelMarker => e.(ariaLabel := Some(v))
    case TitleMarker => e.(title := v)
  }

  /** One marker's effect on one element: write only when `t(key) !== key`. */
  function Pass(m: Marker, e: Element, bundle: Value): Element
  {
    var key := MarkerKey(m, e);
    if key.Some? && Translate(bundle, key.value) != Str(key.value) then Write(m, e, Translate(bundle, key.value))
    else e
  }

  /** The whole pass on one element: text, placeholder, aria-label, title. */
  function Translated(e: Element, bundle: Value): Element
  {
    Pass(TitleMarker, Pass(AriaLabelMarker, Pass(PlaceholderMarker, Pass(TextMarker, e, bundle), bundle), bundle), bundle)
  }

  function TranslateAll(es: seq<Element>, bundle: Value): (r: seq<Element>)
    ensures |r| == |es| && forall i :: 0 <= i < |es| ==> r[i] == Translated(es[i], bundle)
  {
    seq(|es|, i requires 0 <= i < |es| => Translated(es[i], bundle))
  }

  lemma PassKeepsMarkers(m: Marker, e: Element, bundle: Value)
    ensures var e' := Pass(m, e, bundle);
      e'.i18n == e.i18n && e'.i18nPlaceholder == e.i18nPlaceholder
      && e'.i18nAriaLabel == e.i18nAriaLabel && e'.i18nTitle == e.i18nTitle
      && e'.dataPlaceholder.Some? == e.dataPlaceholder.Some?
  {
  }

  /**
   * Only hits are written: every place that changes belongs to a marker
   * whose key the bundle has, and it then holds `t(key)`.
   */
  lemma PassWritesOnlyHits(e: Element, bundle: Value)
    ensures var e' := Translated(e, bundle);
      && (e'.textContent != e.textContent ==>
            e.i18n.Some? && GetNestedValue(bundle, e.i18n.value).Some? && e'.textContent == Translate(bundle, e.i18n.value))
      && (e'.placeholder != e.placeholder ==>
            e.dataPlaceholder.None? && e.i18nPlaceholder.Some? && GetNestedValue(bundle, e.i18nPlaceholder.value).Some?
            && e'.placeholder == Translate(bundle, e.i18nPlaceholder.value))
      && (e'.dataPlaceholder != e.dataPlaceholder ==>
            e.dataPlaceholder.Some? && e.i18nPlaceholder.Some? && GetNestedValue(bundle, e.i18nPlaceholder.value).Some?
            && e'.dataPlaceholder == Some(Translate(bundle, e.i18nPlaceholder.value)))
      && (e'.ariaLabel != e.ariaLabel ==>
            e.i18nAriaLabel.Some? && GetNestedValue(bundle, e.i18nAriaLabel.value).Some?
            && e'.ariaLabel == Some(Translate(bundle, e.i18nAriaLabel.value)))
      && (e'.title != e.title ==>
            e.i18nTitle.Some? && GetNestedValue(bundle, e.i18nTitle.value).Some? && e'.title == Translate(bundle, e.i18nTitle.value))
  {
    PassKeepsMarkers(TextMarker, e, bundle);
    var e1 := Pass(TextMarker, e, bundle);
    PassKeepsMarkers(PlaceholderMarker, e1, bundle);
    var e2 := Pass(PlaceholderMarker, e1, bundle);
    PassKeepsMarkers(AriaLabelMarker, e2, bundle);
  }

  /**
   * Every hit is written: for each marker whose key `t` does not echo back,
   * its place holds `t(key)` after the pass. A placeholder goes to
   * `data-placeholder` when the element has one, and to `placeholder` otherwise.
   */
  lemma PassWritesHits(e: Element, bundle: Value)
    ensures var e' := Translated(e, bundle);
      && (e.i18n.Some? && Translate(bundle, e.i18n.value) != Str(e.i18n.value) ==>
            e'.textContent == Translate(bundle, e.i18n.value))
      && (e.i18nPlaceholder.Some? && Translate(bundle, e.i18nPlaceholder.value) != Str(e.i18nPlaceholder.value) ==>
            if e.dataPlaceholder.Some?
            then e'.dataPlaceholder == Some(Translate(bundle, e.i18nPlaceholder.value)) && e'.placeholder == e.placeholder
            else e'.placeholder == Translate(bundle, e.i18nPlaceholder.value) && e'.dataPlaceholder == e.dataPlaceholder)
      && (e.i18nAriaLabel.Some? && Translate(bundle, e.i18nAriaLabel.value) != Str(e.i18nAriaLabel.value) ==>
            e'.ariaLabel == Some(Translate(bundle, e.i18nAriaLabel.value)))
      && (e.i18nTitle.Some? && Translate(bundle, e.i18nTitle.value) != Str(e.i18nTitle.value) ==>
            e'.title == Translate(bundle, e.i18nTitle.value))
  {
    PassKeepsMarkers(TextMarker, e, bundle);
    var e1 := Pass(TextMarker, e, bundle);
    PassKeepsMarkers(PlaceholderMarker, e1, bundle);
    var e2 := Pass(PlaceholderMarker, e1, bundle);
    PassKeepsMarkers(AriaLabelMarker, e2, bundle);
  }

  /** Running the pass a second time over an unchanged bundle changes nothing. */
  lemma {:induction false} PassIdempotent(e: Element, bundle: Value)
    ensures Translated(Translated(e, bundle), bundle) == Translated(e, bundle)
  {
    var e1 := Translated(e, bundle);
    PassKeepsMarkers(TextMarker, e, bundle);
    PassKeepsMarkers(PlaceholderMarker, Pass(TextMarker, e, bundle), bundle);
  }

  /* ---------------------------------------------------------------------- */
  /* loadTranslations                                                        */
  /* ---------------------------------------------------------------------- */

  /**
   * What one `fetch` of a bundle URL comes to: a parsed body, a response that
   * is not ok, or a throw (network failure, or an ok body that is not JSON).
   */
  datatype FetchOutcome = Ok(bundle: Value) | NotOk | Throws

  function BundleUrl(prefix: string, lang: string): string
  {
    prefix + "i18n/" + lang + ".json"
  }

  /** The code loadTranslations fetches: unsupported values become `'en'`. */
  function LoadCode(lang: Value): (code: string)
    ensures code in SupportedLangs
    ensures lang.Str? && lang.s in SupportedLangs ==> code == lang.s
    ensures !(lang.Str? && lang.s in SupportedLangs) ==> code == DefaultLang
  {
    if lang.Str? && lang.s in SupportedLangs then lang.s else DefaultLang
  }

  /**
   * The bundle after loadTranslations: the requested code's bundle, else one
   * retry with `'en'` for any other code; a non-ok retry keeps the bundle, a
   * throwing one empties it, and a failed `'en'` request keeps it.
   */
  function LoadedBundle(previous: Value, lang: Value, prefix: string, net: string -> FetchOutcome): (b: Value)
    ensures net(BundleUrl(prefix, LoadCode(lang))).Ok? ==> b == net(BundleUrl(prefix, LoadCode(lang))).bundle
    ensures || b == previous || b == Obj(map[])
            || net(BundleUrl(prefix, LoadCode(lang))) == Ok(b) || net(BundleUrl(prefix, DefaultLang)) == Ok(b)
  {
    var code := LoadCode(lang);
    match net(BundleUrl(prefix, code))
    case Ok(b) => b
    case _ =>
      if code == DefaultLang then previous
      else
        match net(BundleUrl(prefix, DefaultLang))
        case Ok(b) => b
        case NotOk => previous
        case Throws => Obj(map[])
  }

  /** The URLs loadTranslations requests, in order. */
  function LoadFetches(lang: Value, prefix: string, net: string -> FetchOutcome): seq<string>
  {
    var code := LoadCode(lang);
    [BundleUrl(prefix, code)]
    + if !net(BundleUrl(prefix, code)).Ok? && code != DefaultLang then [BundleUrl(prefix, DefaultLang)] else []
  }

  /** At most two requests: the second is the `'en'` retry, made only after a failure for another code. */
  lemma LoadRetriesOnce(lang: Value, prefix: string, net: string -> FetchOutcome)
    ensures var urls := LoadFetches(lang, prefix, net);
      1 <= |urls| <= 2 && urls[0] == BundleUrl(prefix, LoadCode(lang))
      && (|urls| == 2 <==> LoadCode(lang) != DefaultLang && !net(urls[0]).Ok?)
      && (|urls| == 2 ==> urls[1] == BundleUrl(prefix, DefaultLang))
  {
  }

  /** A successful fetch replaces the bundle wholesale; any unsupported value loads as `'en'`. */
  lemma LoadSuccessReplaces(previous: Value, lang: Value, prefix: string, net: string -> FetchOutcome, b: Value)
    requires net(BundleUrl(prefix, LoadCode(lang))) == Ok(b)
    ensures LoadedBundle(previous, lang, prefix, net) == b
    ensures !(lang.Str? && lang.s in SupportedLangs) ==> LoadedBundle(previous, lang, prefix, net) == LoadedBundle(previous, Str(DefaultLang), prefix, net)
  {
  }

  /** The fallback law: when the requested code fails and `'en'` loads, the result is the `'en'` bundle. */
  lemma LoadFallbackLaw(previous: Value, lang: string, prefix: string, net: string -> FetchOutcome, en: Value)
    requires lang in SupportedLangs && lang != DefaultLang
    requires !net(BundleUrl(prefix, lang)).Ok?
    requires net(BundleUrl(prefix, DefaultLang)) == Ok(en)
    ensures LoadedBundle(previous, Str(lang), prefix, net) == en
  {
  }

  /**
   * When no request succeeds, the bundle becomes empty exactly when the
   * retry threw, and is kept otherwise.
   */
  lemma LoadAllFailed(previous: Value, lang: Value, prefix: string, net: string -> FetchOutcome)
    requires forall u :: u in LoadFetches(lang, prefix, net) ==> !net(u).Ok?
    ensures var retried := |LoadFetches(lang, prefix, net)| == 2;
      LoadedBundle(previous, lang, prefix, net)
      == if retried && net(BundleUrl(prefix, DefaultLang)).Throws? then Obj(map[]) else previous
  {
    var urls := LoadFetches(lang, prefix, net);
    assert urls[0] in urls;
    if |urls| == 2 {
      assert urls[1] in urls;
    }
  }

  /** A bundle that loads resolves every key present in it to its exact leaf. */
  lemma LoadThenResolve(previous: Value, lang: string, prefix: string, net: string -> FetchOutcome,
                        b: Value, keys: seq<string>)
    requires lang in SupportedLangs && net(BundleUrl(prefix, lang)) == Ok(b)
    requires |keys| >= 1 && forall i :: 0 <= i < |keys| ==> '.' !in keys[i]
    requires At(b, keys).Some?
    ensures Translate(LoadedBundle(previous, Str(lang), prefix, net), Join(keys, '.')) == At(b, keys).value
  {
    ResolvesPresentKey(b, keys, Omitted, None);
    if At(b, keys).value.Str? {
      InterpolateNoParams(At(b, keys).value.s);
    }
  }

  /* ---------------------------------------------------------------------- */
  /* The session: init, setLang and the module state                         */
  /* ---------------------------------------------------------------------- */

  datatype Event = I18nReady(readyLanguage: Value) | LangChange(newLanguage: string)

  /** What the engine does outside its own variables, in the order it does it. */
  datatype Effect =
    | Fetch(url: string)
    | Persist(key: string, value: Value)
    | SetDocumentLang(lang: Value)
    | MarkInitialized
    | ApplyPass
    | Dispatch(event: Event)
    | Callback(lang: Value)
    | Announce(message: string, priority: string)

  function LoadEffects(lang: Value, prefix: string, net: string -> FetchOutcome): seq<Effect>
  {
    var urls := LoadFetches(lang, prefix, net);
    seq(|urls|, i requires 0 <= i < |urls| => Fetch(urls[i]))
  }

  function AnnounceEffects(hasA11y: bool, lang: string): seq<Effect>
  {
    if hasA11y then [Announce("Language changed to " + GetLangNativeName(lang), "polite")] else []
  }

  /** What init does once loaded: page language, ready flag, DOM pass, then the event and the callback. */
  function ReadyEffects(lang: Value, legacy: bool, withCallback: bool): seq<Effect>
  {
    [SetDocumentLang(lang), MarkInitialized, ApplyPass]
    + (if legacy then [] else [Dispatch(I18nReady(lang))])
    + (if withCallback then [Callback(lang)] else [])
  }

  /** What setLang does once loaded: page language, DOM pass, the event, then the announcement. */
  function SwitchEffects(lang: string, hasA11y: bool): seq<Effect>
  {
    [SetDocumentLang(Str(lang)), ApplyPass, Dispatch(LangChange(lang))] + AnnounceEffects(hasA11y, lang)
  }

  class Session {
    /** The module variables `translations`, `currentLang` and `isInitialized`. */
    var translations: Value
    var currentLang: Value
    var isInitialized: bool
    /** `document.documentElement.lang`. */
    var documentLang: Value
    /** The page's elements, in document order. */
    var elements: seq<Element>
    var trace: seq<Effect>
    /** The preference store. */
    const store: StorageUtils.LocalStorage
    /** `window.location.pathname`. */
    const pathname: string
    /** Whether the announcement collaborator A11yUtils is loaded. */
    const hasA11y: bool
    /** The copy in public_html/i18n-utils.js, whose init dispatches no ready event. */
    const legacy: bool

    constructor (store: StorageUtils.LocalStorage, pathname: string, documentLang: Value,
                 elements: seq<Element>, hasA11y: bool, legacy: bool)
      ensures this.store == store && this.pathname == pathname && this.hasA11y == hasA11y && this.legacy == legacy
      ensures this.documentLang == documentLang && this.elements == elements
      ensures translations == Obj(map[]) && currentLang == Str(DefaultLang) && !isInitialized && trace == []
    {
      this.store := store;
      this.pathname := pathname;
      this.hasA11y := hasA11y;
      this.legacy := legacy;
      this.documentLang := documentLang;
      this.elements := elements;
      translations := Obj(map[]);
      currentLang := Str(DefaultLang);
      isInitialized := false;
      trace := [];
    }

    /** isReady. */
    function IsReady(): (ready: bool)
      reads this
      ensures ready <==> isInitialized
    {
      isInitialized
    }

    /** getCurrentLang. */
    function GetCurrentLang(): (lang: Value)
      reads this
      ensures lang == currentLang
    {
      currentLang
    }

    /** getSavedLanguage: `StorageUtils.load('user-language', null)`. */
    function GetSavedLanguage(): (saved: Value)
      reads this, store
      ensures saved == StorageUtils.LoadFrom(store.items, StorageKey, Null)
      ensures store.GetItem(StorageUtils.Prefix + StorageKey).None? ==> saved == Null
    {
      StorageUtils.Load(store, StorageKey, Null)
    }

    /** loadTranslations(lang). */
    method LoadTranslations(lang: Value, net: string -> FetchOutcome)
      modifies this
      ensures translations == LoadedBundle(old(translations), lang, GetPathPrefix(pathname), net)
      ensures trace == old(trace) + LoadEffects(lang, GetPathPrefix(pathname), net)
      ensures currentLang == old(currentLang) && isInitialized == old(isInitialized)
      ensures documentLang == old(documentLang) && elements == old(elements)
    {
      var code := lang;
      if !(lang.Str? && lang.s in SupportedLangs) {
        code := Str(DefaultLang);
      }
      var pathPrefix := GetPathPrefix(pathname);
      var url := BundleUrl(pathPrefix, code.s);
      trace := trace + [Fetch(url)];
      var response := net(url);
      if response.Ok? {
        translations := response.bundle;
      } else {
        // the catch block: retry with the default language, once
        if code.s != DefaultLang {
          var fallbackUrl := BundleUrl(GetPathPrefix(pathname), DefaultLang);
          trace := trace + [Fetch(fallbackUrl)];
          var fallback := net(fallbackUrl);
          match fallback {
            case Ok(b) => translations := b;
            case NotOk =>
            case Throws => translations := Obj(map[]);
          }
        }
      }
    }

    /** One of applyTranslations' four loops: the elements carrying marker `m`. */
    method ApplyMarker(m: Marker)
      modifies this
      ensures |elements| == |old(elements)|
      ensures forall j :: 0 <= j < |elements| ==> elements[j] == Pass(m, old(elements)[j], translations)
      ensures translations == old(translations) && currentLang == old(currentLang)
      ensures isInitialized == old(isInitialized) && documentLang == old(documentLang) && trace == old(trace)
    {
      var i := 0;
      while i < |elements|
        invariant 0 <= i <= |elements| == |old(elements)|
        invariant forall j :: 0 <= j < i ==> elements[j] == Pass(m, old(elements)[j], translations)
        invariant forall j :: i <= j < |elements| ==> elements[j] == old(elements)[j]
        invariant translations == old(translations) && currentLang == old(currentLang)
        invariant isInitialized == old(isInitialized) && documentLang == old(documentLang) && trace == old(trace)
      {
        var el := elements[i];
        var key := MarkerKey(m, el);
        if key.Some? {
          var translated := T(translations, key.value, Omitted, None);
          if translated != Str(key.value) {
            elements := elements[i := Write(m, el, translated)];
          }
        }
        i := i + 1;
      }
    }

    /** applyTranslations. */
    method ApplyTranslations()
      modifies this
      ensures elements == TranslateAll(old(elements), translations)
      ensures trace == old(trace) + [ApplyPass]
      ensures translations == old(translations) && currentLang == old(currentLang)
      ensures isInitialized == old(isInitialized) && documentLang == old(documentLang)
    {
      ApplyMarker(TextMarker);
      ApplyMarker(PlaceholderMarker);
      ApplyMarker(AriaLabelMarker);
      ApplyMarker(TitleMarker);
      trace := trace + [ApplyPass];
    }

    /**
     * init: pick the language (a truthy saved value, unchecked; else a
     * supported browser language; else `'en'`), load it, then set the page
     * language, mark the session ready, run the DOM pass and announce it.
     */
    method Init(language: string, userLanguage: string, net: string -> FetchOutcome, withCallback: bool)
      returns (lang: Value)
      modifies this
      ensures currentLang == ChooseLanguage(GetSavedLanguage(), DetectBrowserLanguage(language, userLanguage))
      ensures translations == LoadedBundle(old(translations), currentLang, GetPathPrefix(pathname), net)
      ensures documentLang == currentLang && isInitialized
      ensures elements == TranslateAll(old(elements), translations)
      ensures trace == old(trace) + LoadEffects(currentLang, GetPathPrefix(pathname), net)
                       + ReadyEffects(currentLang, legacy, withCallback)
      ensures lang == currentLang
    {
      currentLang := Or(Or(GetSavedLanguage(), DetectedValue(DetectBrowserLanguage(language, userLanguage))), Str(DefaultLang));
      LoadTranslations(currentLang, net);
      FinishInit(withCallback);
      lang := currentLang;
    }

    /** The part of init after the bundle has loaded. */
    method FinishInit(withCallback: bool)
      modifies this
      ensures documentLang == currentLang && isInitialized
      ensures elements == TranslateAll(old(elements), translations)
      ensures trace == old(trace) + ReadyEffects(currentLang, legacy, withCallback)
      ensures translations == old(translations) && currentLang == old(currentLang)
    {
      documentLang := currentLang;
      trace := trace + [SetDocumentLang(currentLang)];
      isInitialized := true;
      trace := trace + [MarkInitialized];
      ApplyTranslations();
      if !legacy {
        trace := trace + [Dispatch(I18nReady(currentLang))];
      }
      if withCallback {
        trace := trace + [Callback(currentLang)];
      }
    }

    /**
     * setLang: an unsupported code, or the current one, changes nothing.
     * Otherwise set and persist the code, load it, set the page language,
     * run the DOM pass, dispatch `langchange`, and announce the change by the
     * language's native name.
     */
    method SetLang(lang: string, net: string -> FetchOutcome)
      requires store.Valid()
      modifies this, store
      ensures store.Valid()
      ensures lang !in SupportedLangs || old(currentLang) == Str(lang) ==>
        && translations == old(translations) && currentLang == old(currentLang)
        && isInitialized == old(isInitialized) && documentLang == old(documentLang)
        && elements == old(elements) && trace == old(trace)
        && store.items == old(store.items) && store.keys == old(store.keys)
      ensures lang in SupportedLangs && old(currentLang) != Str(lang) ==>
        && currentLang == Str(lang)
        && store.items == old(store.items)[StorageUtils.Prefix + StorageKey := StorageUtils.Json(Str(lang))]
        && store.keys == (if StorageUtils.Prefix + StorageKey in old(store.keys) then old(store.keys) else old(store.keys) + [StorageUtils.Prefix + StorageKey])
        && translations == LoadedBundle(old(translations), Str(lang), GetPathPrefix(pathname), net)
        && documentLang == Str(lang) && isInitialized == old(isInitialized)
        && elements == TranslateAll(old(elements), translations)
        && trace == old(trace) + [Persist(StorageKey, Str(lang))]
                    + LoadEffects(Str(lang), GetPathPrefix(pathname), net)
                    + SwitchEffects(lang, hasA11y)
    {
      if lang !in SupportedLangs {
        return;
      }
      if Str(lang) == currentLang {
        return;
      }
      SwitchTo(lang, net);
    }

    /** The body of setLang once the code has passed both guards. */
    method SwitchTo(lang: string, net: string -> FetchOutcome)
      requires store.Valid()
      modifies this, store
      ensures store.Valid()
      ensures currentLang == Str(lang)
      ensures store.items == old(store.items)[StorageUtils.Prefix + StorageKey := StorageUtils.Json(Str(lang))]
      ensures store.keys == if StorageUtils.Prefix + StorageKey in old(store.keys) then old(store.keys) else old(store.keys) + [StorageUtils.Prefix + StorageKey]
      ensures translations == LoadedBundle(old(translations), Str(lang), GetPathPrefix(pathname), net)
      ensures documentLang == Str(lang) && isInitialized == old(isInitialized)
      ensures elements == TranslateAll(old(elements), translations)
      ensures trace == old(trace) + [Persist(StorageKey, Str(lang))]
                       + LoadEffects(Str(lang), GetPathPrefix(pathname), net)
                       + SwitchEffects(lang, hasA11y)
    {
      currentLang := Str(lang);
      StorageUtils.Save(store, StorageKey, Str(lang));
      trace := trace + [Persist(StorageKey, Str(lang))];
      LoadTranslations(Str(lang), net);
      FinishSwitch(lang);
    }

    /** The part of setLang after the bundle has loaded. */
    method FinishSwitch(lang: string)
      modifies this
      ensures documentLang == Str(lang)
      ensures elements == TranslateAll(old(elements), translations)
      ensures trace == old(trace) + SwitchEffects(lang, hasA11y)
      ensures translations == old(translations) && currentLang == old(currentLang)
      ensures isInitialized == old(isInitialized)
    {
      documentLang := Str(lang);
      trace := trace + [SetDocumentLang(Str(lang))];
      ApplyTranslations();
      trace := trace + [Dispatch(LangChange(lang))];
      if hasA11y {
        var langName := GetLangNativeName(lang);
        trace := trace + [Announce("Language changed to " + langName, "polite")];
      }
    }
  }
}
