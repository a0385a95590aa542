/**
 * The pure part of the translation engine. Both copies of the engine
 * (i18n-utils.js and public_html/i18n-utils.js) contain this code line for
 * line: the constants, the dotted-key lookup, `{{word}}` interpolation, the
 * bundle path prefix, browser-language negotiation, the choice of the start
 * language and the native-name table.
 */
module I18nCore {
  import opened Wrappers
  import opened Strings
  import opened JsonValue

  const StorageKey: string := "user-language"
  const DefaultLang: string := "en"
  const SupportedLangs: seq<string> := ["en", "es", "hi", "zh"]

  /** Directories whose pages fetch their bundles one level up. */
  const SubdirMarkers: seq<string> := ["/nettools/", "/system/", "/data/", "/financials/", "/productivity/"]

  /* ---------------------------------------------------------------------- */
  /* Dotted-key lookup                                                       */
  /* ---------------------------------------------------------------------- */

  /** One step of getNestedValue's `reduce`: `current && current[key] !== undefined ? current[key] : undefined`. */
  function Step(current: Option<Value>, key: string): Option<Value>
  {
    if current.Some? && Truthy(current.value) && Property(current.value, key).Some?
    then Property(current.value, key)
    else None
  }

  /** The `reduce` itself, over the segments from left to right. */
  function Walk(current: Option<Value>, keys: seq<string>): Option<Value>
    decreases |keys|
  {
    if |keys| == 0 then current else Walk(Step(current, keys[0]), keys[1..])
  }

  /**
   * `getNestedValue(obj, path)`; `None` is `undefined`. A key without a dot
   * is one property access on a truthy object.
   */
  function GetNestedValue(obj: Value, path: string): (r: Option<Value>)
    ensures '.' !in path ==> r == (if Truthy(obj) then Property(obj, path) else None)
  {
    if '.' !in path then
      SplitWithout(path, '.');
      assert Walk(Some(obj), [path]) == Walk(Step(Some(obj), path), []);
      Walk(Some(obj), Split(path, '.'))
    else Walk(Some(obj), Split(path, '.'))
  }

  /** Reference lookup: descend through nested objects, one key per level. */
  function At(v: Value, keys: seq<string>): Option<Value>
    decreases |keys|
  {
    if |keys| == 0 then Some(v)
    else if v.Obj? && keys[0] in v.fields then At(v.fields[keys[0]], keys[1..])
    else None
  }

  /** Once undefined, the walk stays undefined for all remaining segments. */
  lemma {:induction false} WalkUndefined(keys: seq<string>)
    ensures Walk(None, keys) == None
    decreases |keys|
  {
    if |keys| > 0 {
      WalkUndefined(keys[1..]);
    }
  }

  lemma {:induction false} WalkAppend(current: Option<Value>, a: seq<string>, b: seq<string>)
    ensures Walk(current, a + b) == Walk(Walk(current, a), b)
    decreases |a|
  {
    if |a| == 0 {
      assert a + b == b;
    } else {
      assert (a + b)[0] == a[0];
      assert (a + b)[1..] == a[1..] + b;
      WalkAppend(Step(current, a[0]), a[1..], b);
    }
  }

  /** Where every level is an object holding the key, the walk finds the reference leaf. */
  lemma {:induction false} WalkAt(v: Value, keys: seq<string>)
    requires At(v, keys).Some?
    ensures Walk(Some(v), keys) == At(v, keys)
    decreases |keys|
  {
    if |keys| > 0 {
      WalkAt(v.fields[keys[0]], keys[1..]);
    }
  }

  /** For a path present in the tree of objects, getNestedValue yields that leaf. */
  lemma GetNestedValuePresent(obj: Value, keys: seq<string>)
    requires |keys| >= 1
    requires forall i :: 0 <= i < |keys| ==> '.' !in keys[i]
    requires At(obj, keys).Some?
    ensures GetNestedValue(obj, Join(keys, '.')) == At(obj, keys)
  {
    SplitJoin(keys, '.');
    WalkAt(obj, keys);
  }

  /**
   * getNestedValue yields undefined as soon as one segment fails: the value
   * reached before it is undefined or falsy, or lacks that property.
   */
  lemma GetNestedValueStops(obj: Value, path: string, i: nat)
    requires i < |Split(path, '.')|
    requires var keys := Split(path, '.');
             var w := Walk(Some(obj), keys[..i]);
             w.None? || !Truthy(w.value) || Property(w.value, keys[i]).None?
    ensures GetNestedValue(obj, path) == None
  {
    var keys := Split(path, '.');
    assert keys == keys[..i] + keys[i..];
    WalkAppend(Some(obj), keys[..i], keys[i..]);
    assert keys[i..][0] == keys[i];
    assert keys[i..][1..] == keys[i + 1..];
    WalkUndefined(keys[i + 1..]);
  }

  /* ---------------------------------------------------------------------- */
  /* Interpolation: value.replace(/\{\{(\w+)\}\}/g, ...)                     */
  /* ---------------------------------------------------------------------- */

  /** The regular-expression class `\w`. */
  predicate IsWordChar(c: char)
  {
    'a' <= c <= 'z' || 'A' <= c <= 'Z' || '0' <= c <= '9' || c == '_'
  }

  predicate IsWord(w: string)
  {
    |w| > 0 && forall i :: 0 <= i < |w| ==> IsWordChar(w[i])
  }

  /** The length of the run of word characters that starts `s`. */
  function WordRun(s: string): (n: nat)
    ensures n <= |s|
    ensures forall i :: 0 <= i < n ==> IsWordChar(s[i])
    ensures n < |s| ==> !IsWordChar(s[n])
    decreases |s|
  {
    if |s| > 0 && IsWordChar(s[0]) then 1 + WordRun(s[1..]) else 0
  }

  /** The name of the `{{name}}` token that starts `s`, if one does. */
  function TokenAt(s: string): Option<string>
  {
    if |s| >= 2 && s[0] == '{' && s[1] == '{' then
      var n := WordRun(s[2..]);
      if n > 0 && n + 4 <= |s| && s[n + 2] == '}' && s[n + 3] == '}' then Some(s[2..n + 2]) else None
    else None
  }

  function Token(w: string): string
  {
    "{{" + w + "}}"
  }

  /** What a `{{w}}` token becomes: the parameter when it is defined, else the token itself. */
  function Replacement(w: string, params: map<string, string>): string
  {
    if w in params then params[w] else Token(w)
  }

  /** The global replace: try a token at each position, from left to right. */
  function Interpolate(s: string, params: map<string, string>): string
    decreases |s|
  {
    if |s| == 0 then ""
    else match TokenAt(s)
      case Some(w) =>
        TokenAtSpells(s);
        Replacement(w, params) + Interpolate(s[|w| + 4..], params)
      case None => [s[0]] + Interpolate(s[1..], params)
  }

  lemma TokenAtSpells(s: string)
    requires TokenAt(s).Some?
    ensures IsWord(TokenAt(s).value)
    ensures |TokenAt(s).value| + 4 <= |s| && s[..|TokenAt(s).value| + 4] == Token(TokenAt(s).value)
  {
  }

  /** A character that cannot open a token is copied and the scan moves on. */
  lemma InterpolateCons(s: string, params: map<string, string>)
    requires |s| > 0 && s[0] != '{'
    ensures Interpolate(s, params) == [s[0]] + Interpolate(s[1..], params)
  {
    assert TokenAt(s).None?;
  }

  /** Text before any `{` is copied unchanged. */
  lemma {:induction false} InterpolateLiteral(a: string, s: string, params: map<string, string>)
    requires '{' !in a
    ensures Interpolate(a + s, params) == a + Interpolate(s, params)
    decreases |a|
  {
    if |a| == 0 {
      assert a + s == s;
    } else {
      assert '{' !in a[1..];
      InterpolateLiteral(a[1..], s, params);
      assert (a + s)[1..] == a[1..] + s;
      assert (a + s)[0] == a[0];
      InterpolateCons(a + s, params);
      assert a == [a[0]] + a[1..];
    }
  }

  /** With no parameters every token stays as written: the text comes back unchanged. */
  lemma {:induction false} InterpolateNoParams(s: string)
    ensures Interpolate(s, map[]) == s
    decreases |s|
  {
    if |s| > 0 {
      match TokenAt(s)
      case Some(w) =>
        TokenAtSpells(s);
        InterpolateNoParams(s[|w| + 4..]);
        assert s == s[..|w| + 4] + s[|w| + 4..];
      case None =>
        InterpolateNoParams(s[1..]);
        assert s == [s[0]] + s[1..];
    }
  }

  lemma {:induction false} WordRunOf(w: string, t: string)
    requires forall i :: 0 <= i < |w| ==> IsWordChar(w[i])
    requires |t| > 0 && !IsWordChar(t[0])
    ensures WordRun(w + t) == |w|
    decreases |w|
  {
    if |w| > 0 {
      assert (w + t)[1..] == w[1..] + t;
      WordRunOf(w[1..], t);
    } else {
      assert w + t == t;
    }
  }

  /** A `{{w}}` token is replaced by its parameter, or kept when the parameter is undefined. */
  lemma InterpolateToken(w: string, s: string, params: map<string, string>)
    requires IsWord(w)
    ensures Interpolate(Token(w) + s, params) == Replacement(w, params) + Interpolate(s, params)
  {
    var full := Token(w) + s;
    assert full[2..] == w + ("}}" + s);
    WordRunOf(w, "}}" + s);
    assert full[2..|w| + 2] == w;
    assert full[|w| + 4..] == s;
  }

  /* ---------------------------------------------------------------------- */
  /* Path prefix, language negotiation and names                             */
  /* ---------------------------------------------------------------------- */

  /** getPathPrefix: `'../'` exactly when the pathname contains a subdirectory marker. */
  function GetPathPrefix(pathname: string): (prefix: string)
    ensures prefix == "../" || prefix == ""
    ensures prefix == "../" <==>
      exists k, i :: 0 <= k < |SubdirMarkers| && OccursAt(pathname, SubdirMarkers[k], i)
  {
    ContainsIff(pathname, SubdirMarkers[0]);
    ContainsIff(pathname, SubdirMarkers[1]);
    ContainsIff(pathname, SubdirMarkers[2]);
    ContainsIff(pathname, SubdirMarkers[3]);
    ContainsIff(pathname, SubdirMarkers[4]);
    if Contains(pathname, "/nettools/") || Contains(pathname, "/system/") || Contains(pathname, "/data/")
       || Contains(pathname, "/financials/") || Contains(pathname, "/productivity/")
    then "../"
    else ""
  }

  /** The text before the first `-` of a locale tag. */
  function PrimarySubtag(tag: string): string
  {
    Split(tag, '-')[0]
  }

  /**
   * detectBrowserLanguage, given `navigator.language` and
   * `navigator.userLanguage` (the empty string stands for an absent one).
   */
  function DetectBrowserLanguage(language: string, userLanguage: string): (r: Option<string>)
    ensures r.Some? <==>
      var tag := if language != "" then language else userLanguage;
      tag != "" && Lower(PrimarySubtag(tag)) in SupportedLangs
    ensures r.Some? ==> r.value in SupportedLangs
    ensures r.Some? ==> r.value == Lower(PrimarySubtag(if language != "" then language else userLanguage))
  {
    var browserLang := if language != "" then language else userLanguage;
    if browserLang == "" then None
    else
      var langCode := Lower(PrimarySubtag(browserLang));
      if langCode in SupportedLangs then Some(langCode) else None
  }

  /** The value an absent-or-code result has in `saved || detected || 'en'`. */
  function DetectedValue(detected: Option<string>): Value
  {
    if detected.Some? then Str(detected.value) else Null
  }

  /**
   * init's choice: `getSavedLanguage() || detectBrowserLanguage() || DEFAULT_LANG`.
   * The choice is never falsy; a truthy saved value is kept as it is, and
   * otherwise the choice is the detected code or `'en'`.
   */
  function ChooseLanguage(saved: Value, detected: Option<string>): (r: Value)
    ensures Truthy(r)
    ensures Truthy(saved) ==> r == saved
    ensures !Truthy(saved) ==> r.Str? && (r.s == DefaultLang || detected == Some(r.s))
  {
    Or(Or(saved, DetectedValue(detected)), Str(DefaultLang))
  }

  /** A truthy saved value wins, unchecked; then a supported browser code; then `'en'`. */
  lemma ChooseLanguagePriority(saved: Value, detected: Option<string>)
    requires detected.Some? ==> detected.value in SupportedLangs
    ensures Truthy(saved) ==> ChooseLanguage(saved, detected) == saved
    ensures !Truthy(saved) && detected.Some? ==> ChooseLanguage(saved, detected) == Str(detected.value)
    ensures !Truthy(saved) && detected.None? ==> ChooseLanguage(saved, detected) == Str(DefaultLang)
    ensures !Truthy(saved) ==> ChooseLanguage(saved, detected).Str? && ChooseLanguage(saved, detected).s in SupportedLangs
  {
  }

  datatype LangInfo = LangInfo(code: string, name: string, nativeName: string)

  /** getSupportedLanguages: a descriptor for each supported code, in the same order. */
  function SupportedLanguages(): (langs: seq<LangInfo>)
    ensures |langs| == |SupportedLangs|
    ensures forall i :: 0 <= i < |SupportedLangs| ==> langs[i].code == SupportedLangs[i]
  {
    [ LangInfo("en", "English", "English"),
      LangInfo("es", "Spanish", "Espa\U{00F1}ol"),
      LangInfo("hi", "Hindi", "\U{0939}\U{093F}\U{0928}\U{094D}\U{0926}\U{0940}"),
      LangInfo("zh", "Chinese", "\U{4E2D}\U{6587}") ]
  }

  /** `Array.prototype.find` by code. */
  function FindLang(langs: seq<LangInfo>, code: string): (r: Option<LangInfo>)
    ensures r.Some? ==> r.value in langs && r.value.code == code
    ensures r.None? <==> forall i :: 0 <= i < |langs| ==> langs[i].code != code
    decreases |langs|
  {
    if |langs| == 0 then None
    else if langs[0].code == code then Some(langs[0])
    else FindLang(langs[1..], code)
  }

  /** getLangNativeName: the descriptor's native name, or the code itself. */
  function GetLangNativeName(code: string): (name: string)
    ensures code !in SupportedLangs ==> name == code
    ensures code in SupportedLangs ==>
      exists l :: l in SupportedLanguages() && l.code == code && name == l.nativeName
  {
    var found := FindLang(SupportedLanguages(), code);
    if found.Some? then found.value.nativeName else code
  }
}
