/**
 * LegacyI18nUtils: the translation function of the older copy,
 * public_html/i18n-utils.js, which takes a parameter map only. Everything
 * else in that copy is shared with I18nUtils (see I18nCore and the
 * `legacy` flag of I18nUtils.Session).
 */
module LegacyI18nUtils {
  import opened Wrappers
  import opened JsonValue
  import opened I18nCore
  import I18nUtils

  /** t(key, params = {}): a miss yields the key; a string hit is interpolated. */
  function T(bundle: Value, key: string, params: map<string, string> := map[]): (r: Value)
    ensures GetNestedValue(bundle, key).None? ==> r == Str(key)
    ensures GetNestedValue(bundle, key).Some? && GetNestedValue(bundle, key).value.Str? ==>
      r == Str(Interpolate(GetNestedValue(bundle, key).value.s, params))
    ensures GetNestedValue(bundle, key).Some? && !GetNestedValue(bundle, key).value.Str? ==>
      r == GetNestedValue(bundle, key).value
  {
    var value := GetNestedValue(bundle, key);
    if value.None? then Str(key)
    else if value.value.Str? && |params| > 0 then Str(Interpolate(value.value.s, params))
    else
      if value.value.Str? then
        assert params == map[];
        InterpolateNoParams(value.value.s);
        value.value
      else value.value
  }

  /**
   * The two versions agree on the parameter-map form, whatever the third
   * argument, and on `t(key)`.
   */
  lemma AgreesWithParamsForm(bundle: Value, key: string, params: map<string, string>,
                             third: Option<map<string, string>>)
    ensures T(bundle, key, params) == I18nUtils.T(bundle, key, I18nUtils.Params(params), third)
    ensures T(bundle, key) == I18nUtils.Translate(bundle, key)
  {
  }

  /**
   * Where the versions part: on a miss the older one returns the key even
   * when the newer one would return the fallback text it was given.
   */
  lemma MissIgnoresFallback(bundle: Value, key: string, text: string, params: map<string, string>)
    requires GetNestedValue(bundle, key).None?
    requires Interpolate(text, params) != key
    ensures T(bundle, key, params) == Str(key)
    ensures I18nUtils.T(bundle, key, I18nUtils.Fallback(text), Some(params)) != T(bundle, key, params)
  {
  }
}
