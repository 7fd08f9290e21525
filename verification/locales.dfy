/**
  Locale resolution for a post URL: the first configured locale whose
  normalised prefix starts the URL gives the post's language, and the URL
  without that language is obtained by cutting out the first occurrence of
  `'/' + lang`. The prefix test is a raw string prefix (`/fr` matches
  `/fresh/...`) and the cut is not anchored at the start of the URL; both
  are modelled as the loader performs them.
 */
module Locales {
  import opened Wrappers
  import opened Strings

  /** A configured locale; only its optional `lang` code is consulted. The
      configuration is an ordered sequence, in the order `Object.values`
      yields the locale map's entries (integer-like keys first, ascending,
      then the other keys in insertion order). */
  datatype Locale = Locale(lang: Option<string>)

  const DefaultLang: string := "en"

  /** `lang || 'en'`: an absent or empty code falls back to the default. */
  function LangOrDefault(lang: Option<string>): (code: string)
    ensures code != ""
    ensures lang.Some? && lang.value != "" ==> code == lang.value
    ensures code == DefaultLang <==> lang.None? || lang.value == "" || lang.value == DefaultLang
  {
    if lang.Some? && lang.value != "" then lang.value else DefaultLang
  }

  /** The URL prefix a locale claims: its code with a leading `/` added
      unless the code already has one. */
  function NormalizedPrefix(locale: Locale): (prefix: string)
    ensures StartsWith(prefix, "/")
    ensures StartsWith(LangOrDefault(locale.lang), "/") ==> prefix == LangOrDefault(locale.lang)
    ensures !StartsWith(LangOrDefault(locale.lang), "/") ==> prefix == "/" + LangOrDefault(locale.lang)
  {
    var code := LangOrDefault(locale.lang);
    if StartsWith(code, "/") then code else "/" + code
  }

  /** Normalisation is idempotent: a locale whose code is already a
      normalised prefix claims exactly that prefix. */
  lemma NormalizedPrefixIdempotent(locale: Locale)
    ensures NormalizedPrefix(Locale(Some(NormalizedPrefix(locale)))) == NormalizedPrefix(locale)
  {
  }

  predicate Matches(locale: Locale, url: string)
  {
    StartsWith(url, NormalizedPrefix(locale))
  }

  /** Locale `i` is the one `Array.prototype.find` returns: it matches and no
      earlier locale does. */
  predicate IsFirstMatch(locales: seq<Locale>, url: string, i: int)
  {
    0 <= i < |locales| && Matches(locales[i], url) &&
    forall j :: 0 <= j < i ==> !Matches(locales[j], url)
  }

  predicate NoMatch(locales: seq<Locale>, url: string)
  {
    forall j :: 0 <= j < |locales| ==> !Matches(locales[j], url)
  }

  /** The first locale at or after `from` that matches `url`. */
  function FindLocaleFrom(locales: seq<Locale>, url: string, from: nat): (r: Option<nat>)
    requires from <= |locales|
    decreases |locales| - from
    ensures r.Some? ==> from <= r.value < |locales| && Matches(locales[r.value], url)
    ensures r.Some? ==> forall j :: from <= j < r.value ==> !Matches(locales[j], url)
    ensures r.None? ==> forall j :: from <= j < |locales| ==> !Matches(locales[j], url)
  {
    if from == |locales| then None
    else if Matches(locales[from], url) then Some(from)
    else FindLocaleFrom(locales, url, from + 1)
  }

  /** The index of the locale `find` picks for `url`, or `None` for `undefined`. */
  function FindLocale(locales: seq<Locale>, url: string): (r: Option<nat>)
    ensures r.Some? ==> IsFirstMatch(locales, url, r.value)
    ensures r.None? <==> NoMatch(locales, url)
  {
    FindLocaleFrom(locales, url, 0)
  }

  /** `foundLanguage?.lang || 'en'`: the post's language. */
  function ResolveLang(locales: seq<Locale>, url: string): (lang: string)
    ensures lang != ""
    ensures forall i :: IsFirstMatch(locales, url, i) ==> lang == LangOrDefault(locales[i].lang)
    ensures NoMatch(locales, url) ==> lang == DefaultLang
  {
    match FindLocale(locales, url)
    case None => LangOrDefault(None)
    case Some(i) =>
      assert forall k :: IsFirstMatch(locales, url, k) ==> k == i;
      LangOrDefault(locales[i].lang)
  }

  /** The language is either the default or the code of the locale that
      matched first. */
  lemma ResolveLangIsMatchedOrDefault(locales: seq<Locale>, url: string)
    ensures var lang := ResolveLang(locales, url);
      lang == DefaultLang ||
      exists i :: IsFirstMatch(locales, url, i) && locales[i].lang == Some(lang)
  {
    match FindLocale(locales, url)
    case None =>
    case Some(i) =>
      assert IsFirstMatch(locales, url, i);
  }

  /** `url.replace('/' + lang, '')`: the URL with the first occurrence of
      `'/' + lang` cut out, wherever it occurs. */
  function UrlWithoutLang(locales: seq<Locale>, url: string): (rest: string)
    ensures var pat := "/" + ResolveLang(locales, url);
      && (!Contains(url, pat) ==> rest == url)
      && (forall i :: IsFirstOccurrence(url, pat, i) ==> rest == url[..i] + url[i + |pat|..])
  {
    RemoveFirst(url, "/" + ResolveLang(locales, url))
  }

  /** When the first matching locale's code has no leading `/`, the claimed
      prefix is `'/' + lang` itself, so it is exactly the start of the URL
      that is cut off. */
  lemma MatchedPrefixIsStripped(locales: seq<Locale>, url: string, i: nat)
    requires IsFirstMatch(locales, url, i)
    requires !StartsWith(LangOrDefault(locales[i].lang), "/")
    ensures "/" + ResolveLang(locales, url) + UrlWithoutLang(locales, url) == url
    ensures UrlWithoutLang(locales, url) == url[|ResolveLang(locales, url)| + 1..]
  {
    var lang := ResolveLang(locales, url);
    assert NormalizedPrefix(locales[i]) == "/" + lang;
    RemoveFirstOfPrefix(url, "/" + lang);
  }

  /** Without a matching locale the language is `en`, and `/en` is still cut
      out of the URL wherever it first occurs. */
  lemma UnmatchedUrlLosesFirstEn(locales: seq<Locale>, url: string)
    requires NoMatch(locales, url)
    ensures ResolveLang(locales, url) == "en"
    ensures UrlWithoutLang(locales, url) == RemoveFirst(url, "/en")
  {
    assert ResolveLang(locales, url) == "en";
    assert "/" + "en" == "/en";
  }
}
