/** The three-locale text value of src/utils/multiLang.js.

    A stored text is either the legacy plain string, an object with the
    three locale strings (a missing key reads as ""), or no object at all
    (`null`, `undefined`, a number, ...). */
module MultiLang {

  datatype Locale = Ar | En | Ku

  datatype LocalizedText =
    | Plain(s: string)
    | Localized(ar: string, en: string, ku: string)
    | Absent

  /** `textObj[lang]` of a three-locale object. */
  function At(t: LocalizedText, lang: Locale): string
    requires t.Localized?
  {
    match lang
    case Ar => t.ar
    case En => t.en
    case Ku => t.ku
  }

  /** The loop over `['ar', 'ku']`: the first of `langs` with a non-empty string. */
  function FirstFilled(t: LocalizedText, langs: seq<Locale>): string
    requires t.Localized?
  {
    if langs == [] then ""
    else if At(t, langs[0]) != "" then At(t, langs[0])
    else FirstFilled(t, langs[1..])
  }

  /** `getLocalizedText(textObj, currentLang)`. */
  function GetLocalizedText(t: LocalizedText, lang: Locale): (r: string)
  {
    match t
    case Plain(s) => s
    case Absent => ""
    case Localized(_, en, _) =>
      if At(t, lang) != "" then At(t, lang)
      else if en != "" then en
      else FirstFilled(t, [Ar, Ku])
  }

  /** `initMultiLangText()`. */
  function InitMultiLangText(): (t: LocalizedText)
    ensures t.Localized? && forall l :: At(t, l) == ""
  {
    Localized("", "", "")
  }

  /** `isMultiLangComplete(textObj)`. */
  predicate IsMultiLangComplete(t: LocalizedText) {
    t.Localized? && t.ar != "" && t.en != "" && t.ku != ""
  }

  /** `hasAnyLanguage(textObj)`. */
  predicate HasAnyLanguage(t: LocalizedText) {
    t.Localized? && (t.ar != "" || t.en != "" || t.ku != "")
  }

  // ---------------------------------------------------------------------
  // Properties of the fallback rule

  lemma PlainIgnoresLocale(s: string, lang: Locale)
    ensures GetLocalizedText(Plain(s), lang) == s
  {
  }

  lemma RequestedWins(t: LocalizedText, lang: Locale)
    requires t.Localized? && At(t, lang) != ""
    ensures GetLocalizedText(t, lang) == At(t, lang)
  {
  }

  /** When the requested locale is empty the order is en, ar, ku, then "". */
  lemma FallbackOrder(t: LocalizedText, lang: Locale)
    requires t.Localized? && At(t, lang) == ""
    ensures GetLocalizedText(t, lang)
         == if t.en != "" then t.en
            else if t.ar != "" then t.ar
            else if t.ku != "" then t.ku
            else ""
  {
    assert FirstFilled(t, [Ku]) == if t.ku != "" then t.ku else "" by {
      assert [Ku][1..] == [];
    }
    assert [Ar, Ku][1..] == [Ku];
  }

  /** The result is one of the stored strings or "". */
  lemma ResultIsStored(t: LocalizedText, lang: Locale)
    ensures var r := GetLocalizedText(t, lang);
      r == "" || (t.Plain? && r == t.s) || (t.Localized? && (r == t.ar || r == t.en || r == t.ku))
  {
    if t.Localized? && At(t, lang) == "" {
      FallbackOrder(t, lang);
    }
  }

  /** For a three-locale value, some locale resolves to a non-empty string
      exactly when some locale is filled, and then every locale does. */
  lemma {:induction false} NonEmptyIffAnyLanguage(t: LocalizedText)
    requires t.Localized?
    ensures HasAnyLanguage(t) <==> forall l :: GetLocalizedText(t, l) != ""
    ensures !HasAnyLanguage(t) ==> forall l :: GetLocalizedText(t, l) == ""
  {
    forall l ensures HasAnyLanguage(t) <==> GetLocalizedText(t, l) != "" {
      if At(t, l) == "" {
        FallbackOrder(t, l);
      }
    }
    assert (forall l :: GetLocalizedText(t, l) != "") ==> GetLocalizedText(t, En) != "";
  }

  lemma AnyLanguageResolvesNonEmpty(t: LocalizedText, lang: Locale)
    requires HasAnyLanguage(t)
    ensures GetLocalizedText(t, lang) != ""
  {
    NonEmptyIffAnyLanguage(t);
  }

  /** `hasAnyLanguage` holds only of filled three-locale objects. */
  lemma HasAnyLanguageIff(t: LocalizedText)
    ensures HasAnyLanguage(t) <==> t.Localized? && exists l :: At(t, l) != ""
  {
    if t.Localized? && t.ar != "" { assert At(t, Ar) != ""; }
    if t.Localized? && t.en != "" { assert At(t, En) != ""; }
    if t.Localized? && t.ku != "" { assert At(t, Ku) != ""; }
  }

  lemma CompleteHasAny(t: LocalizedText)
    requires IsMultiLangComplete(t)
    ensures HasAnyLanguage(t)
  {
  }

  lemma InitIsEmpty()
    ensures !HasAnyLanguage(InitMultiLangText())
    ensures !IsMultiLangComplete(InitMultiLangText())
    ensures forall l :: GetLocalizedText(InitMultiLangText(), l) == ""
  {
    NonEmptyIffAnyLanguage(InitMultiLangText());
  }
}
