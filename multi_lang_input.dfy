/** src/components/common/MultiLangInput.jsx: the three-locale input's
    value handling (one text field per locale). */
module MultiLangInput {
  import opened MultiLang

  /** The `value` prop when none is passed: every locale empty. */
  const DefaultValue := Localized("", "", "")

  /** `value[lang.code] || ''`: what the field of `lang` shows. A plain
      string or a missing value has no locale keys, so every field is
      empty. */
  function Displayed(v: LocalizedText, lang: Locale): (s: string)
    ensures v.Localized? ==> s == At(v, lang)
    ensures !v.Localized? ==> s == ""
  {
    if v.Localized? then At(v, lang) else ""
  }

  /** `handleChange(lang, newValue)`: `{...value, [lang]: newValue}`. The
      spread of a three-locale object keeps its other locales; a plain
      string or a missing value contributes no locale key, so the other
      locales read as empty. */
  function HandleChange(v: LocalizedText, lang: Locale, s: string): LocalizedText {
    var base := if v.Localized? then v else Localized("", "", "");
    match lang
    case Ar => base.(ar := s)
    case En => base.(en := s)
    case Ku => base.(ku := s)
  }

  /** The edited field shows the new text and the other two show what they
      showed before; the result is always a three-locale object. */
  lemma HandleChangeMeaning(v: LocalizedText, lang: Locale, s: string)
    ensures HandleChange(v, lang, s).Localized?
    ensures Displayed(HandleChange(v, lang, s), lang) == s
    ensures forall other :: other != lang ==>
              Displayed(HandleChange(v, lang, s), other) == Displayed(v, other)
  {
  }

  /** Typing a non-empty text makes the value count as filled; re-entering
      what a field shows changes nothing. */
  lemma HandleChangeFills(v: LocalizedText, lang: Locale, s: string)
    ensures s != "" ==> HasAnyLanguage(HandleChange(v, lang, s))
    ensures v.Localized? ==> HandleChange(v, lang, Displayed(v, lang)) == v
  {
    if s != "" {
      assert At(HandleChange(v, lang, s), lang) == s;
      HasAnyLanguageIff(HandleChange(v, lang, s));
    }
  }

  /** The default value is the empty three-locale text: all fields blank,
      nothing filled. */
  lemma DefaultValueIsBlank()
    ensures DefaultValue == InitMultiLangText()
    ensures forall l :: Displayed(DefaultValue, l) == ""
    ensures !HasAnyLanguage(DefaultValue)
  {
  }
}
