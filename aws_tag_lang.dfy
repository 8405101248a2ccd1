/**
 * The `<lang>` renderer of the Amazon Polly SSML subset (section 3.1.4 of
 * the W3C SSML 1.1 Recommendation): speaks a value in one of the languages
 * Polly supports, and rejects every other language code.
 */
module AwsTagLang {
  import opened Basics

  const TagLang: string := "lang"

  /** The language codes Polly accepts, as the source lists them. */
  const AllowedLanguages: seq<string> := [
    "arb", "cmn-CN", "cy-GB", "da-DK", "de-DE", "en-AU", "en-GB", "en-GB-WLS",
    "en-IN", "en-US", "es-ES", "es-MX", "es-US", "fr-CA", "fr-FR", "is-IS",
    "it-IT", "ja-JP", "hi-IN", "ko-KR", "nb-NO", "nl-NL", "pl-PL", "pt-BR",
    "pt-PT", "ro-RO", "ru-RU", "sv-SE", "tr-TR"
  ]

  /** The only way this renderer fails. */
  datatype LangError = UnsupportedLanguage

  const LangOpen: string := "<lang xml:lang=\""
  const LangMiddle: string := "\">"
  const LangClose: string := "</lang>"

  /**
   * `<lang xml:lang="langCode">value</lang>` when `langCode` is on the
   * allow-list, and the unsupported-language error otherwise.
   */
  function Render(value: string, langCode: string): (r: Result<string, LangError>)
    ensures r.Err? <==> langCode !in AllowedLanguages
    ensures r.Ok? ==> r.value == LangOpen + langCode + LangMiddle + value + LangClose
  {
    if langCode !in AllowedLanguages then Err(UnsupportedLanguage)
    else Ok(LangOpen + langCode + LangMiddle + value + LangClose)
  }

  /** The value is carried verbatim at a fixed offset, so distinct values give distinct elements. */
  lemma RenderInjective(langCode: string, v1: string, v2: string)
    requires langCode in AllowedLanguages
    requires Render(v1, langCode) == Render(v2, langCode)
    ensures v1 == v2
  {
    var r1 := Render(v1, langCode).value;
    var r2 := Render(v2, langCode).value;
    assert r1[18 + |langCode|..18 + |langCode| + |v1|] == v1;
    assert r2[18 + |langCode|..18 + |langCode| + |v2|] == v2;
  }

  /** The empty code, which is what a `lang` tag without a code becomes, is always rejected. */
  lemma EmptyCodeRejected(value: string)
    ensures Render(value, "") == Err(UnsupportedLanguage)
  {
  }

  /**
   * No allowed code contains a digit. PHP's loose `in_array` compares two
   * strings numerically only when both are numeric, and a numeric string
   * has a digit, so here the membership test is exact string equality,
   * which is how `Render` is written.
   */
  lemma NoAllowedCodeHasDigit()
    ensures forall i, k :: 0 <= i < |AllowedLanguages| && 0 <= k < |AllowedLanguages[i]| ==>
      !('0' <= AllowedLanguages[i][k] <= '9')
  {
  }
}
