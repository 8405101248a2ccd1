/**
 * The generic `<say-as>` renderer of the Amazon Polly SSML subset
 * (section 3.1.9 of the W3C SSML 1.1 Recommendation): the five
 * `interpret-as` values the assembler supports and the element that wraps
 * a value in one of them.
 */
module AwsTagGeneric {

  const TagOrdinal: string := "ordinal"
  const TagCharacters: string := "characters"
  const TagSpellOut: string := "spell-out"
  const TagDigits: string := "digits"
  const TagFractions: string := "fraction"

  /** The five tag names, in the order they are declared. */
  const TagNames: seq<string> := [TagOrdinal, TagCharacters, TagSpellOut, TagDigits, TagFractions]

  const SayAsOpen: string := "<say-as interpret-as=\""
  const SayAsMiddle: string := "\">"
  const SayAsClose: string := "</say-as>"

  /** `<say-as interpret-as="tagType">value</say-as>`; both arguments are inserted verbatim, without escaping. */
  function Render(tagType: string, value: string): (r: string)
  {
    SayAsOpen + tagType + SayAsMiddle + value + SayAsClose
  }

  /**
   * The rendered element starts with the opening text, carries `tagType`
   * and then `value` unchanged at fixed offsets, and ends with the closing
   * tag; its length is exactly theirs plus the markup around them.
   */
  lemma RenderLayout(tagType: string, value: string)
    ensures var r := Render(tagType, value);
      && |r| == |tagType| + |value| + 33
      && r[..22] == SayAsOpen
      && r[22..22 + |tagType|] == tagType
      && r[22 + |tagType|..24 + |tagType|] == SayAsMiddle
      && r[24 + |tagType|..24 + |tagType| + |value|] == value
      && r[|r| - 9..] == SayAsClose
  {
  }

  /** For a fixed tag type, distinct values render to distinct elements. */
  lemma RenderInjective(tagType: string, v1: string, v2: string)
    requires Render(tagType, v1) == Render(tagType, v2)
    ensures v1 == v2
  {
    RenderLayout(tagType, v1);
    RenderLayout(tagType, v2);
  }

  /** The five tag names are pairwise distinct, so each one renders under its own name. */
  lemma TagNamesDistinct()
    ensures forall i, j :: 0 <= i < j < |TagNames| ==> TagNames[i] != TagNames[j]
  {
  }
}
