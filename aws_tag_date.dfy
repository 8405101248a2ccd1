/**
 * The date renderer: reads a date out of a value and speaks the parts a
 * format string asks for, each day, month and year number as an ordinal
 * `<say-as>` element (section 3.1.9 of the W3C SSML 1.1 Recommendation)
 * and each weekday or month name as the locale's plain word.
 *
 * Parsing the value and naming weekdays and months belong to PHP's date
 * and ICU libraries; a `Calendar` stands for them.
 */
module AwsTagDate {
  import opened Basics
  import PhpStrings

  const TagDate: string := "date"

  /** The format the assembler uses when a `date` tag names none. */
  const DefaultDateFormat: string := "dFY"

  /** Supported format characters and the PHP or ICU pattern each one is rendered with. */
  const FormatMapping: map<char, string> := map[
    'd' := "j",
    'D' := "EEEE",
    'm' := "n",
    'M' := "MMMM",
    'y' := "Y"
  ]

  /** The language codes Polly accepts, as the source lists them for dates. */
  const AllowedLanguages: seq<string> := [
    "arb", "cmn-CN", "cy-GB", "da-DK", "de-DE", "en-AU", "en-GB", "en-GB-WLS",
    "en-IN", "en-US", "es-ES", "es-MX", "es-US", "fr-CA", "fr-FR", "is-IS",
    "it-IT", "ja-JP", "hi-IN", "ko-KR", "nb-NO", "nl-NL", "pl-PL", "pt-BR",
    "pt-PT", "ro-RO", "ru-RU", "sv-SE", "tr-TR"
  ]

  /** A calendar date as PHP's `DateTime` holds it (the time of day plays no part here). */
  datatype Date = Date(day: nat, month: nat, year: nat)

  /**
   * The date and locale libraries: `parse` is `new DateTime($value)`
   * (`None` when it throws), `weekdayName` and `monthName` are what an
   * `IntlDateFormatter` for the language prints for the patterns `EEEE`
   * and `MMMM`.
   */
  datatype Calendar = Calendar(
    parse: string -> Option<Date>,
    weekdayName: (string, Date) -> string,
    monthName: (string, Date) -> string)

  datatype DateError = InvalidDate | UnsupportedLanguage | UnsupportedDateFormat

  const OrdinalOpen: string := "<say-as interpret-as=\"ordinal\">"
  const SayAsClose: string := "</say-as>"

  /** `DateTime::format` for the three PHP patterns the mapping uses: day and month unpadded, the year with four digits. */
  function PhpFormat(pattern: string, date: Date): string
    requires pattern in {"j", "n", "Y"}
  {
    if pattern == "j" then PhpStrings.NatToString(date.day)
    else if pattern == "n" then PhpStrings.NatToString(date.month)
    else PhpStrings.YearToString(date.year)
  }

  /** `IntlDateFormatter::format` for the two ICU patterns the mapping uses. */
  function IntlFormat(pattern: string, langCode: string, date: Date, cal: Calendar): string
    requires pattern in {"EEEE", "MMMM"}
  {
    if pattern == "EEEE" then cal.weekdayName(langCode, date) else cal.monthName(langCode, date)
  }

  /** The spoken form of one supported format character. */
  function DatePart(c: char, langCode: string, date: Date, cal: Calendar): string
    requires c in FormatMapping
  {
    if c in "dmy" then OrdinalOpen + PhpFormat(FormatMapping[c], date) + SayAsClose
    else IntlFormat(FormatMapping[c], langCode, date, cal)
  }

  /** Every character of `format` is one the mapping supports. */
  predicate Supported(format: string)
  {
    forall i :: 0 <= i < |format| ==> format[i] in FormatMapping
  }

  /** The parts of a format made of supported characters, one per character, in format order. */
  function DateParts(format: string, langCode: string, date: Date, cal: Calendar): seq<string>
    requires Supported(format)
  {
    if format == [] then []
    else DateParts(format[..|format| - 1], langCode, date, cal) + [DatePart(format[|format| - 1], langCode, date, cal)]
  }

  /** `DateParts` has one part per format character, the `i`-th spoken from the `i`-th character. */
  lemma {:induction false} DatePartsShape(format: string, langCode: string, date: Date, cal: Calendar)
    requires Supported(format)
    ensures |DateParts(format, langCode, date, cal)| == |format|
    ensures forall i :: 0 <= i < |format| ==> DateParts(format, langCode, date, cal)[i] == DatePart(format[i], langCode, date, cal)
    decreases |format|
  {
    if format != [] {
      var init := format[..|format| - 1];
      DatePartsShape(init, langCode, date, cal);
      var parts := DateParts(init, langCode, date, cal) + [DatePart(format[|format| - 1], langCode, date, cal)];
      assert DateParts(format, langCode, date, cal) == parts;
      forall i | 0 <= i < |format|
        ensures parts[i] == DatePart(format[i], langCode, date, cal)
      {
        if i < |init| {
          assert init[i] == format[i];
        }
      }
    }
  }

  /**
   * What rendering a value with a language and a format yields: the value
   * must parse as a date, then the language must be allowed, then every
   * format character must be supported; the parts are joined by single
   * spaces.
   */
  function RenderedDate(value: string, langCode: string, format: string, cal: Calendar): Result<string, DateError>
  {
    match cal.parse(value)
    case None => Err(InvalidDate)
    case Some(date) =>
      if langCode !in AllowedLanguages then Err(UnsupportedLanguage)
      else if !Supported(format) then Err(UnsupportedDateFormat)
      else Ok(PhpStrings.Implode(" ", DateParts(format, langCode, date, cal)))
  }

  /**
   * Renders `value`: parses it, checks the language, then walks the format
   * one character at a time, giving up at the first unsupported one, and
   * joins the collected parts with spaces.
   */
  method Render(value: string, langCode: string, dateFormat: string, cal: Calendar) returns (r: Result<string, DateError>)
    ensures r == RenderedDate(value, langCode, dateFormat, cal)
  {
    var parsed := cal.parse(value);
    if parsed.None? {
      return Err(InvalidDate);
    }
    var date := parsed.value;
    if langCode !in AllowedLanguages {
      return Err(UnsupportedLanguage);
    }
    var resultDateParts: seq<string> := [];
    var i := 0;
    while i < |dateFormat|
      invariant 0 <= i <= |dateFormat|
      invariant Supported(dateFormat[..i])
      invariant resultDateParts == DateParts(dateFormat[..i], langCode, date, cal)
    {
      var formatElement := dateFormat[i];
      if formatElement !in FormatMapping {
        return Err(UnsupportedDateFormat);
      }
      DatePartsStep(dateFormat, i, langCode, date, cal);
      var part;
      if formatElement == 'd' || formatElement == 'm' || formatElement == 'y' {
        part := OrdinalOpen + PhpFormat(FormatMapping[formatElement], date) + SayAsClose;
        assert formatElement in "dmy";
      } else {
        part := IntlFormat(FormatMapping[formatElement], langCode, date, cal);
        assert formatElement !in "dmy";
      }
      assert part == DatePart(formatElement, langCode, date, cal);
      resultDateParts := resultDateParts + [part];
      i := i + 1;
    }
    assert dateFormat[..i] == dateFormat;
    return Ok(PhpStrings.Implode(" ", resultDateParts));
  }

  /** Extending a supported prefix by one supported character adds that character's part at the end. */
  lemma DatePartsStep(format: string, i: nat, langCode: string, date: Date, cal: Calendar)
    requires i < |format| && Supported(format[..i]) && format[i] in FormatMapping
    ensures Supported(format[..i + 1])
    ensures DateParts(format[..i + 1], langCode, date, cal) == DateParts(format[..i], langCode, date, cal) + [DatePart(format[i], langCode, date, cal)]
  {
    assert format[..i + 1][..i] == format[..i];
    assert format[..i + 1][i] == format[i];
  }

  /** A value that is not a date fails before anything else is looked at. */
  lemma InvalidDateFirst(value: string, langCode: string, format: string, cal: Calendar)
    requires cal.parse(value).None?
    ensures RenderedDate(value, langCode, format, cal) == Err(InvalidDate)
  {
  }

  /** Once the value is a date, a language outside the allow-list is rejected whatever the format. */
  lemma UnsupportedLanguageRejected(value: string, langCode: string, format: string, cal: Calendar)
    requires cal.parse(value).Some? && langCode !in AllowedLanguages
    ensures RenderedDate(value, langCode, format, cal) == Err(UnsupportedLanguage)
  {
  }

  /** Any unsupported format character makes the whole render fail: no partial result is returned. */
  lemma UnsupportedFormatRejected(value: string, langCode: string, format: string, cal: Calendar, k: nat)
    requires cal.parse(value).Some? && langCode in AllowedLanguages
    requires k < |format| && format[k] !in FormatMapping
    ensures RenderedDate(value, langCode, format, cal) == Err(UnsupportedDateFormat)
  {
  }

  /**
   * A successful render consists of exactly one part per format character,
   * in format order, joined by single spaces.
   */
  lemma SuccessShape(value: string, langCode: string, format: string, cal: Calendar)
    requires RenderedDate(value, langCode, format, cal).Ok?
    ensures cal.parse(value).Some? && langCode in AllowedLanguages
    ensures forall i :: 0 <= i < |format| ==> format[i] in FormatMapping
    ensures exists parts: seq<string> ::
      && |parts| == |format|
      && (forall i :: 0 <= i < |format| ==> parts[i] == DatePart(format[i], langCode, cal.parse(value).value, cal))
      && RenderedDate(value, langCode, format, cal).value == PhpStrings.Implode(" ", parts)
  {
    var parts := DateParts(format, langCode, cal.parse(value).value, cal);
    DatePartsShape(format, langCode, cal.parse(value).value, cal);
    assert RenderedDate(value, langCode, format, cal).value == PhpStrings.Implode(" ", parts);
  }

  /**
   * `d`, `m` and `y` speak the unpadded day, the unpadded month number and
   * the four-digit year as ordinals; `D` and `M` are the bare weekday and
   * month names of the language.
   */
  lemma PartMeaning(langCode: string, date: Date, cal: Calendar)
    ensures DatePart('d', langCode, date, cal) == OrdinalOpen + PhpStrings.NatToString(date.day) + SayAsClose
    ensures DatePart('m', langCode, date, cal) == OrdinalOpen + PhpStrings.NatToString(date.month) + SayAsClose
    ensures DatePart('y', langCode, date, cal) == OrdinalOpen + PhpStrings.YearToString(date.year) + SayAsClose
    ensures DatePart('D', langCode, date, cal) == cal.weekdayName(langCode, date)
    ensures DatePart('M', langCode, date, cal) == cal.monthName(langCode, date)
  {
  }

  /** The default format holds `F` and `Y`, which are not supported, so rendering with it can never succeed. */
  lemma DefaultFormatAlwaysFails(value: string, langCode: string, cal: Calendar)
    ensures RenderedDate(value, langCode, DefaultDateFormat, cal).Err?
  {
    assert DefaultDateFormat[1] == 'F' && 'F' !in FormatMapping;
  }

  /** The parts of the format `DdMy` (spelt out character by character): weekday name, ordinal day, month name, ordinal year. */
  lemma WeekdayDayMonthYearParts(langCode: string, format: string, date: Date, cal: Calendar)
    requires |format| == 4 && format[0] == 'D' && format[1] == 'd' && format[2] == 'M' && format[3] == 'y'
    ensures Supported(format)
    ensures DateParts(format, langCode, date, cal) == [
      cal.weekdayName(langCode, date),
      OrdinalOpen + PhpStrings.NatToString(date.day) + SayAsClose,
      cal.monthName(langCode, date),
      OrdinalOpen + PhpStrings.YearToString(date.year) + SayAsClose]
  {
    assert Supported(format);
    var parts := DateParts(format, langCode, date, cal);
    DatePartsShape(format, langCode, date, cal);
    PartMeaning(langCode, date, cal);
    assert parts == [parts[0], parts[1], parts[2], parts[3]];
  }

  /**
   * The format `DdMy` speaks the weekday, the ordinal day, the month name
   * and the ordinal year, in that order, separated by single spaces.
   */
  lemma WeekdayDayMonthYear(value: string, langCode: string, format: string, date: Date, cal: Calendar)
    requires |format| == 4 && format[0] == 'D' && format[1] == 'd' && format[2] == 'M' && format[3] == 'y'
    requires cal.parse(value) == Some(date) && langCode in AllowedLanguages
    ensures RenderedDate(value, langCode, format, cal) == Ok(
      cal.weekdayName(langCode, date) + " "
      + (OrdinalOpen + PhpStrings.NatToString(date.day) + SayAsClose) + " "
      + cal.monthName(langCode, date) + " "
      + (OrdinalOpen + PhpStrings.YearToString(date.year) + SayAsClose))
  {
    WeekdayDayMonthYearParts(langCode, format, date, cal);
    var w := cal.weekdayName(langCode, date);
    var d := OrdinalOpen + PhpStrings.NatToString(date.day) + SayAsClose;
    var m := cal.monthName(langCode, date);
    var y := OrdinalOpen + PhpStrings.YearToString(date.year) + SayAsClose;
    PhpStrings.ImplodeFour(" ", w, d, m, y);
  }
}
