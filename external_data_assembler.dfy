/**
 * The text-to-speech external data assembler. An announcement text holds
 * markers such as `[API:order:1:date|date:pl-PL:dMy]`: the part before
 * the first `|` is a `:`-separated path into data returned by an external
 * API, the optional part after it names an SSML tag (with `:`-separated
 * arguments) to wrap the found value in.
 *
 * `FindValue` resolves the path, `DecorateValueWithDedicatedTag` applies
 * the tag; each is specified by a function (`FoundValue`, `Decorated`)
 * about which the properties below are proved.
 */
module ExternalDataAssembler {
  import opened Basics
  import PhpStrings
  import AwsTagGeneric
  import AwsTagLang
  import AwsTagDate

  const MarkerKeyFromTagFormatSeparator: char := '|'
  const MarkerPartsSeparator: char := ':'

  /**
   * A value of the decoded API data. PHP arrays are `List` when their keys
   * are 0, 1, 2, ... in order, and `Dict` otherwise, keyed by the keys as
   * PHP prints them (an integer key 7 is the string "7"). Floats are not
   * part of this model.
   */
  datatype Data =
    | Null
    | Bool(b: bool)
    | Int(i: int)
    | Str(s: string)
    | List(items: seq<Data>)
    | Dict(entries: map<string, Data>)

  datatype AssemblerError =
    | ValueNotFound          // the value-not-found exception
    | InvalidValueType       // the found value is an array or a boolean
    | MultipleTagTypes       // more than one `|` tag segment
    | UnsupportedTagType     // a tag name no renderer handles
    | UnsupportedLanguage    // from the lang or the date renderer
    | UnsupportedDateFormat  // from the date renderer
    | InvalidDate            // `new DateTime($value)` threw

  /** `stripMarkerFromBrackets`: drop every leading `[`, then every trailing `]`. */
  function StripMarkerFromBrackets(marker: string): string
  {
    PhpStrings.RTrim(PhpStrings.LTrim(marker, '['), ']')
  }

  /**
   * Stripping removes a run of `[` at the front and a run of `]` at the
   * back and nothing else, and leaves no bracket of either kind at the
   * respective end.
   */
  lemma StripRemovesOnlyBrackets(marker: string)
    ensures var r := StripMarkerFromBrackets(marker);
      exists i, j :: 0 <= i <= j <= |marker|
        && marker[i..j] == r
        && (forall k :: 0 <= k < i ==> marker[k] == '[')
        && (forall k :: j <= k < |marker| ==> marker[k] == ']')
        && (r == [] || (r[0] != '[' && r[|r| - 1] != ']'))
  {
    BracketSlice(marker, PhpStrings.LTrim(marker, '['), StripMarkerFromBrackets(marker));
  }

  /**
   * What stripping keeps, stated over the facts `ltrim` and `rtrim`
   * guarantee: `l` is `marker` without a run of `[`, `r` is `l` without a
   * run of `]`.
   */
  lemma BracketSlice(marker: string, l: string, r: string)
    requires |l| <= |marker| && l == marker[|marker| - |l|..]
    requires forall k :: 0 <= k < |marker| - |l| ==> marker[k] == '['
    requires l == [] || l[0] != '['
    requires |r| <= |l| && r == l[..|r|]
    requires forall k :: |r| <= k < |l| ==> l[k] == ']'
    requires r == [] || r[|r| - 1] != ']'
    ensures exists i, j ::
      && 0 <= i <= j <= |marker|
      && marker[i..j] == r
      && (forall k :: 0 <= k < i ==> marker[k] == '[')
      && (forall k :: j <= k < |marker| ==> marker[k] == ']')
      && (r == [] || (r[0] != '[' && r[|r| - 1] != ']'))
  {
    var i := |marker| - |l|;
    PrefixOfSuffix(marker, l, r);
    ClosingRun(marker, l, |r|);
    if r != [] {
      assert r[0] == l[0];
    }
    assert marker[i..i + |r|] == r;
  }

  /** A prefix `r` of a suffix `l` of `marker` is the slice of `marker` where they overlap. */
  lemma PrefixOfSuffix(marker: string, l: string, r: string)
    requires |l| <= |marker| && l == marker[|marker| - |l|..]
    requires |r| <= |l| && r == l[..|r|]
    ensures marker[|marker| - |l|..|marker| - |l| + |r|] == r
  {
  }

  /** A run of `]` at the end of a suffix `l` of `marker` is a run of `]` at the end of `marker`. */
  lemma ClosingRun(marker: string, l: string, n: nat)
    requires |l| <= |marker| && l == marker[|marker| - |l|..]
    requires n <= |l| && forall k :: n <= k < |l| ==> l[k] == ']'
    ensures forall k :: |marker| - |l| + n <= k < |marker| ==> marker[k] == ']'
  {
    forall k | |marker| - |l| + n <= k < |marker|
      ensures marker[k] == ']'
    {
      assert marker[k] == l[k - (|marker| - |l|)];
    }
  }

  /** Stripping twice is stripping once. */
  lemma StripIdempotent(marker: string)
    ensures StripMarkerFromBrackets(StripMarkerFromBrackets(marker)) == StripMarkerFromBrackets(marker)
  {
    var l := PhpStrings.LTrim(marker, '[');
    var r := PhpStrings.RTrim(l, ']');
    if r != [] {
      assert r[0] == l[0];
    }
    PhpStrings.LTrimNoop(r, '[');
    PhpStrings.RTrimNoop(r, ']');
  }

  /** The path a marker names: the text before the first `|`, split on `:`. */
  function MarkerPath(marker: string): (path: seq<string>)
    ensures |path| >= 1
  {
    var markerKey := PhpStrings.Explode(MarkerKeyFromTagFormatSeparator, StripMarkerFromBrackets(marker))[0];
    PhpStrings.Explode(MarkerPartsSeparator, markerKey)
  }

  /**
   * `array_key_exists($key, $child)` followed by `$child[$key]`: a list
   * answers to the decimal form of a position, a dictionary to its keys,
   * and a scalar to nothing.
   */
  function Child(d: Data, key: string): (c: Option<Data>)
    ensures d.List? ==> (c.Some? <==> PhpStrings.IsIndexKey(key) && PhpStrings.DigitsValue(key) < |d.items|)
    ensures d.Dict? ==> (c.Some? <==> key in d.entries)
    ensures !d.List? && !d.Dict? ==> c.None?
  {
    match d
    case List(items) =>
      (match PhpStrings.IndexOfKey(key)
       case Some(n) => if n < |items| then Some(items[n]) else None
       case None => None)
    case Dict(entries) => if key in entries then Some(entries[key]) else None
    case _ => None
  }

  /** Position `n` of a list is found by the key `"n"`, and it is the `n`-th item (`"1"` is the second one). */
  lemma ListPosition(items: seq<Data>, n: nat)
    requires n < |items|
    ensures Child(List(items), PhpStrings.NatToString(n)) == Some(items[n])
  {
    PhpStrings.IndexKeyRoundTrip(n);
  }

  /** Descends one level per path part; `None` as soon as a part is missing. */
  function Lookup(d: Data, path: seq<string>): Option<Data>
    decreases |path|
  {
    if path == [] then Some(d)
    else
      match Child(d, path[0])
      case None => None
      case Some(c) => Lookup(c, path[1..])
  }

  /** Looking up a path in two stretches is looking it up at once. */
  lemma {:induction false} LookupAppend(d: Data, p: seq<string>, q: seq<string>)
    ensures Lookup(d, p + q) == match Lookup(d, p) case None => None case Some(c) => Lookup(c, q)
    decreases |p|
  {
    if p == [] {
      assert p + q == q;
    } else {
      assert (p + q)[0] == p[0] && (p + q)[1..] == p[1..] + q;
      match Child(d, p[0])
      case None =>
      case Some(c) => LookupAppend(c, p[1..], q);
    }
  }

  /** A key missing at any level makes the whole lookup fail. */
  lemma MissingKeyAtAnyLevel(d: Data, path: seq<string>, i: nat, c: Data)
    requires i < |path|
    requires Lookup(d, path[..i]) == Some(c) && Child(c, path[i]).None?
    ensures Lookup(d, path) == None
  {
    LookupAppend(d, path[..i], path[i..]);
    assert path[..i] + path[i..] == path;
  }

  /**
   * The validation and conversion at the end of `findValue`: arrays and
   * booleans are rejected; null and falsy values (0, "" and "0") give
   * null; any other string or integer gives its string form.
   */
  function Normalised(v: Data): (r: Result<Option<string>, AssemblerError>)
    ensures r.Err? <==> v.Bool? || v.List? || v.Dict?
    ensures r.Err? ==> r.error == InvalidValueType
    ensures r == Ok(None) <==> v.Null? || v == Int(0) || (v.Str? && PhpStrings.IsEmptyString(v.s))
    ensures r.Ok? && r.value.Some? ==>
      (v.Str? && r.value.value == v.s) || (v.Int? && v.i != 0 && r.value.value == PhpStrings.IntToString(v.i))
  {
    match v
    case Bool(_) => Err(InvalidValueType)
    case List(_) => Err(InvalidValueType)
    case Dict(_) => Err(InvalidValueType)
    case Null => Ok(None)
    case Int(i) => if i == 0 then Ok(None) else Ok(Some(PhpStrings.IntToString(i)))
    case Str(s) => if PhpStrings.IsEmptyString(s) then Ok(None) else Ok(Some(s))
  }

  /** What `findValue` returns for a marker over the external data. */
  function FoundValue(marker: string, externalData: Data): Result<Option<string>, AssemblerError>
  {
    match Lookup(externalData, MarkerPath(marker))
    case None => Err(ValueNotFound)
    case Some(v) => Normalised(v)
  }

  /**
   * `findValue`: strips the brackets, takes the path before the first `|`,
   * walks it one part at a time through the data, and validates and
   * converts what it finds.
   */
  method FindValue(marker: string, externalData: Data) returns (r: Result<Option<string>, AssemblerError>)
    requires externalData.List? || externalData.Dict?
    ensures r == FoundValue(marker, externalData)
  {
    var stripped := StripMarkerFromBrackets(marker);
    var markerKey := PhpStrings.Explode(MarkerKeyFromTagFormatSeparator, stripped)[0];
    var markerKeyParts := PhpStrings.Explode(MarkerPartsSeparator, markerKey);
    // The source raises an empty-key error when this list is empty; `Explode`
    // always yields at least one part, so that branch is left out.
    var found := Descend(externalData, markerKeyParts);
    if found.None? {
      return Err(ValueNotFound);
    }
    r := Normalised(found.value);
  }

  /** The walk down the data in `findValue`: one level per part, stopping at the first missing one. */
  method Descend(externalData: Data, markerKeyParts: seq<string>) returns (found: Option<Data>)
    ensures found == Lookup(externalData, markerKeyParts)
  {
    var child := externalData;
    var i := 0;
    while i < |markerKeyParts|
      invariant 0 <= i <= |markerKeyParts|
      invariant Lookup(externalData, markerKeyParts) == Lookup(child, markerKeyParts[i..])
    {
      var keyPart := markerKeyParts[i];
      LookupStep(child, markerKeyParts, i);
      var next := Child(child, keyPart);
      if next.None? {
        return None;
      }
      child := next.value;
      i := i + 1;
    }
    assert markerKeyParts[i..] == [];
    return Some(child);
  }

  /** One step of the walk: the rest of the path from position `i` is the child at `i`, then the path after it. */
  lemma LookupStep(d: Data, path: seq<string>, i: nat)
    requires i < |path|
    ensures Lookup(d, path[i..]) == match Child(d, path[i]) case None => None case Some(c) => Lookup(c, path[i + 1..])
  {
    assert path[i..][0] == path[i] && path[i..][1..] == path[i + 1..];
  }

  /** A leading `[` added to a string makes no difference once `[`s are trimmed. */
  lemma LTrimOpeningBracket(key: string)
    ensures PhpStrings.LTrim("[" + key, '[') == PhpStrings.LTrim(key, '[')
  {
    assert ("[" + key)[1..] == key;
  }

  /** `ltrim` of `[`, a key and a rest that does not start with `[`: the key loses its leading `[`s, the rest passes through. */
  lemma LTrimBracketedKey(key: string, rest: string)
    requires rest != [] && rest[0] != '['
    ensures PhpStrings.LTrim("[" + key + rest, '[') == PhpStrings.LTrim(key, '[') + rest
  {
    PhpStrings.LTrimAppend("[" + key, rest, '[');
    LTrimOpeningBracket(key);
  }

  /** `rtrim` of `]`s after a `|` reaches no further back than the `|`. */
  lemma RTrimAfterSeparator(k: string, t: string)
    ensures PhpStrings.RTrim(k + (['|'] + t), ']') == k + ['|'] + PhpStrings.RTrim(t, ']')
  {
    assert k + (['|'] + t) == (k + ['|']) + t;
    PhpStrings.RTrimAppend(k + ['|'], t, ']');
  }

  /** `[key|tag]` is `[` and the key, followed by the `|` and the rest. */
  lemma TaggedMarkerShape(key: string, tag: string)
    ensures "[" + key + "|" + tag + "]" == "[" + key + (['|'] + (tag + "]"))
  {
  }

  /** With a tag segment, stripping takes the `[`s off the key and the `]`s off the tag. */
  lemma StripTaggedMarker(key: string, tag: string)
    ensures StripMarkerFromBrackets("[" + key + "|" + tag + "]")
      == PhpStrings.LTrim(key, '[') + ['|'] + PhpStrings.RTrim(tag + "]", ']')
  {
    var rest := ['|'] + (tag + "]");
    TaggedMarkerShape(key, tag);
    LTrimBracketedKey(key, rest);
    RTrimAfterSeparator(PhpStrings.LTrim(key, '['), tag + "]");
  }

  /** With a tag segment, the key before the `|` keeps everything but its leading `[`s. */
  lemma KeyOfTaggedMarker(key: string, tag: string)
    requires MarkerKeyFromTagFormatSeparator !in key
    ensures PhpStrings.Explode(MarkerKeyFromTagFormatSeparator, StripMarkerFromBrackets("[" + key + "|" + tag + "]"))[0]
      == PhpStrings.LTrim(key, '[')
  {
    StripTaggedMarker(key, tag);
    PhpStrings.ExplodeFirstPiece('|', PhpStrings.LTrim(key, '['), PhpStrings.RTrim(tag + "]", ']'));
  }

  /** Without a tag segment, only the closing bracket is trimmed off the key. */
  lemma KeyOfBareMarker(key: string)
    requires MarkerKeyFromTagFormatSeparator !in key
    requires key == [] || key[|key| - 1] != ']'
    ensures PhpStrings.Explode(MarkerKeyFromTagFormatSeparator, StripMarkerFromBrackets("[" + key + "]"))[0]
      == PhpStrings.LTrim(key, '[')
  {
    var k := PhpStrings.LTrim(key, '[');
    LTrimBracketedKey(key, "]");
    if k != [] {
      assert k[|k| - 1] == key[|key| - 1];
    }
    RTrimClosingBracket(k);
    PhpStrings.LTrimKeepsAbsent(key, '[', '|');
    PhpStrings.ExplodeNoSeparator('|', k);
  }

  /**
   * Appending a tag segment to a marker never changes what it finds. The
   * key must not end in `]`, which stripping would otherwise take off the
   * tagless marker only.
   */
  lemma TagSegmentIgnored(key: string, tag: string, externalData: Data)
    requires MarkerKeyFromTagFormatSeparator !in key
    requires key == [] || key[|key| - 1] != ']'
    ensures FoundValue("[" + key + "|" + tag + "]", externalData) == FoundValue("[" + key + "]", externalData)
  {
    KeyOfTaggedMarker(key, tag);
    KeyOfBareMarker(key);
    assert MarkerPath("[" + key + "|" + tag + "]") == MarkerPath("[" + key + "]");
  }

  /** A key ending in one `]` keeps it when a tag segment follows. */
  lemma TaggedKeyKeepsBracket(k: string, tag: string)
    requires k != [] && k[0] != '[' && k[|k| - 1] != ']'
    requires MarkerKeyFromTagFormatSeparator !in k && MarkerPartsSeparator !in k
    ensures MarkerPath("[" + (k + "]") + "|" + tag + "]") == [k + "]"]
  {
    KeyOfTaggedMarker(k + "]", tag);
    PhpStrings.LTrimNoop(k + "]", '[');
    PhpStrings.ExplodeNoSeparator(MarkerPartsSeparator, k + "]");
  }

  /** The same key without a tag segment loses its `]` together with the closing bracket. */
  lemma BareKeyLosesBracket(k: string)
    requires k != [] && k[0] != '[' && k[|k| - 1] != ']'
    requires MarkerKeyFromTagFormatSeparator !in k && MarkerPartsSeparator !in k
    ensures MarkerPath("[" + (k + "]") + "]") == [k]
  {
    var m := "[" + k + "]]";
    assert "[" + (k + "]") + "]" == m;
    assert PhpStrings.LTrim(m, '[') == k + "]]" by {
      LTrimBracketedKey(k, "]]");
      PhpStrings.LTrimNoop(k, '[');
    }
    assert PhpStrings.RTrim(k + "]]", ']') == k by {
      PhpStrings.RTrimAppend(k, "]]", ']');
      TwoClosingBrackets();
    }
    assert StripMarkerFromBrackets(m) == k;
    PhpStrings.ExplodeNoSeparator(MarkerKeyFromTagFormatSeparator, k);
    PhpStrings.ExplodeNoSeparator(MarkerPartsSeparator, k);
  }

  /** `rtrim` takes both of two closing brackets. */
  lemma TwoClosingBrackets()
    ensures PhpStrings.RTrim("]]", ']') == []
  {
    assert "]]"[..1] == "]";
    assert "]"[..0] == [];
  }

  /**
   * Without the condition that the key not end in `]`, a tag segment does
   * change what is found: of `[k]|tag]` only the last `]` is trimmed, so
   * the key is `k]`, while `[k]]` loses both and names `k`.
   */
  lemma TagSegmentKeepsClosingBracket(k: string, tag: string, v: Data)
    requires k != [] && k[0] != '[' && k[|k| - 1] != ']'
    requires MarkerKeyFromTagFormatSeparator !in k && MarkerPartsSeparator !in k
    ensures FoundValue("[" + (k + "]") + "]", Dict(map[k := v])) == Normalised(v)
    ensures FoundValue("[" + (k + "]") + "|" + tag + "]", Dict(map[k := v])) == Err(ValueNotFound)
  {
    var d := Dict(map[k := v]);
    BareKeyLosesBracket(k);
    TaggedKeyKeepsBracket(k, tag);
    assert Lookup(d, [k]) == Some(v) by {
      assert [k][1..] == [];
    }
    assert Lookup(d, [k + "]"]) == None by {
      assert |k + "]"| != |k|;
    }
  }

  /** An empty marker names the empty key, which a list never has. */
  lemma EmptyMarkerNotFound(externalData: Data)
    requires externalData.List? || (externalData.Dict? && "" !in externalData.entries)
    ensures FoundValue("", externalData) == Err(ValueNotFound)
  {
    assert StripMarkerFromBrackets("") == "";
    PhpStrings.ExplodeNoSeparator('|', "");
    PhpStrings.ExplodeNoSeparator(':', "");
  }

  /** `[key]`, as in `[API]`, over a dictionary without that key is not found. */
  lemma MissingTopLevelKey(key: string, externalData: Data)
    requires MarkerPartsSeparator !in key && MarkerKeyFromTagFormatSeparator !in key
    requires key == [] || (key[0] != '[' && key[|key| - 1] != ']')
    requires externalData.Dict? && key !in externalData.entries
    ensures FoundValue("[" + key + "]", externalData) == Err(ValueNotFound)
  {
    assert MarkerPath("[" + key + "]") == [key] by {
      KeyOfBareMarker(key);
      PhpStrings.LTrimNoop(key, '[');
      PhpStrings.ExplodeNoSeparator(':', key);
    }
  }

  // ---------------------------------------------------------------------
  // decorateValueWithDedicatedTag
  // ---------------------------------------------------------------------

  /** `!empty($parts[i]) ? $parts[i] : $default`. */
  function PartOr(parts: seq<string>, i: nat, default: string): string
  {
    if i < |parts| && !PhpStrings.IsEmptyString(parts[i]) then parts[i] else default
  }

  function FromDateError(e: AwsTagDate.DateError): AssemblerError
  {
    match e
    case InvalidDate => InvalidDate
    case UnsupportedLanguage => UnsupportedLanguage
    case UnsupportedDateFormat => UnsupportedDateFormat
  }

  /** The renderer a tag (already split on `:`) sends the value to, by the name before its first `:`. */
  function RenderedTag(tagParts: seq<string>, value: string, cal: AwsTagDate.Calendar): Result<string, AssemblerError>
    requires |tagParts| >= 1
  {
    var tagType := tagParts[0];
    if tagType == AwsTagDate.TagDate then
      match AwsTagDate.RenderedDate(value, PartOr(tagParts, 1, ""), PartOr(tagParts, 2, AwsTagDate.DefaultDateFormat), cal)
      case Ok(s) => Ok(s)
      case Err(e) => Err(FromDateError(e))
    else if tagType == AwsTagLang.TagLang then
      match AwsTagLang.Render(value, PartOr(tagParts, 1, ""))
      case Ok(s) => Ok(s)
      case Err(_) => Err(UnsupportedLanguage)
    else if tagType in AwsTagGeneric.TagNames then
      Ok(AwsTagGeneric.Render(tagType, value))
    else
      Err(UnsupportedTagType)
  }

  /** What `decorateValueWithDedicatedTag` returns for a marker and a found value. */
  function Decorated(marker: string, value: string, cal: AwsTagDate.Calendar): Result<string, AssemblerError>
  {
    var markerTags := PhpStrings.Explode(MarkerKeyFromTagFormatSeparator, StripMarkerFromBrackets(marker))[1..];
    if |markerTags| > 1 then Err(MultipleTagTypes)
    else if |markerTags| == 0 then Ok(value)
    else RenderedTag(PhpStrings.Explode(MarkerPartsSeparator, markerTags[0]), value, cal)
  }

  /**
   * `decorateValueWithDedicatedTag`: drops the path segment, refuses more
   * than one tag segment, and hands the value to the renderer the tag
   * names, with a missing language or format filled in.
   */
  method DecorateValueWithDedicatedTag(marker: string, value: string, cal: AwsTagDate.Calendar)
    returns (r: Result<string, AssemblerError>)
    ensures r == Decorated(marker, value, cal)
  {
    var stripped := StripMarkerFromBrackets(marker);
    var markerTags := PhpStrings.Explode(MarkerKeyFromTagFormatSeparator, stripped);
    markerTags := markerTags[1..];  // array_shift: drop the path segment
    if |markerTags| > 1 {
      return Err(MultipleTagTypes);
    }
    var result := value;
    if |markerTags| == 1 {
      var tag := markerTags[|markerTags| - 1];  // array_pop
      markerTags := markerTags[..|markerTags| - 1];
      var tagParts := PhpStrings.Explode(MarkerPartsSeparator, tag);
      var tagType := tagParts[0];
      if tagType == AwsTagDate.TagDate {
        var langCode := PartOr(tagParts, 1, "");
        var dateFormat := PartOr(tagParts, 2, AwsTagDate.DefaultDateFormat);
        var rendered := AwsTagDate.Render(result, langCode, dateFormat, cal);
        if rendered.Err? {
          return Err(FromDateError(rendered.error));
        }
        result := rendered.value;
      } else if tagType == AwsTagLang.TagLang {
        var langCode := PartOr(tagParts, 1, "");
        var rendered := AwsTagLang.Render(result, langCode);
        if rendered.Err? {
          return Err(UnsupportedLanguage);
        }
        result := rendered.value;
      } else if tagType in AwsTagGeneric.TagNames {
        result := AwsTagGeneric.Render(tagType, result);
      } else {
        return Err(UnsupportedTagType);
      }
    }
    return Ok(result);
  }

  /** Without a `|` segment the value comes back unchanged. */
  lemma NoTagLeavesValue(marker: string, value: string, cal: AwsTagDate.Calendar)
    requires MarkerKeyFromTagFormatSeparator !in StripMarkerFromBrackets(marker)
    ensures Decorated(marker, value, cal) == Ok(value)
  {
    var stripped := StripMarkerFromBrackets(marker);
    assert |PhpStrings.Explode(MarkerKeyFromTagFormatSeparator, stripped)| == 1 by {
      PhpStrings.CountZero(MarkerKeyFromTagFormatSeparator, stripped);
    }
  }

  /** Two or more `|` segments are refused, whatever they say. */
  lemma SeveralTagsRefused(marker: string, value: string, cal: AwsTagDate.Calendar)
    requires PhpStrings.Count(MarkerKeyFromTagFormatSeparator, StripMarkerFromBrackets(marker)) >= 2
    ensures Decorated(marker, value, cal) == Err(MultipleTagTypes)
  {
  }

  /** A closing bracket after a text that does not end in one is all `rtrim` takes. */
  lemma RTrimClosingBracket(tag: string)
    requires tag == [] || tag[|tag| - 1] != ']'
    ensures PhpStrings.RTrim(tag + "]", ']') == tag
  {
    if tag == [] {
      assert tag + "]" == "]";
      assert PhpStrings.RTrim("]", ']') == [];
    } else {
      PhpStrings.RTrimAppend(tag, "]", ']');
      assert tag + PhpStrings.RTrim("]", ']') == tag;
    }
  }

  /** The tag segments of a stripped marker with one `|`: just the tag. */
  lemma TagSegmentsOfOneTag(k: string, tag: string)
    requires MarkerKeyFromTagFormatSeparator !in k && MarkerKeyFromTagFormatSeparator !in tag
    ensures PhpStrings.Explode(MarkerKeyFromTagFormatSeparator, k + ['|'] + tag)[1..] == [tag]
  {
    PhpStrings.ExplodeAfterPiece('|', k, tag);
    PhpStrings.ExplodeNoSeparator('|', tag);
  }

  /** With exactly one tag segment (the marker strips to `k|tag`), the value goes to the renderer that segment names. */
  lemma OneTagDispatches(marker: string, k: string, tag: string, value: string, cal: AwsTagDate.Calendar)
    requires MarkerKeyFromTagFormatSeparator !in k && MarkerKeyFromTagFormatSeparator !in tag
    requires StripMarkerFromBrackets(marker) == k + ['|'] + tag
    ensures Decorated(marker, value, cal) == RenderedTag(PhpStrings.Explode(MarkerPartsSeparator, tag), value, cal)
  {
    TagSegmentsOfOneTag(k, tag);
  }

  /** A bracketed marker with one tag segment strips to its key (without leading `[`s), the `|` and the tag. */
  lemma StripOneTagMarker(marker: string, key: string, tag: string)
    requires marker == "[" + key + "|" + tag + "]"
    requires tag != [] && tag[|tag| - 1] != ']'
    ensures StripMarkerFromBrackets(marker) == PhpStrings.LTrim(key, '[') + ['|'] + tag
  {
    StripTaggedMarker(key, tag);
    RTrimClosingBracket(tag);
  }

  /** The name is the text before the first `:` of the tag; the arguments after it do not affect which renderer is chosen. */
  lemma TagNameBeforeColon(name: string, args: string)
    requires MarkerPartsSeparator !in name
    ensures PhpStrings.Explode(MarkerPartsSeparator, name + ":" + args)[0] == name
    ensures PhpStrings.Explode(MarkerPartsSeparator, name)[0] == name
  {
    PhpStrings.ExplodeFirstPiece(':', name, args);
  }

  /** Each of the five generic names renders a `<say-as>` element with that very name, and never fails. */
  lemma GenericTagRendered(tagParts: seq<string>, value: string, cal: AwsTagDate.Calendar)
    requires |tagParts| >= 1 && tagParts[0] in AwsTagGeneric.TagNames
    ensures RenderedTag(tagParts, value, cal) == Ok(AwsTagGeneric.Render(tagParts[0], value))
  {
  }

  /** A `lang` tag without a (non-empty) code is always refused. */
  lemma LangWithoutCodeRefused(tagParts: seq<string>, value: string, cal: AwsTagDate.Calendar)
    requires |tagParts| >= 1 && tagParts[0] == AwsTagLang.TagLang
    requires |tagParts| < 2 || PhpStrings.IsEmptyString(tagParts[1])
    ensures RenderedTag(tagParts, value, cal) == Err(UnsupportedLanguage)
  {
    assert PartOr(tagParts, 1, "") == "";
    AwsTagLang.EmptyCodeRejected(value);
  }

  /** A `date` tag without a (non-empty) format falls back to the default format and therefore always fails. */
  lemma DateWithoutFormatFails(tagParts: seq<string>, value: string, cal: AwsTagDate.Calendar)
    requires |tagParts| >= 1 && tagParts[0] == AwsTagDate.TagDate
    requires |tagParts| < 3 || PhpStrings.IsEmptyString(tagParts[2])
    ensures RenderedTag(tagParts, value, cal).Err?
  {
    AwsTagDate.DefaultFormatAlwaysFails(value, PartOr(tagParts, 1, ""), cal);
  }

  /** A name that is neither `date`, `lang` nor one of the generic five is refused. */
  lemma UnknownTagRefused(tagParts: seq<string>, value: string, cal: AwsTagDate.Calendar)
    requires |tagParts| >= 1
    requires tagParts[0] != AwsTagDate.TagDate && tagParts[0] != AwsTagLang.TagLang
    requires tagParts[0] !in AwsTagGeneric.TagNames
    ensures RenderedTag(tagParts, value, cal) == Err(UnsupportedTagType)
  {
  }

  /** The date and lang renderers keep identical allow-lists, so they accept exactly the same codes. */
  lemma SameAllowedLanguages()
    ensures AwsTagDate.AllowedLanguages == AwsTagLang.AllowedLanguages
  {
  }

  /** The ordinal parts of a date are the generic `ordinal` element. */
  lemma DateOrdinalIsGenericOrdinal(x: string)
    ensures AwsTagDate.OrdinalOpen + x + AwsTagDate.SayAsClose == AwsTagGeneric.Render(AwsTagGeneric.TagOrdinal, x)
  {
  }

  // ---------------------------------------------------------------------
  // The behaviour the source's test cases pin down
  // ---------------------------------------------------------------------

  /** `[key|tag]` with a key free of `|`: the value goes to the renderer `tag` names. */
  lemma TaggedMarkerDispatches(key: string, tag: string, value: string, cal: AwsTagDate.Calendar)
    requires MarkerKeyFromTagFormatSeparator !in key && MarkerKeyFromTagFormatSeparator !in tag
    requires tag != [] && tag[|tag| - 1] != ']'
    ensures Decorated("[" + key + "|" + tag + "]", value, cal) == RenderedTag(PhpStrings.Explode(MarkerPartsSeparator, tag), value, cal)
  {
    var m := "[" + key + "|" + tag + "]";
    StripOneTagMarker(m, key, tag);
    PhpStrings.LTrimKeepsAbsent(key, '[', '|');
    OneTagDispatches(m, PhpStrings.LTrim(key, '['), tag, value, cal);
  }

  /** `[key|spell-out]`, as in `[API:klucz:tutaj_wartosc|spell-out]`, wraps the value in a spell-out `<say-as>`. */
  lemma SpellOutExample(key: string, value: string, cal: AwsTagDate.Calendar)
    requires MarkerKeyFromTagFormatSeparator !in key
    ensures Decorated("[" + key + "|" + "spell-out" + "]", value, cal)
      == Ok(AwsTagGeneric.SayAsOpen + "spell-out" + AwsTagGeneric.SayAsMiddle + value + AwsTagGeneric.SayAsClose)
  {
    var t := AwsTagGeneric.TagSpellOut;
    SpellOutNameShape(t);
    TaggedMarkerDispatches(key, t, value, cal);
    PhpStrings.ExplodeNoSeparator(':', t);
    GenericTagRendered([t], value, cal);
  }

  /** The `spell-out` name holds no separator, does not end in `]`, and is one of the generic five. */
  lemma SpellOutNameShape(t: string)
    requires t == AwsTagGeneric.TagSpellOut
    ensures MarkerPartsSeparator !in t && MarkerKeyFromTagFormatSeparator !in t
    ensures t != [] && t[|t| - 1] != ']'
    ensures t in AwsTagGeneric.TagNames
  {
    assert |t| == 9 && t[8] == 't';
    assert AwsTagGeneric.TagNames[2] == t;
  }

  /** A `lang` tag with a non-blank code speaks the value in that language when the code is allowed, and is refused otherwise. */
  lemma LangTagRendered(code: string, value: string, cal: AwsTagDate.Calendar)
    requires !PhpStrings.IsEmptyString(code)
    ensures RenderedTag([AwsTagLang.TagLang, code], value, cal)
      == if code in AwsTagLang.AllowedLanguages
         then Ok(AwsTagLang.LangOpen + code + AwsTagLang.LangMiddle + value + AwsTagLang.LangClose)
         else Err(UnsupportedLanguage)
  {
    assert PartOr([AwsTagLang.TagLang, code], 1, "") == code;
  }

  /** `[key|lang:code]` with a non-blank code goes to the `lang` renderer with that code. */
  lemma LangMarkerDispatches(key: string, code: string, value: string, cal: AwsTagDate.Calendar)
    requires MarkerKeyFromTagFormatSeparator !in key
    requires MarkerKeyFromTagFormatSeparator !in code && MarkerPartsSeparator !in code
    requires code != [] && code[|code| - 1] != ']'
    ensures Decorated("[" + key + "|" + "lang" + ":" + code + "]", value, cal)
      == RenderedTag([AwsTagLang.TagLang, code], value, cal)
  {
    var tag := AwsTagLang.TagLang + [':'] + code;
    assert "[" + key + "|" + "lang" + ":" + code + "]" == "[" + key + "|" + tag + "]";
    assert PhpStrings.Explode(MarkerPartsSeparator, tag) == [AwsTagLang.TagLang, code] by {
      PhpStrings.ExplodeAfterPiece(':', AwsTagLang.TagLang, code);
      PhpStrings.ExplodeNoSeparator(':', code);
    }
    TaggedMarkerDispatches(key, tag, value, cal);
  }

  /** `[key|lang:en-US]` wraps the value in an en-US `<lang>`. */
  lemma LangExample(key: string, value: string, cal: AwsTagDate.Calendar)
    requires MarkerKeyFromTagFormatSeparator !in key
    ensures Decorated("[" + key + "|" + "lang" + ":" + "en-US" + "]", value, cal)
      == Ok(AwsTagLang.LangOpen + "en-US" + AwsTagLang.LangMiddle + value + AwsTagLang.LangClose)
  {
    LangCodeShape("en-US");
    LangMarkerDispatches(key, "en-US", value, cal);
    LangTagRendered("en-US", value, cal);
  }

  /** The code of the lang test case holds no separator, does not end in `]`, and is allowed. */
  lemma LangCodeShape(code: string)
    requires code == "en-US"
    ensures MarkerKeyFromTagFormatSeparator !in code && MarkerPartsSeparator !in code
    ensures code != [] && code[|code| - 1] != ']'
    ensures !PhpStrings.IsEmptyString(code) && code in AwsTagLang.AllowedLanguages
  {
    assert |code| == 5 && code[4] == 'S';
    assert AwsTagLang.AllowedLanguages[9] == code;
  }

  /** No tag name the assembler knows is longer than ten characters. */
  lemma LongNameUnknown(name: string)
    requires |name| > 10
    ensures name != AwsTagDate.TagDate && name != AwsTagLang.TagLang && name !in AwsTagGeneric.TagNames
  {
    assert forall i :: 0 <= i < |AwsTagGeneric.TagNames| ==> |AwsTagGeneric.TagNames[i]| <= 10;
  }

  /** An unknown tag name such as `hakunaMatata` is refused. */
  lemma UnknownTagExample(key: string, value: string, cal: AwsTagDate.Calendar)
    requires MarkerKeyFromTagFormatSeparator !in key
    ensures Decorated("[" + key + "|" + "hakunaMatata" + "]", value, cal) == Err(UnsupportedTagType)
  {
    var tag := "hakunaMatata";
    UnknownNameShape(tag);
    PhpStrings.ExplodeNoSeparator(':', tag);
    TaggedMarkerDispatches(key, tag, value, cal);
    LongNameUnknown(tag);
  }

  /** The name of the unknown-tag test case holds no separator, does not end in `]` and is long. */
  lemma UnknownNameShape(tag: string)
    requires tag == "hakunaMatata"
    ensures MarkerPartsSeparator !in tag && MarkerKeyFromTagFormatSeparator !in tag
    ensures |tag| > 10 && tag[|tag| - 1] != ']'
  {
    assert |tag| == 12 && tag[11] == 'a';
  }

  /** The data of the list-index test cases: `a.b` is a list. */
  function IndexedData(a: string, b: string, items: seq<Data>): Data
  {
    Dict(map[a := Dict(map[b := List(items)])])
  }

  /** The marker `[a:b:n]` names the path `a`, `b`, `"n"`. */
  lemma IndexMarkerPath(a: string, b: string, n: nat)
    requires a != [] && a[0] != '['
    requires MarkerPartsSeparator !in a && MarkerPartsSeparator !in b
    requires MarkerKeyFromTagFormatSeparator !in a && MarkerKeyFromTagFormatSeparator !in b
    ensures MarkerPath("[" + a + ":" + b + ":" + PhpStrings.NatToString(n) + "]") == [a, b, PhpStrings.NatToString(n)]
  {
    var d := PhpStrings.NatToString(n);
    var key := a + [':'] + (b + [':'] + d);
    var marker := "[" + a + ":" + b + ":" + d + "]";
    assert marker == "[" + key + "]";
    assert MarkerPartsSeparator !in d && MarkerKeyFromTagFormatSeparator !in d by {
      assert forall i :: 0 <= i < |d| ==> PhpStrings.IsDigit(d[i]);
    }
    assert PhpStrings.Explode(MarkerKeyFromTagFormatSeparator, StripMarkerFromBrackets(marker))[0] == key by {
      assert MarkerKeyFromTagFormatSeparator !in key;
      assert key[|key| - 1] == d[|d| - 1] && PhpStrings.IsDigit(d[|d| - 1]);
      KeyOfBareMarker(key);
      PhpStrings.LTrimNoop(key, '[');
    }
    assert PhpStrings.Explode(MarkerPartsSeparator, key) == [a, b, d] by {
      PhpStrings.ExplodeAfterPiece(':', a, b + [':'] + d);
      PhpStrings.ExplodeAfterPiece(':', b, d);
      PhpStrings.ExplodeNoSeparator(':', d);
    }
  }

  /**
   * `[a:b:n]` finds the `n`-th item of the list at `a.b` (`[API:klucz:1]`
   * finds the second one), and nothing when the list is shorter.
   */
  lemma ListIndexExample(a: string, b: string, n: nat, items: seq<Data>)
    requires a != [] && a[0] != '['
    requires MarkerPartsSeparator !in a && MarkerPartsSeparator !in b
    requires MarkerKeyFromTagFormatSeparator !in a && MarkerKeyFromTagFormatSeparator !in b
    ensures FoundValue("[" + a + ":" + b + ":" + PhpStrings.NatToString(n) + "]", IndexedData(a, b, items))
      == if n < |items| then Normalised(items[n]) else Err(ValueNotFound)
  {
    var d := PhpStrings.NatToString(n);
    var path := [a, b, d];
    IndexMarkerPath(a, b, n);
    PhpStrings.IndexKeyRoundTrip(n);
    var inner := Dict(map[b := List(items)]);
    assert Child(IndexedData(a, b, items), a) == Some(inner);
    assert Child(inner, b) == Some(List(items));
    var item := Child(List(items), d);
    assert item == if n < |items| then Some(items[n]) else None;
    assert path[1..] == [b, d] && path[1..][1..] == [d] && path[1..][1..][1..] == [];
    assert Lookup(List(items), [d]) == item;
    assert Lookup(IndexedData(a, b, items), path) == item;
  }
}
