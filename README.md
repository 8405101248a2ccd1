# Mobile seat admission and text-to-speech markers, in Dafny

This project models two independent parts of a CRM code base and proves
properties about them.

**Mobile seat admission.** This is `MobileAppUserService`. A customer holds
a number of licences ("seats") for each mobile application type. A user
logging in from a device takes a seat.

- `registerAppUsageByUser` reads four things: the licence key, the allowed
  count, the used count and the user's existing usage record.
- It then makes six checks in a fixed order.
- The user is registered only if every check passes. The registration is
  one write to the usage store.
- The model splits this into three parts:
  - `MobileAppUsers.Decide`, a pure function for the decision;
  - `Gather` and `AdmissionOutcome`, which cover the reads and the outcome;
  - the method `MobileAppUserService.RegisterAppUsageByUser`. It calls the
    abstract `ActiveUsersStore` once on success and never otherwise.
- The two delegations to the store are modelled as methods that record the
  call.

**Text-to-speech markers.** These are in `TextToSpeechExternalDataAssembler`
and its three Amazon Polly SSML renderers.

- Markers look like `[path:to:key|tag:arg:arg]`.
- `FindValue` strips the brackets, then takes the path before the first `|`.
  It walks that path through the decoded API data (`Data`), then validates
  and converts the value it finds.
- `DecorateValueWithDedicatedTag` parses the tag after `|`. It hands the
  value to one of three renderers:
  - `AwsTagGeneric`: `<say-as interpret-as="…">`;
  - `AwsTagLang`: `<lang xml:lang="…">`;
  - `AwsTagDate`: one part per format character, joined by spaces.
- These are the `say-as` and `lang` elements of sections 3.1.9 and 3.1.4 of
  the W3C SSML 1.1 Recommendation.
- Each imperative operation is a method proved equal to a specification
  function: `FindValue` = `FoundValue`, `DecorateValueWithDedicatedTag` =
  `Decorated`, `AwsTagDate.Render` = `RenderedDate`. The properties are
  proved as lemmas about those functions.
- `PhpStrings` models the PHP string built-ins the code relies on:
  `explode`, `implode`, `ltrim`, `rtrim`, `empty()` on strings, integer to
  string conversion, and the normalisation of integer-like array keys.

Files:

| file | contents |
|---|---|
| `basics.dfy` | `Option` and `Result` |
| `php_strings.dfy` | the PHP string built-ins |
| `mobile_app_users.dfy` | the admission rule, the service and its collaborators |
| `aws_tag_generic.dfy` | the generic `say-as` renderer |
| `aws_tag_lang.dfy` | the `lang` renderer |
| `aws_tag_date.dfy` | the date renderer |
| `external_data_assembler.dfy` | marker parsing, value lookup and tag dispatch |

## Model

| member | source | states |
|---|---|---|
| `MobileAppUsers.Decide` | mobile/MobileAppUserService.php:57-101 | The user is registered exactly when `Admissible` holds. That is an order-free statement: no over-booking; a new user needs a free seat; an active record has a blank reason; an inactive record has a known reason, and neither a licence reduction while full nor a block of this device applies. A registration never exceeds capacity. |
| `MobileAppUsers.LicenseReductionBlocks` | mobile/MobileAppUserService.php:57-59 | An inactive LICENSE_REDUCED record is refused with the reduction error whenever `used >= allowed`, including over-booked counts. Otherwise it is registered. |
| `MobileAppUsers.DeviceBlockIsPerDevice` | mobile/MobileAppUserService.php:62-64 | An inactive DEVICE_BLOCKED record with the same IMEI is refused as device-blocked, whatever the counts. With a different IMEI only over-booking can refuse it. |
| `MobileAppUsers.UnknownReasonIsFault` | mobile/MobileAppUserService.php:67-83 | An inactive record with a reason outside the five known ones is a logic fault, for any counts and any device. |
| `MobileAppUsers.ActiveWithReasonIsFault` | mobile/MobileAppUserService.php:85-93 | An active record with a non-empty reason is a logic fault, for any counts and any device. |
| `MobileAppUsers.OverBookingRejected` | mobile/MobileAppUserService.php:95-97 | `used > allowed` is never admitted. Every record that passes the record checks gets the licences-extended error. Those records are: none at all; an active record with a blank reason; an inactive NO_ACTIVITY, LICENSE_DEACTIVATED or USER_LOGGED_OUT record; and an inactive DEVICE_BLOCKED record from another device. |
| `MobileAppUsers.NewUser` | mobile/MobileAppUserService.php:95-101 | A user with no record is registered exactly when `used < allowed`. At equality the error is no-licences-available; above it, licences-extended. |
| `MobileAppUsers.ExistingUserAtCapacity` | mobile/MobileAppUserService.php:99-101 | An existing record that passes the record checks is registered at `used == allowed`. |
| `MobileAppUsers.ReturningUsersWithFreeSeat` | mobile/MobileAppUserServiceTest.php:59-97 | At 9 of 10 seats these are registered: inactive NO_ACTIVITY, LICENSE_DEACTIVATED, LICENSE_REDUCED and USER_LOGGED_OUT records, and an active record without a reason. |
| `MobileAppUsers.Gather` | mobile/MobileAppUserService.php:46-55 | The four reads succeed exactly when each one does. The allowed count is the key's entry, cast to int. |
| `MobileAppUsers.AdmissionOutcome` | mobile/MobileAppUserService.php:46-107 | A failed read is an execute error. A rejection by `Decide` is thrown as that rejection, and a fault as that logic error. The call registers exactly when the write is reached and succeeds, and ends with a write error exactly when the write is reached and fails. |
| `MobileAppUsers.RejectionsDoNotWrite` | mobile/MobileAppUserService.php:57-104 | Rejections and faults never reach the write, and every write comes from an admissible request. |
| `MobileAppUsers.ReadFailureBeforeDecision` | mobile/MobileAppUserService.php:46-55 | A failure of any of the four reads ends the call with an execute error, before any decision and with no write. |
| `MobileAppUsers.ActiveUsersStore.constructor` | mobile/MobileAppUserService.php:27-31 | The store is built from the answers its reads give. It starts with no recorded writes, runs or removals. |
| `MobileAppUsers.ActiveUsersStore.GetUsedMobileAppLicensesCount` | mobile/MobileAppUserService.php:50 | Returns the store's answer for `(appType, customersId)`. |
| `MobileAppUsers.ActiveUsersStore.GetLicenseUsedByUser` | mobile/MobileAppUserService.php:51 | Returns the store's answer for `(appType, userId)`. That answer may be a failure or no record. |
| `MobileAppUsers.ActiveUsersStore.RegisterAppUsageByUser` | mobile/MobileAppUserService.php:104 | Appends exactly this registration to the write log and reports whether the write returns normally. |
| `MobileAppUsers.ActiveUsersStore.DeactivateNonActiveUsers` | mobile/MobileAppUserService.php:112 | Counts one more reaping run and changes nothing else. |
| `MobileAppUsers.ActiveUsersStore.UnregisterAppUsageByUser` | mobile/MobileAppUserService.php:117 | Appends exactly this removal to the removal log and changes nothing else. |
| `MobileAppUsers.CloudLicenses.constructor` | mobile/MobileAppUserService.php:27-31 | The licence directory is built from its answers. |
| `MobileAppUsers.CloudLicenses.GetLicensesByCustomerId` | mobile/MobileAppUserService.php:48 | Returns the directory's answer for the customer and the one licence key. |
| `MobileAppUsers.MobileAppUserService.constructor` | mobile/MobileAppUserService.php:27-31 | The service holds the given store, licence directory and licence-key transform. |
| `MobileAppUsers.MobileAppUserService.RegisterAppUsageByUser` | mobile/MobileAppUserService.php:44-108 | The outcome is `AdmissionOutcome` of this call's reads. The write log grows by exactly `(appType, userId, customersId, token, imei)` when the user is admitted, and is unchanged otherwise. |
| `MobileAppUsers.MobileAppUserService.DeactivateNonActiveUsers` | mobile/MobileAppUserService.php:110-113 | Delegates once to the store. |
| `MobileAppUsers.MobileAppUserService.UnregisterAppUsageByUser` | mobile/MobileAppUserService.php:115-118 | Delegates once to the store, with the same arguments. |
| `PhpStrings.Implode` | t2s/AwsSsmlTag/AwsTagDate.php:98 | `implode`: the pieces in order, with the glue between neighbours. It has no ensures of its own; `ImplodeExplode`, `ExplodeImplode`, `ImplodeCons` and `ImplodeFour` state its properties. |
| `PhpStrings.Explode` | t2s/TextToSpeechExternalDataAssembler.php:27-28 | `explode` gives one piece more than there are separators, and no piece contains the separator. |
| `PhpStrings.CountZero` | t2s/TextToSpeechExternalDataAssembler.php:66-72 | No separator occurs exactly when the count is zero. |
| `PhpStrings.ImplodeExplode` | t2s/TextToSpeechExternalDataAssembler.php:27-28 | Joining the pieces with the separator gives back the string. |
| `PhpStrings.ExplodeImplode` | t2s/TextToSpeechExternalDataAssembler.php:73 | Pieces free of the separator are recovered exactly from their join. |
| `PhpStrings.ExplodeNoSeparator` | t2s/TextToSpeechExternalDataAssembler.php:27 | A string without the separator explodes into itself alone. |
| `PhpStrings.ExplodeAfterPiece` | t2s/TextToSpeechExternalDataAssembler.php:63 | Case: a separator-free piece, the separator, then a tail. The piece comes first, followed by the tail's pieces. |
| `PhpStrings.ExplodeFirstPiece` | t2s/TextToSpeechExternalDataAssembler.php:27 | The first piece is the text before the first separator. |
| `PhpStrings.ImplodeCons` | t2s/AwsSsmlTag/AwsTagDate.php:98 | Joining a head and a non-empty rest puts one glue between them. |
| `PhpStrings.ImplodeExtendFirst` | t2s/TextToSpeechExternalDataAssembler.php:27-28 | Putting a character in front of the first piece puts it in front of the joined string. |
| `PhpStrings.ImplodeFour` | t2s/AwsSsmlTag/AwsTagDate.php:98 | Joining four pieces puts the glue between each neighbouring pair. |
| `PhpStrings.LTrim` | t2s/TextToSpeechExternalDataAssembler.php:105 | `ltrim` keeps a suffix. Everything it removes is the trimmed character, and the result does not start with it. |
| `PhpStrings.RTrim` | t2s/TextToSpeechExternalDataAssembler.php:106 | `rtrim` keeps a prefix. Everything it removes is the trimmed character, and the result does not end with it. |
| `PhpStrings.LTrimKeepsAbsent` | t2s/TextToSpeechExternalDataAssembler.php:105 | A character absent from the input is absent from the `ltrim` result. |
| `PhpStrings.LTrimNoop` | t2s/TextToSpeechExternalDataAssembler.php:105 | A string not starting with the character is unchanged. |
| `PhpStrings.RTrimNoop` | t2s/TextToSpeechExternalDataAssembler.php:106 | A string not ending with the character is unchanged. |
| `PhpStrings.LTrimAppend` | t2s/TextToSpeechExternalDataAssembler.php:105 | `ltrim` stops at the first other character; what follows it passes through. |
| `PhpStrings.RTrimAppend` | t2s/TextToSpeechExternalDataAssembler.php:106 | `rtrim` does not reach past a last character other than the trimmed one. |
| `PhpStrings.DigitChar` | t2s/TextToSpeechExternalDataAssembler.php:51 | A digit below ten becomes a digit character. |
| `PhpStrings.DigitValue` | t2s/TextToSpeechExternalDataAssembler.php:36 | A digit character has a value below ten. |
| `PhpStrings.DigitRoundTrip` | t2s/TextToSpeechExternalDataAssembler.php:36 | Reading a digit back gives the digit. |
| `PhpStrings.NatToString` | t2s/AwsSsmlTag/AwsTagDate.php:85 | `(string)` of a natural number is a non-empty string of digits with no leading zero. |
| `PhpStrings.IntToString` | t2s/TextToSpeechExternalDataAssembler.php:51 | `(string)` of an integer is non-empty, and it is `"0"` exactly for zero. |
| `PhpStrings.IntToStringValue` | t2s/TextToSpeechExternalDataAssembler.php:51 | `(string)` of an integer reads back as that integer. A non-negative one is its canonical decimal digits. A negative one is `-` followed by the canonical digits of its magnitude. |
| `PhpStrings.IndexOfKey` | t2s/TextToSpeechExternalDataAssembler.php:36 | For the natural-number keys this model addresses, a string key becomes an integer key exactly when it is the canonical decimal form of a natural number. |
| `PhpStrings.IndexKeyRoundTrip` | t2s/TextToSpeechExternalDataAssembler.php:36-41 | The decimal form of `n` is an index key that addresses position `n`. |
| `PhpStrings.YearToString` | t2s/AwsSsmlTag/AwsTagDate.php:85 | The `Y` date format is at least four digits. |
| `PhpStrings.YearToStringValue` | t2s/AwsSsmlTag/AwsTagDate.php:85 | The `Y` format reads back as the year. It is padded with zeros to exactly four digits when the year has fewer, and is unpadded otherwise. |
| `PhpStrings.LeadingZeroValue` | t2s/AwsSsmlTag/AwsTagDate.php:85 | A leading zero does not change the value of a digit string. |
| `PhpStrings.LeadingZerosValue` | t2s/AwsSsmlTag/AwsTagDate.php:85 | Any zero padding leaves both the digits and the value of a digit string unchanged. |
| `PhpStrings.Zeros` | t2s/AwsSsmlTag/AwsTagDate.php:85 | The zero padding is `n` zeros. |
| `ExternalDataAssembler.StripMarkerFromBrackets` | t2s/TextToSpeechExternalDataAssembler.php:103-107 | `ltrim` of `[` followed by `rtrim` of `]`. It has no ensures of its own; `StripRemovesOnlyBrackets` and `StripIdempotent` state its properties. |
| `ExternalDataAssembler.StripRemovesOnlyBrackets` | t2s/TextToSpeechExternalDataAssembler.php:103-107 | Stripping takes a contiguous slice: all `[` before it, all `]` after it. The slice neither starts with `[` nor ends with `]`. |
| `ExternalDataAssembler.BracketSlice` | t2s/TextToSpeechExternalDataAssembler.php:103-107 | From the facts that `ltrim` leaves a suffix free of a leading `[` and `rtrim` leaves a prefix of that suffix free of a trailing `]`, the result is a slice of the marker with only `[` before it and only `]` after it. |
| `ExternalDataAssembler.PrefixOfSuffix` | t2s/TextToSpeechExternalDataAssembler.php:103-107 | A prefix of a suffix of the marker equals a slice of the marker, starting where the suffix starts. |
| `ExternalDataAssembler.ClosingRun` | t2s/TextToSpeechExternalDataAssembler.php:106 | The `]` run that `rtrim` removes from the suffix is also the tail of the marker. |
| `ExternalDataAssembler.StripIdempotent` | t2s/TextToSpeechExternalDataAssembler.php:103-107 | Stripping twice is stripping once. |
| `ExternalDataAssembler.MarkerPath` | t2s/TextToSpeechExternalDataAssembler.php:26-32 | The path always has at least one part, so the empty-key branch never fires. |
| `ExternalDataAssembler.Child` | t2s/TextToSpeechExternalDataAssembler.php:36-41 | A list has a child exactly at an in-range canonical decimal key. A dictionary has one exactly at its keys. A scalar has none. |
| `ExternalDataAssembler.ListPosition` | t2s/TextToSpeechExternalDataAssembler.php:36-41 | The key `"n"` finds the `n`-th list item, so `"1"` is the second. |
| `ExternalDataAssembler.Lookup` | t2s/TextToSpeechExternalDataAssembler.php:34-42 | The reference walk of `findValue`: one `Child` step per path part, and `None` at the first missing one. It has no ensures of its own; `LookupAppend`, `MissingKeyAtAnyLevel` and `Descend` state its properties. |
| `ExternalDataAssembler.LookupAppend` | t2s/TextToSpeechExternalDataAssembler.php:34-42 | Walking `p + q` is walking `p`, then `q` from where it ends. |
| `ExternalDataAssembler.MissingKeyAtAnyLevel` | t2s/TextToSpeechExternalDataAssembler.php:35-40 | A part missing at any level makes the whole walk fail. |
| `ExternalDataAssembler.Normalised` | t2s/TextToSpeechExternalDataAssembler.php:44-51 | Booleans and arrays are refused, and nothing else. Null, 0, `""` and `"0"` give null, exactly. Other strings come back verbatim; other integers as their decimal form. |
| `ExternalDataAssembler.FoundValue` | t2s/TextToSpeechExternalDataAssembler.php:24-52 | The reference result of `findValue`: the `Lookup` of `MarkerPath`, then `Normalised`, and ValueNotFound when the walk fails. It has no ensures of its own; `FindValue` is proved equal to it, and the lemmas that follow state its properties. |
| `ExternalDataAssembler.FindValue` | t2s/TextToSpeechExternalDataAssembler.php:24-52 | Equals `FoundValue`: the lookup of `MarkerPath` followed by `Normalised`, and ValueNotFound when the walk fails. |
| `ExternalDataAssembler.Descend` | t2s/TextToSpeechExternalDataAssembler.php:34-42 | The loop returns exactly `Lookup` of the data and the path. |
| `ExternalDataAssembler.LookupStep` | t2s/TextToSpeechExternalDataAssembler.php:35-41 | One loop step: the rest of the path is the child at this part, then the path after it. |
| `ExternalDataAssembler.LTrimOpeningBracket` | t2s/TextToSpeechExternalDataAssembler.php:105 | An opening `[` makes no difference once `[`s are trimmed. |
| `ExternalDataAssembler.LTrimBracketedKey` | t2s/TextToSpeechExternalDataAssembler.php:105 | `ltrim` of `[`, a key and a rest not starting with `[` trims only the key's leading `[`s. |
| `ExternalDataAssembler.RTrimAfterSeparator` | t2s/TextToSpeechExternalDataAssembler.php:106 | `rtrim` after a `\|` reaches no further back than the `\|`. |
| `ExternalDataAssembler.TaggedMarkerShape` | t2s/TextToSpeechExternalDataAssembler.php:103-107 | `[key\|tag]` is `[` and the key, then the `\|` and the rest. |
| `ExternalDataAssembler.StripTaggedMarker` | t2s/TextToSpeechExternalDataAssembler.php:103-107 | `[key\|tag]` strips to the key without leading `[`s, `\|`, and the tag without trailing `]`s. |
| `ExternalDataAssembler.KeyOfTaggedMarker` | t2s/TextToSpeechExternalDataAssembler.php:26-27 | The key before `\|` of `[key\|tag]` is the key without its leading `[`s. |
| `ExternalDataAssembler.KeyOfBareMarker` | t2s/TextToSpeechExternalDataAssembler.php:26-27 | Without a tag, the key of `[key]` is the same. |
| `ExternalDataAssembler.TagSegmentIgnored` | t2s/TextToSpeechExternalDataAssembler.php:27 | For a key that does not end in `]`, adding a tag segment never changes the value found. |
| `ExternalDataAssembler.TaggedKeyKeepsBracket` | t2s/TextToSpeechExternalDataAssembler.php:26-28 | Case: a key ending in `]`, followed by a tag segment. The key keeps its `]`, because `rtrim` reaches only the tag. |
| `ExternalDataAssembler.BareKeyLosesBracket` | t2s/TextToSpeechExternalDataAssembler.php:26-28 | The same key without a tag loses its `]` together with the closing bracket. |
| `ExternalDataAssembler.TwoClosingBrackets` | t2s/TextToSpeechExternalDataAssembler.php:106 | `rtrim` takes both of two closing brackets. |
| `ExternalDataAssembler.TagSegmentKeepsClosingBracket` | t2s/TextToSpeechExternalDataAssembler.php:26-42 | Over `{k: v}`, `[k]]` finds `v`, but `[k]\|tag]` is not found. So a tag segment changes the lookup when the key ends in `]`. |
| `ExternalDataAssembler.EmptyMarkerNotFound` | t2s/TextToSpeechExternalDataAssembler.php:28-40 | The empty marker names the empty key. It is not found in a list, or in a dictionary that has no `""` key. |
| `ExternalDataAssembler.MissingTopLevelKey` | t2s/TextToSpeechExternalDataAssembler.php:35-40 | `[key]` over a dictionary lacking `key` is not found (`[API]` in the tests). |
| `ExternalDataAssembler.IndexMarkerPath` | t2s/TextToSpeechExternalDataAssembler.php:26-28 | `[a:b:n]` names the path `a`, `b`, `"n"`. |
| `ExternalDataAssembler.ListIndexExample` | t2s/tests/TextToSpeechExternalDataAssemblerTest.php:111-123 | `[a:b:n]`, where `a.b` is a list, gives the normalised `n`-th item. It is not found when `n` is past the end. |
| `ExternalDataAssembler.PartOr` | t2s/TextToSpeechExternalDataAssembler.php:78-83 | `!empty($tagParts[i])`: the part when it exists and is not blank, else the default. It has no ensures of its own; `LangWithoutCodeRefused` and `DateWithoutFormatFails` state its effect. |
| `ExternalDataAssembler.RenderedTag` | t2s/TextToSpeechExternalDataAssembler.php:73-97 | The reference for the switch. `date` goes to the date renderer, `lang` to the lang renderer, the five generic names to `say-as`, and anything else is refused. It has no ensures of its own; `GenericTagRendered`, `LangWithoutCodeRefused`, `LangTagRendered`, `DateWithoutFormatFails` and `UnknownTagRefused` state its cases. |
| `ExternalDataAssembler.Decorated` | t2s/TextToSpeechExternalDataAssembler.php:60-101 | The reference for `decorateValueWithDedicatedTag`. More than one tag segment is refused, none returns the value, and one goes to `RenderedTag`. It has no ensures of its own; `DecorateValueWithDedicatedTag` is proved equal to it, and `NoTagLeavesValue`, `SeveralTagsRefused` and `OneTagDispatches` state its cases. |
| `ExternalDataAssembler.DecorateValueWithDedicatedTag` | t2s/TextToSpeechExternalDataAssembler.php:60-101 | Equals `Decorated`. |
| `ExternalDataAssembler.NoTagLeavesValue` | t2s/TextToSpeechExternalDataAssembler.php:72-100 | Without a `\|` segment the value comes back unchanged. |
| `ExternalDataAssembler.SeveralTagsRefused` | t2s/TextToSpeechExternalDataAssembler.php:66-70 | Two or more `\|` segments are refused, whatever they say. |
| `ExternalDataAssembler.RTrimClosingBracket` | t2s/TextToSpeechExternalDataAssembler.php:106 | One closing `]` after a text that is empty or does not end in `]` is all `rtrim` removes. |
| `ExternalDataAssembler.TagSegmentsOfOneTag` | t2s/TextToSpeechExternalDataAssembler.php:63-64 | After the shift, `k\|tag` leaves exactly `[tag]`. |
| `ExternalDataAssembler.OneTagDispatches` | t2s/TextToSpeechExternalDataAssembler.php:72-97 | With exactly one tag segment, the result is the renderer chosen by that segment, split on `:`. |
| `ExternalDataAssembler.StripOneTagMarker` | t2s/TextToSpeechExternalDataAssembler.php:103-107 | `[key\|tag]` strips to the key without leading `[`s, then `\|` and the tag. |
| `ExternalDataAssembler.TaggedMarkerDispatches` | t2s/TextToSpeechExternalDataAssembler.php:62-97 | `[key\|tag]` is decorated by the renderer `tag` names. |
| `ExternalDataAssembler.TagNameBeforeColon` | t2s/TextToSpeechExternalDataAssembler.php:73-74 | The tag name is the text before its first `:`; the arguments never change which renderer is chosen. |
| `ExternalDataAssembler.GenericTagRendered` | t2s/TextToSpeechExternalDataAssembler.php:86-92 | Each of the five generic names renders a `say-as` element with that name, and never fails. |
| `ExternalDataAssembler.LangWithoutCodeRefused` | t2s/TextToSpeechExternalDataAssembler.php:82-85 | A `lang` tag whose code is missing or blank becomes the empty code and is always refused. |
| `ExternalDataAssembler.LangTagRendered` | t2s/TextToSpeechExternalDataAssembler.php:82-85 | A `lang` tag with a non-blank code gives the `<lang>` element when the code is allowed, and the unsupported-language error otherwise. |
| `ExternalDataAssembler.LangMarkerDispatches` | t2s/TextToSpeechExternalDataAssembler.php:72-85 | `[key\|lang:code]` goes to the lang renderer with that code. |
| `ExternalDataAssembler.DateWithoutFormatFails` | t2s/TextToSpeechExternalDataAssembler.php:77-81 | A `date` tag with no format falls back to the default format and always fails. |
| `ExternalDataAssembler.UnknownTagRefused` | t2s/TextToSpeechExternalDataAssembler.php:93-96 | A name that is not `date`, `lang` or one of the five generic names is refused. |
| `ExternalDataAssembler.LongNameUnknown` | t2s/TextToSpeechExternalDataAssembler.php:76-93 | No name the switch knows is longer than ten characters. |
| `ExternalDataAssembler.SpellOutNameShape` | t2s/AwsSsmlTag/AwsTagGeneric.php:9 | `spell-out` has no separator, does not end in `]`, and is a generic name. |
| `ExternalDataAssembler.SpellOutExample` | t2s/tests/TextToSpeechExternalDataAssemblerTest.php:276-280 | `[key\|spell-out]` wraps the value in `<say-as interpret-as="spell-out">`. |
| `ExternalDataAssembler.LangCodeShape` | t2s/AwsSsmlTag/AwsTagLang.php:10-40 | `en-US` has no separator, does not end in `]`, is not blank, and is allowed. |
| `ExternalDataAssembler.LangExample` | t2s/tests/TextToSpeechExternalDataAssemblerTest.php:283-287 | `[key\|lang:en-US]` wraps the value in `<lang xml:lang="en-US">`. |
| `ExternalDataAssembler.UnknownNameShape` | t2s/tests/TextToSpeechExternalDataAssemblerTest.php:291 | `hakunaMatata` has no separator, does not end in `]`, and is longer than ten characters. |
| `ExternalDataAssembler.UnknownTagExample` | t2s/tests/TextToSpeechExternalDataAssemblerTest.php:290-295 | `[key\|hakunaMatata]` is refused as an unsupported tag. |
| `ExternalDataAssembler.SameAllowedLanguages` | t2s/AwsSsmlTag/AwsTagDate.php:19-49 | The date and lang allow-lists are identical, so both renderers accept the same codes. |
| `ExternalDataAssembler.DateOrdinalIsGenericOrdinal` | t2s/AwsSsmlTag/AwsTagDate.php:83-86 | A date's ordinal part is the generic `ordinal` element. |
| `AwsTagLang.Render` | t2s/AwsSsmlTag/AwsTagLang.php:48-57 | Refused exactly when the code is not on the allow-list. Otherwise the result is `<lang xml:lang="code">value</lang>`, verbatim. |
| `AwsTagLang.RenderInjective` | t2s/AwsSsmlTag/AwsTagLang.php:56 | For an allowed code, distinct values give distinct elements. |
| `AwsTagLang.EmptyCodeRejected` | t2s/AwsSsmlTag/AwsTagLang.php:50-54 | The empty code is always refused. |
| `AwsTagLang.NoAllowedCodeHasDigit` | t2s/AwsSsmlTag/AwsTagLang.php:10-40 | No allowed code contains a digit, so the loose `in_array` is exact string membership. |
| `AwsTagGeneric.Render` | t2s/AwsSsmlTag/AwsTagGeneric.php:18-21 | The `say-as` element. It has no ensures of its own; `RenderLayout` and `RenderInjective` state its layout and injectivity. |
| `AwsTagGeneric.RenderLayout` | t2s/AwsSsmlTag/AwsTagGeneric.php:18-21 | The element is the fixed opening, the tag type, the fixed middle, the value and the closing tag. Both are inserted verbatim at fixed offsets, and the length is theirs plus 33. |
| `AwsTagGeneric.RenderInjective` | t2s/AwsSsmlTag/AwsTagGeneric.php:20 | For a fixed tag type, distinct values give distinct elements. |
| `AwsTagGeneric.TagNamesDistinct` | t2s/AwsSsmlTag/AwsTagGeneric.php:7-11 | The five tag names are pairwise distinct. |
| `AwsTagDate.DatePart` | t2s/AwsSsmlTag/AwsTagDate.php:78-95 | The spoken form of one supported format character. It has no ensures of its own; `PartMeaning` states each case. |
| `AwsTagDate.DateParts` | t2s/AwsSsmlTag/AwsTagDate.php:70-96 | The list the loop builds for a format of supported characters. It has no ensures of its own; `DatePartsShape` and `DatePartsStep` state its properties. |
| `AwsTagDate.RenderedDate` | t2s/AwsSsmlTag/AwsTagDate.php:58-99 | The reference for `render`. It has no ensures of its own; `AwsTagDate.Render` is proved equal to it, and `InvalidDateFirst`, `UnsupportedLanguageRejected`, `UnsupportedFormatRejected`, `SuccessShape`, `DefaultFormatAlwaysFails` and `WeekdayDayMonthYear` state its properties. |
| `AwsTagDate.DatePartsShape` | t2s/AwsSsmlTag/AwsTagDate.php:70-96 | Exactly one part per format character, the `i`-th spoken from the `i`-th character. |
| `AwsTagDate.Render` | t2s/AwsSsmlTag/AwsTagDate.php:58-99 | Equals `RenderedDate`. Its checks, in order: the value must parse, the language must be allowed, every format character must be supported. Then the parts are joined with single spaces. |
| `AwsTagDate.DatePartsStep` | t2s/AwsSsmlTag/AwsTagDate.php:71-95 | One loop step appends exactly the current character's part. |
| `AwsTagDate.InvalidDateFirst` | t2s/AwsSsmlTag/AwsTagDate.php:60 | A value that does not parse fails first, whatever the language and the format. |
| `AwsTagDate.UnsupportedLanguageRejected` | t2s/AwsSsmlTag/AwsTagDate.php:62-66 | Once the value parses, a language outside the allow-list is refused whatever the format. |
| `AwsTagDate.UnsupportedFormatRejected` | t2s/AwsSsmlTag/AwsTagDate.php:71-77 | Any unsupported format character anywhere makes the whole render fail, with no partial result. |
| `AwsTagDate.SuccessShape` | t2s/AwsSsmlTag/AwsTagDate.php:70-98 | A success implies, for the result: the value parsed, the language is allowed, every character is supported, and the result joins one part per character, in format order. |
| `AwsTagDate.PartMeaning` | t2s/AwsSsmlTag/AwsTagDate.php:78-94 | `d`, `m` and `y` are ordinal elements of the unpadded day, the unpadded month and the four-digit year. `D` and `M` are the bare weekday and month names. |
| `AwsTagDate.DefaultFormatAlwaysFails` | t2s/AwsSsmlTag/AwsTagDate.php:10-17 | Rendering with the default format `dFY` always fails. |
| `AwsTagDate.WeekdayDayMonthYearParts` | t2s/AwsSsmlTag/AwsTagDate.php:71-96 | The format `DdMy` gives four parts: weekday name, ordinal day, month name, ordinal year. |
| `AwsTagDate.WeekdayDayMonthYear` | t2s/tests/AwsSsmlTag/AwsTagDateTest.php:19-24 | `DdMy` renders `weekday <ordinal day> month <ordinal year>`, separated by single spaces. |

## Left out

- **Concurrency.** The read-then-write in `registerAppUsageByUser` has no locking, and no race is modelled.
- **Collaborators.** `Crm_MobileAppActiveUsers`, `Cloud\Licenses` and `MobileAppTypeToLicenseKeyTransformer` are not part of this model.
  - They are abstract: each read's answer is a function given at construction, with `None` where the call throws.
  - Writes, reaping runs and removals are only recorded, in order. No store semantics are assumed.
- **Reason values.** The five reason constants are defined in the store, which is not part of this model, so the model uses an enumeration.
  - `Text(s)` stands for any other string.
  - `in_array` against the constants is taken as exact equality.
- **Types of `active` and the counts.** `active` is a `bool` and the counts are integers. A non-boolean `active`, which the strict `=== true/false` checks would skip, is not modelled.
  - So the strict `===` at line 99 is integer equality.
- **No usage record.** The model takes the store to answer with exactly `false` when a user has no record, which is the value line 99 tests with `===`. A store answering `null` or `[]` is not modelled. Such a record would pass the checks at lines 57-93 and skip line 99, so a new user at full capacity would be registered.
- **Missing licence key.** A licence key missing from the directory's answer is cast to 0. PHP's notice for the missing index is not modelled.
- **Logging.** Sentry logging is left out. So are exception message texts and the `tr()` translations. Errors are datatype constructors named after the exception classes.
- **Floats.** Floating-point values in the external data are left out, together with their string conversion.
- **Numeric keys.** Only canonical decimal keys of natural numbers address list positions, matching PHP's integer-key normalisation for them. Negative keys such as `"-5"` and keys beyond PHP's integer range are left out.
- **Lists and dictionaries.** Decoded arrays with keys 0, 1, 2, … in order are `List`. Every other array is a `Dict` keyed by strings.
- **Keys ending in `]`.** Stripping trims every trailing `]` of the whole marker. So `[k]]` names the key `k`, while `[k]|tag]` names `k]`. `TagSegmentIgnored` is stated for keys that do not end in `]`. `TagSegmentKeepsClosingBracket` shows that, for a key that does end in `]`, adding a tag changes what is found.
- **A scalar reached mid-path.** Here `array_key_exists` is modelled as "not found" (ValueNotFound). PHP 8 raises a `TypeError` instead.
- **Non-array data.** `FindValue` requires the data to be an array, as its PHP signature does.
- **The `count === 0` branch of `findValue`** is left out. `Explode` always yields at least one part, and `MarkerPath` proves the branch unreachable.
- **The `switch` on tag names** compares loosely in PHP. No tag name is a numeric string, so it is modelled as string equality.
- **Date and locale libraries.** `DateTime` parsing and `IntlDateFormatter` names are the functions of a `Calendar`. So the concrete words of the date tests are not derived: `wtorek` and `stycznia` come from ICU.
  - Time zones, the time of day and negative years are left out.
  - A formatter that returns false is left out.
- **Check order in `AwsTagDate.render`.** It follows the code: parsing the value comes before the language check.
- **Empty format.** `str_split('')` is taken with PHP 8.2 semantics, an empty list, so an empty format renders the empty string. The assembler never passes one, because an empty format is replaced by the default.
- **Not in this model.** The HTTP action that issues mobile JWT tokens, and the PHPUnit mocks.
- LangTagRendered: requires a non-blank code. The blank case, which the assembler turns into the empty code, is stated separately by `LangWithoutCodeRefused`.
- DateWithoutFormatFails: states only that the render fails. The error is whichever check fails first, and `AwsTagDate.DefaultFormatAlwaysFails` holds the reason.
