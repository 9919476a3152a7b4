# KEBA KeEnergy client: name resolution and batch read/write engine

This project models the pure core of the `keba_keenergy_api` Python client for
KEBA KeEnergy heat-pump controllers, plus the single-entry payload builder of
the older `keba_keyenergy_api` package. The client talks to the device by
posting JSON lists of variable names to `/var/readWriteVars`. Its core is pure
and sequential: it turns a request of controls and positions into a list of
dot-path names, and re-walks the same plan to decode the device's reply.

The modules follow the program's structure:

- `wrappers.dfy` (`Wrappers`): `Option` and `Result`.
- `text.dfy` (`Text`): `str.upper`/`str.lower`, `str.replace(pat, "")`, decimal `str(int)`/`int(str)`, and the texts `float(str)` accepts.
- `dicts.dfy` (`Dicts`): insertion-ordered Python dictionaries as association lists.
- `constants.dfy` (`Constants`):
  - the control registry: five groups, each control's suffix, value kind, read-only flag and optional enumeration;
  - the three `IntEnum`s, the `*_PREFIX` strings and `SystemPrefix`.
- `paths.dfy` (`Paths`): `Position`, the position arguments, `_get_position_index` and `_get_position`, and the dot-path of a control.
- `responses.dfy` (`Responses`): reply entries, decoded values, the errors the client raises, and the reply post-processing of `_post`.
- `reads.dfy` (`Reads`):
  - the read plan (control-major, index-minor);
  - `_generate_read_payload`, `_convert_value`, `_clean_attributes` and `_get_real_key`;
  - the lock-step decode loop of `_read_values`.
- `writes.dfy` (`Writes`): `_generate_write_payload`.
- `sections.dfy` (`Sections`):
  - the value lists of the `set_*` methods and the operating-mode lookup;
  - the element a `get_*` method picks;
  - `OptionsSection.get_positions`.
- `api.dfy` (`Api`): `KebaKeEnergyAPI.device_url`, the bucketing loop of `read_data`, and `write_data`.
- `legacy.dfy` (`Legacy`): `BaseEndpoint._get_payload` of `keba_keyenergy_api`, its per-section payload types, its setters and its request URL.

Modelling choices:

- **Payloads are datatypes, not JSON text.** A read payload is a sequence of `ReadEntry(name, attr)`. A write payload is a sequence of `WriteEntry(name, value)`.
- **No reflection.** The source uses `importlib` and a CamelCase regex to find a group's prefix and key stem. Here these are total functions over the group datatype: `KeyPrefix`, `GroupStem`, `PositionKey` and `SystemPrefix`.
- **Errors are values.** Python exceptions become `Err` values of `ApiError`: `IndexError` on a short reply, `KeyError` on an entry without `value`, `ValueError` from `int()` and `float()`, `AttributeError` on `null` attributes, the human-readable `APIError`, `KeyError` in the mode lookup, `IndexError` in getters, and the `TypeError` of `Position(**fields)`.
- **The reply is a parameter.** Each read is modelled as a `ReadExchange`: the payload sent, and the result decoded from a reply that the caller supplies.
- **Extra reply entries are ignored.** A reply longer than the request is not rejected: the code never reads entries past the plan (`Reads.DecodeIgnoresSurplus`).
- **`read_data` bucket prefixes are parameters.** The bucketing loop imports `Section` and `SectionPrefix`, which `constants.py` of the same package does not define. The four `SectionPrefix` strings are therefore abstract parameters (`Api.SectionPrefixes`).

## Model

| member | source | states |
|---|---|---|
| Constants.MembersWellFormed | keba_keenergy_api/constants.py:18-37 | Each of the three enumerations has distinct, non-empty member names and codes 0, 1, 2, … in declaration order. |
| Constants.FindByCodeRange | keba_keenergy_api/constants.py:18-37 | Looking up a code in a contiguous member list succeeds exactly for codes inside the range, and yields the member at that offset. |
| Constants.FindByNameIndex | keba_keenergy_api/constants.py:18-37 | With distinct names, looking up a member's name returns that member's own code. |
| Constants.FindByNameFound | keba_keenergy_api/constants.py:18-37 | A successful name lookup is backed by a member with that name and that code. |
| Constants.EnumCodes | keba_keenergy_api/constants.py:18-37 | `IntEnum(code)` names a member iff 0 <= code < member count. The counts are 4 (hot-water tank modes), 3 (heat-pump status) and 6 (heat-circuit modes). |
| Constants.EnumNameCodeInverse | keba_keenergy_api/constants.py:18-37 | Code-to-name and name-to-code are inverse to each other, in both directions. |
| Constants.KeyPrefixUnderRoot | keba_keenergy_api/constants.py:40-44 | Every group prefix is `APPL.CtrlAppl.sParam.` followed by a non-empty all-letter leaf. Distinct groups have distinct leaves. |
| Constants.SystemPrefixIsStem | keba_keenergy_api/constants.py:117-124 | Each `SystemPrefix` is the group's upper snake-case class name followed by `_`. |
| Constants.SystemPrefixesDiverge | keba_keenergy_api/constants.py:117-124 | The `SystemPrefix` strings of two different groups differ at a position both have, so neither is a prefix of the other. |
| Constants.PositionKeyIsLowerStem | keba_keenergy_api/endpoints.py:132-133 | The `Position` field looked up for a group is the group's snake-case class name in lower case. |
| Constants.WritableExactly | keba_keenergy_api/constants.py:47-114 | `read_only` defaults to true. A control is writable iff it is one of the eight controls that override it. |
| Constants.HumanReadableControls | keba_keenergy_api/constants.py:64-114 | Every control that declares an enumeration is integer-typed. Exactly the two operating modes and the heat-pump status carry one, each its own enumeration. |
| Constants.SuffixesDistinct | keba_keenergy_api/constants.py:54-114 | Within one group, the path suffix determines the control, and so does the member name. |
| Constants.OptionsDistinct | keba_keenergy_api/constants.py:54-57 | The three Options controls have distinct suffixes and distinct member names. |
| Constants.HotWaterTankDistinct | keba_keenergy_api/constants.py:64-77 | The hot-water tank controls have distinct suffixes and distinct member names. |
| Constants.HeatPumpSuffixes | keba_keenergy_api/constants.py:80-97 | Heat-pump suffixes are pairwise distinct. |
| Constants.HeatPumpNames | keba_keenergy_api/constants.py:80-97 | Heat-pump member names are pairwise distinct. |
| Constants.HeatCircuitSuffixes | keba_keenergy_api/constants.py:100-114 | Heat-circuit suffixes are pairwise distinct. |
| Constants.HeatCircuitNames | keba_keenergy_api/constants.py:100-114 | Heat-circuit member names are pairwise distinct. |
| Constants.OptionsKeyField | keba_keenergy_api/endpoints.py:322 | Each `X_NUMBERS` member name is the counted group's stem followed by `_NUMBERS`. Stripping `_NUMBERS` and lower-casing gives that group's `Position` field name. |
| Text.Upper | keba_keenergy_api/endpoints.py:405 | `str.upper` of ASCII text keeps the length and maps each character through the ASCII map. Its result is ASCII exactly when every character is ASCII or one of the ten characters whose Python upper case is ASCII (ı, ſ, ß and the ligatures ﬀ to ﬆ), which may lengthen the text. |
| Text.Lower | keba_keenergy_api/endpoints.py:169 | `str.lower` on ASCII text, which is all the core lower-cases (member names, class stems, `X_NUMBERS` keys, `inf`/`nan`): it keeps the length and maps each character through the ASCII lower-case map. |
| Text.RemoveAll | keba_keenergy_api/api.py:87 | `str.replace(pat, "")` never lengthens the text, and removes a leading occurrence before scanning the rest. |
| Text.RemoveAllTrailing | keba_keenergy_api/endpoints.py:322 | Removing a pattern from text that ends in it, where the text cannot start an occurrence, leaves exactly the text before it. |
| Text.IntRoundTrip | keba_keenergy_api/endpoints.py:252 | `int(str(i)) == i` for every integer, so a printed integer parses back. |
| Text.IntToStringInjective | keba_keenergy_api/endpoints.py:252 | Distinct integers print differently. |
| Text.IntTextIsFloatText | keba_keenergy_api/endpoints.py:164 | Every text `int()` reads, `float()` reads too. |
| Text.StripPadding | keba_keenergy_api/endpoints.py:164 | The whitespace `float()` ignores (ASCII tab, line feed, vertical tab, form feed, carriage return and space, and the non-ASCII characters `str.isspace()` holds for) is exactly the padding around a text that neither starts nor ends with such whitespace. |
| Text.FloatTextAccepts | keba_keenergy_api/endpoints.py:164 | `float()` accepts `42.5`. |
| Text.FloatTextInfinity | keba_keenergy_api/endpoints.py:164 | `float()` accepts a signed infinity in upper case, `-INF`. |
| Text.FloatTextRejectsSeparator | keba_keenergy_api/endpoints.py:164 | `float()` raises `ValueError` on a leading U+001C: that separator is not stripped, although `str.isspace()` holds for it. |
| Text.FloatTextPadded | keba_keenergy_api/endpoints.py:164 | `float()` accepts padding, an underscore between digits and a signed exponent (`" 1_0e-2\n"`). |
| Text.FloatTextRejects | keba_keenergy_api/endpoints.py:164 | `float()` raises `ValueError` on the empty text and on a word. |
| Text.FloatTextRejectsUnderscores | keba_keenergy_api/endpoints.py:164 | `float()` raises `ValueError` on a doubled underscore. |
| Dicts.Put | keba_keenergy_api/api.py:88 | `d[k] = v`: `k` now maps to `v` and every other key is unchanged. A new key goes at the end; an existing key keeps its place. Distinct keys are preserved. |
| Dicts.AppendTo | keba_keenergy_api/endpoints.py:225-237 | Get-or-create the list under `k` and append `v`. Other keys are unchanged, and a new key goes at the end. |
| Responses.NormalizeReply | keba_keenergy_api/endpoints.py:98-104 | A `developerMessage` object raises `APIError` with that message, and only such an object fails. Another object becomes a one-element list; a list passes through. |
| Responses.NormalizeSingle | keba_keenergy_api/endpoints.py:101-102 | A single-object reply and the one-element list holding it normalise to the same single entry. |
| Paths.PositionFieldOfGroup | keba_keenergy_api/endpoints.py:132-133 | Looking up a group's field in a `Position` yields that group's count, and nothing for Options and Outdoor. |
| Paths.NormalizePositions | keba_keenergy_api/endpoints.py:200-201 | An integer or `None` becomes a one-element list, a list is kept, and a `Position` stays a count record. |
| Paths.Range | keba_keenergy_api/endpoints.py:134 | `list(range(n))` has max(n, 0) elements, and element i is i. |
| Paths.PositionIndex | keba_keenergy_api/endpoints.py:129-130 | An Options control is always read un-indexed, exactly once. |
| Paths.PositionIndexOfCounts | keba_keenergy_api/endpoints.py:131-134 | A count n other than 0 yields indices 0..n-1. A count of 0, or no field for the group (Outdoor), yields the single un-indexed `[None]`. |
| Paths.PositionIndexOfList | keba_keenergy_api/endpoints.py:135-136 | A caller list keeps its length, `q` becomes `q-1` and `None` stays `None`. Adding one back recovers the caller's list. |
| Paths.IndexText | keba_keenergy_api/endpoints.py:121-124 | An index renders as `[i]`; `None` renders as nothing, and only `None` does. |
| Paths.PathOfInjective | keba_keenergy_api/endpoints.py:155 | The name `prefix + index + "." + suffix` determines the group, the index and the suffix. |
| Paths.DotPathInjective | keba_keenergy_api/endpoints.py:155 | Distinct (control, index) pairs get distinct variable names. |
| Reads.AdmitsAgree | keba_keenergy_api/endpoints.py:151-221 | The payload filter (`is None`) and the decoder filter (`not`) agree for every filter except the empty list. There the payload admits nothing and the decoder admits everything. |
| Reads.ControlPlan | keba_keenergy_api/endpoints.py:150-152 | A filtered-out control contributes no slots. An admitted control contributes one slot per wire index, in order. |
| Reads.PlanConcat | keba_keenergy_api/endpoints.py:150-152 | The plan of a concatenated request is the concatenation of the plans (control-major order). A one-control request's plan is that control's slots. |
| Reads.PlansAgree | keba_keenergy_api/endpoints.py:151-221 | Payload plan and decoder plan coincide unless the filter is the empty list. For the empty list the payload plan is empty, while the decoder plan is the unfiltered plan. |
| Reads.AttrFlag | keba_keenergy_api/endpoints.py:156 | `attr` is `"1"` iff extra attributes are requested, and `"0"` otherwise. |
| Reads.ReadPayloadFollowsPlan | keba_keenergy_api/endpoints.py:140-160 | Payload entry k names the dot-path of plan slot k, and carries the attribute flag. |
| Reads.ReadPayloadLength | keba_keenergy_api/endpoints.py:150-158 | The payload length is the sum, over the controls passing the filter, of the sizes of their index lists. |
| Reads.Convert | keba_keenergy_api/endpoints.py:163-175 | An entry without `value` raises `KeyError`. A float control succeeds iff `float()` accepts the text, a string control always succeeds, and an integer control raises `ValueError` on text `int()` rejects. No other errors arise, and an integer control yields a name only when rendering is on and it has an enumeration. |
| Reads.ConvertIntegerText | keba_keenergy_api/endpoints.py:164 | A float control accepts every integer text and keeps it. |
| Reads.ConvertEnumeration | keba_keenergy_api/endpoints.py:163-175 | With rendering on, a known code becomes the member's lower-case name, and an unknown code raises the error naming the entry. With rendering off, the raw code comes back. |
| Reads.DropTruthy | keba_keenergy_api/endpoints.py:181-183 | A key is kept iff it is not one of the listed keys holding a truthy value. Kept values are unchanged. |
| Reads.CleanAttributesExactly | keba_keenergy_api/endpoints.py:178-185 | Cleaning raises `AttributeError` exactly when `attributes` is `null`, and a missing `attributes` cleans to `{}`. `longText`, `formatId`, `dynLowerLimit` and `dynUpperLimit` are removed only when present with a truthy value. Every other attribute keeps its key and value. |
| Reads.RealKeyPrefix | keba_keenergy_api/endpoints.py:106-113 | With the prefix, the response key is the group's `SystemPrefix` plus the member name, and it determines the control; without the prefix it is the member name. |
| Reads.DecodeEntry | keba_keenergy_api/endpoints.py:228-235 | An entry decodes iff its value converts and its attributes are not `null`. The value's error comes first: a missing `value` is reported even when the attributes are `null`. |
| Reads.StepOf | keba_keenergy_api/endpoints.py:223-235 | One decode step fails exactly when decoding the entry fails, with the same error. Otherwise it files the decoded value under the response key. |
| Reads.DecodeSucceeds | keba_keenergy_api/endpoints.py:220-238 | Decoding succeeds iff, for every plan slot k, reply entry k exists and decodes. |
| Reads.DecodeLockStep | keba_keenergy_api/endpoints.py:220-238 | The list under each key is what it held before, followed by the values decoded from the reply entries at that key's slot positions, in order. Slot k consumes exactly reply entry k. |
| Reads.DecodeKeys | keba_keenergy_api/endpoints.py:225-226 | Every key of a slot appears in a successful result, even one that held nothing before. |
| Reads.DecodeDistinctKeys | keba_keenergy_api/endpoints.py:220-238 | When the slots' keys are pairwise distinct and new, the result appends one single-value entry per slot, in plan order. |
| Reads.DecodeSingle | keba_keenergy_api/endpoints.py:220-238 | A one-slot plan decodes the reply's first entry into a one-element list under its key. |
| Reads.DecodeIgnoresSurplus | keba_keenergy_api/endpoints.py:220-238 | Reply entries beyond the plan are never read: dropping them does not change the result. |
| Reads.ValuesPerControl | keba_keenergy_api/endpoints.py:222-237 | With key prefixes, the list under a control's key has one value per plan slot of that control. |
| Reads.ReadValuesAgree | keba_keenergy_api/endpoints.py:187-240 | For an absent or non-empty filter, `_read_values` as written and the corrected version send the same payload and decode the same result. |
| Reads.EmptyFilterMismatch | keba_keenergy_api/endpoints.py:151-221 | With an empty filter list the payload is empty, yet the decoder as written expects an entry and fails. The corrected read returns an empty result. |
| Reads.ReadValuesLockStep | keba_keenergy_api/endpoints.py:187-240 | Payload entry k names plan slot k, and the read succeeds iff the reply is decodable. On success each key's list is exactly the values decoded for its slots. |
| Writes.Show | keba_keenergy_api/endpoints.py:252 | `str(value)`: an integer parses back to itself, and float and string values keep their text. |
| Writes.ValueEntries | keba_keenergy_api/endpoints.py:247-254 | One entry per present slot, in order. Each entry names the control at the slot's index and carries the printed value. |
| Writes.PresentSlotsExactly | keba_keenergy_api/endpoints.py:247-248 | (i, v) is written iff slot i of the value list holds `v`, so `None` slots are skipped. |
| Writes.ValueEntriesCount | keba_keenergy_api/endpoints.py:247-254 | A writable control contributes as many entries as its list has non-`None` values. |
| Writes.WritePayloadConcat | keba_keenergy_api/endpoints.py:242-256 | The payload is control-major in mapping order. A read-only control contributes nothing; a writable one contributes its value entries. |
| Writes.ReadOnlyDropped | keba_keenergy_api/endpoints.py:246 | Read-only controls are silently dropped, and writable ones write their value entries. |
| Sections.SetterValues | keba_keenergy_api/endpoints.py:449 | The setter list for position p has length p (empty for p <= 0). |
| Sections.SetterSlots | keba_keenergy_api/endpoints.py:449 | Only slot p-1 of the setter list is filled, and with the given value. |
| Sections.SetterWritesOne | keba_keenergy_api/endpoints.py:447-450 | A setter at position p >= 1 sends exactly one entry: its control at wire index p-1, with the printed value. Position < 1 sends nothing. The holiday setter (lines 708-711) targets a read-only control and sends nothing. |
| Sections.SetterMatchesGetter | keba_keenergy_api/endpoints.py:436-450 | The variable a setter writes at position p is the one variable the read at position p asks for. |
| Sections.ResolveMode | keba_keenergy_api/endpoints.py:404-408 | An integer mode passes unchecked. A failed name lookup is "Invalid operating mode!". |
| Sections.ResolveModeName | keba_keenergy_api/endpoints.py:405 | A name resolves to n iff its `str.upper` form is member n's name, so names with the same upper case resolve alike. |
| Sections.NonAsciiNameRejected | keba_keenergy_api/endpoints.py:405-408 | A name whose upper case is not ASCII matches no member and raises "Invalid operating mode!". |
| Sections.DotlessNameResolves | keba_keenergy_api/endpoints.py:747-757 | `"nıght"` (dotless i) selects the heating circuit's NIGHT mode, code 3. |
| Sections.LigatureNameResolves | keba_keenergy_api/endpoints.py:402-412 | `"oﬀ"` (ff ligature) upper-cases to `OFF` and selects the hot-water tank's mode 0. |
| Sections.MemberNamesConstant | keba_keenergy_api/constants.py:18-37 | Every enumeration member name is an upper-case constant name. |
| Sections.ModeNameRoundTrip | keba_keenergy_api/endpoints.py:405 | The lower-case name that a human-readable read returns resolves back to the same code. |
| Sections.SetOperatingMode | keba_keenergy_api/endpoints.py:747-757 | Setting a mode fails iff the mode argument does not resolve to a code, so an unknown name yields no write at all. |
| Sections.SetOperatingModeByName | keba_keenergy_api/endpoints.py:402-412 | A mode set by name at position p writes the member's code at wire index p-1. The device's echo of that code renders back as the same lower-case name. |
| Sections.ModeCodeRendersBack | keba_keenergy_api/endpoints.py:167-169 | A reply carrying a mode's code renders, with rendering on, as that mode's lower-case name. |
| Sections.PyIndex | keba_keenergy_api/endpoints.py:382 | Python list indexing succeeds iff -len <= i < len, and a non-negative index selects element i. |
| Sections.SingleRead | keba_keenergy_api/endpoints.py:373-379 | A getter's read sends one entry for its control at the translated index. It succeeds iff the reply's first entry decodes. |
| Sections.SingleReadValue | keba_keenergy_api/endpoints.py:373-382 | On success, the list under the control's key is exactly the one value decoded from the first reply entry. |
| Sections.GetterReadsItsPosition | keba_keenergy_api/endpoints.py:373-382 | The corrected getter returns the value decoded from the single reply entry, for every position. |
| Sections.GetterAgreesAtFirst | keba_keenergy_api/endpoints.py:380 | For position `None`, 0 or 1, the getter as written agrees with the corrected one. |
| Sections.GetterSecondPosition | keba_keenergy_api/endpoints.py:380-382 | For position 2 the getter as written fails with `IndexError` on a well-formed reply; the corrected getter returns the value. |
| Sections.MakePosition | keba_keenergy_api/endpoints.py:322 | `Position(**fields)` succeeds iff every key is a field name and all three fields are present. Each field then holds the count given for it. |
| Sections.PositionsPlanOf | keba_keenergy_api/endpoints.py:312-334 | `get_positions` reads the three counts un-indexed, in the order heat pump, heat circuit, hot-water tank. |
| Sections.PositionsPayload | keba_keenergy_api/endpoints.py:324-332 | `get_positions` sends the three un-indexed count names, each asking for attributes. |
| Sections.PositionsDecoded | keba_keenergy_api/endpoints.py:312-334 | Three integer reply entries, with attributes missing or an object, decode to the three counts, under the un-prefixed member names, in request order. |
| Sections.PositionsFields | keba_keenergy_api/endpoints.py:322 | The decoded counts become the three fields `heat_pump`, `heat_circuit` and `hot_water_tank`. |
| Sections.PositionOfFields | keba_keenergy_api/endpoints.py:322 | The three fields build the `Position` holding the three counts. |
| Sections.GetPositionsRoundTrip | keba_keenergy_api/endpoints.py:312-322 | For any reply whose first three entries are integers with attributes missing or an object, `get_positions` returns the `Position` of exactly those counts. |
| Api.DeviceUrl | keba_keenergy_api/api.py:33-35 | The device URL is the scheme, then `://`, then the host. |
| Api.DeviceUrlScheme | keba_keenergy_api/api.py:25 | The URL starts with `https://` iff `ssl` is set. |
| Api.DeviceUrlInjective | keba_keenergy_api/api.py:25-35 | The URL determines both the host and the `ssl` flag. |
| Api.MatchBucketFirst | keba_keenergy_api/api.py:86-97 | A key lands in bucket b iff it starts with b's prefix and with no earlier prefix in the `elif` chain. It lands nowhere iff no prefix matches. |
| Api.BucketItem | keba_keenergy_api/api.py:88-97 | The system bucket stores `value[0]` and fails with `IndexError` exactly on an empty list. The other buckets store the whole list. |
| Api.EmptySections | keba_keenergy_api/api.py:76-81 | The initial result holds exactly the four bucket prefixes, each mapped to an empty dict. |
| Api.FileAllSnoc | keba_keenergy_api/api.py:83-97 | The loop over a response with one more entry files that entry on top of the result for the shorter response. |
| Api.FileAllFails | keba_keenergy_api/api.py:88 | The loop fails iff some entry filed into the system bucket has an empty list, and the error is `IndexError`. |
| Api.FileAllKeepsBuckets | keba_keenergy_api/api.py:83-97 | Filing never adds or removes top-level keys. |
| Api.ReadDataBuckets | keba_keenergy_api/api.py:76-99 | The result always holds the four buckets, even empty ones, and nothing else. |
| Api.UnmatchedDropped | keba_keenergy_api/api.py:83-97 | A key that matches no prefix is dropped, and nothing else changes. |
| Api.FileEntryView | keba_keenergy_api/api.py:86-97 | One entry changes only its own bucket, and there only the key `replace(lower(key), prefix + "_", "")`. |
| Api.FileAllView | keba_keenergy_api/api.py:83-97 | In every bucket and under every key, the loop keeps the last entry filed there and leaves the rest as it found it. |
| Api.ReadDataView | keba_keenergy_api/api.py:76-99 | What `read_data` returns under a bucket and key is the last response entry filed there, or nothing. |
| Api.WriteData | keba_keenergy_api/api.py:101-103 | `write_data` posts to the set action. The payload is as long as the write payload of the request, and every value entry of every writable control reaches it. |
| Api.WriteDataCovers | keba_keenergy_api/api.py:101-103 | Every value entry of every writable control in the request is in the payload. |
| Legacy.PayloadTypeIsKeyPrefix | keba_keyenergy_api/endpoints.py:53 | Each legacy section's fixed payload type (also lines 95 and 177) is the current client's prefix for the same group. |
| Legacy.LegacyIndex | keba_keyenergy_api/endpoints.py:40 | `None` and 0 both select index 0, and any other position p selects p-1. |
| Legacy.LegacyPayload | keba_keyenergy_api/endpoints.py:38-46 | The payload is a one-element list. Its `value` field is present iff a value is given, and then equals it. |
| Legacy.LegacyNameIsPath | keba_keyenergy_api/endpoints.py:40 | A legacy name is always indexed. It equals the current client's dot-path for the same group, index and key. |
| Legacy.LegacyAgreesWithDotPath | keba_keyenergy_api/endpoints.py:40 | For a control's own suffix at position p != 0, the legacy name is the variable the current client reads at wire index p-1. |
| Legacy.LegacyNameInjective | keba_keyenergy_api/endpoints.py:40 | A legacy name determines the section, the index and the key. |
| Legacy.LegacyOutdoorAgrees | keba_keyenergy_api/api.py:24-31 | The legacy outdoor-temperature name is the current client's un-indexed outdoor temperature path. |
| Legacy.ReadBackKey | keba_keyenergy_api/endpoints.py:55-254 | The getter that reads back each setter's variable is in the setter's section and reads the setter's key; for the heating circuit's `set_temperature` it is `get_day_temperature`. |
| Legacy.NamesakeKey | keba_keyenergy_api/endpoints.py:55-254 | A setter's same-named getter is in its section and reads its key, except the heating circuit's `get_temperature`, which reads another key than `set_temperature` writes. |
| Legacy.LegacySetRoundTrip | keba_keyenergy_api/endpoints.py:179-194 | A setter posts `str(value)` to `?action=set` under the name its read-back getter reads (for the heating circuit's `set_temperature`, `get_day_temperature`), and the value parses back to the integer given. The getter sends no value. |
| Legacy.NamesakeReadsBack | keba_keyenergy_api/endpoints.py:179-194 | A setter writes the name its same-named getter reads iff it is not the heating circuit's `set_temperature`: that one writes `param.normalSetTemp`, while `get_temperature` reads `values.setValue`. |
| Legacy.SetterControlOf | keba_keyenergy_api/endpoints.py:65-254 | Each legacy setter's current control belongs to the setter's section, has the setter's key as its suffix, and is declared writable. |
| Legacy.LegacySettersWritable | keba_keyenergy_api/endpoints.py:184-189 | Every legacy setter writes a variable that the current client declares writable, under the same name. |
| Legacy.LegacyGetUrlAsWritten | keba_keyenergy_api/endpoints.py:27 | As written, every getter posts to the read path with `None` appended, which is not the read path. |
| Legacy.LegacyUrlsAgree | keba_keyenergy_api/endpoints.py:18-27 | With a missing endpoint read as empty, getters post to the read path and setters to the set path of the current client. |

## Left out

- The I/O of `_post` in both packages is not modelled: aiohttp sessions, timeouts, TLS and JSON (de)serialisation. Only the reply post-processing is modelled (`Responses.NormalizeReply`), and replies enter every read as a parameter.
- JSON text encoding is not modelled: payloads are sequences of datatypes. Attribute values are limited to null, bool, int and string; floats and nested containers are outside the model.
- Responses.ResponseEntry: a `value` that is not a JSON string (a number or `null`) and an `attributes` member that is neither `null` nor an object are outside the model. A missing `value` (`KeyError`) and `null` attributes (`AttributeError`) are modelled.
- Which texts `float()` accepts is modelled (`Text.IsFloatText`), and so is its `ValueError`. The number it yields and `round(value, 2)` are floating point and are not modelled: float values keep the device's text (`FloatValue`), and `Writes.Show` prints them back unchanged.
- Text.IsFloatText and Text.ParseInt do not accept non-ASCII decimal digits, which CPython converts to ASCII before parsing.
- `int()` parsing is modelled on an optional `+` or `-` followed by ASCII digits. Python's `int()` also accepts surrounding whitespace and underscores between digits; those inputs are outside the model.
- Text.Upper: a non-ASCII character outside the ten whose upper case is ASCII is kept, not upper-cased. Its Python upper case is non-ASCII as well, so every comparison with the ASCII member names comes out as in Python, but the text itself is not Python's.
- The legacy getters' `* 100` scaling and `float(...)` results are floating point and are not modelled.
- The `DeviceSection` getters are not modelled. They read fields of a device-info reply and carry no name resolution.
- The per-control `get_*` methods are modelled once, generically, by `Sections.Getter`/`Sections.GetterAsWritten`; each method differs only in its control and its final `float`/`int`/`str` cast. `get_lower_limit_temperature` and `get_upper_limit_temperature` read attributes rather than the value; their `_idx` arithmetic is the same as above, and their attribute read is not modelled.
- The `get_number_of_*` methods of `OptionsSection` are not modelled separately: each is one `Reads.ReadValues` call followed by an `int` of element 0.
- The automatic `get_positions` call in `read_data` when no position is given is request sequencing, so it is not modelled. `Api.ReadData` takes the decoded response.
- The values of the `SectionPrefix` strings used by `read_data` are not part of this model (see above), so they are parameters.
- `importlib` and the CamelCase `KEY_PATTERN` regex are replaced by static group tables.
- Python's position arguments are a datatype (`Paths.PositionArg`). A bare `int` and a `bool` are not distinguished.
- `keba_keyenergy_api/constants.py` is not modelled: its bare integer constants are covered by the enumerations of the current package.
- The legacy getters' requests are modelled by `Legacy.LegacyRead` over the key table `Legacy.GetterKey`; what they do with the reply (scaling, `float`/`int`) is left out as stated above.
- Sections.PositionFields: its non-integer branch (`BadPositionFields`) is modelled but no lemma reaches it. The Options controls are integer-typed, so a successful decode never yields a non-integer count.
- Sections.SetterWritesOne: it states that `set_holiday_temperature` sends an empty write. Its control is declared read-only, so the write payload drops it. This is modelled as written: whether the control or the setter is wrong cannot be decided from the source.

## Findings

| source | as written | input that shows it | evidently intended | confidence | as-written member | corrected member |
|---|---|---|---|---|---|---|
| keba_keenergy_api/endpoints.py:151-221 | The payload filter tests `allowed_type is None`, but the decoder tests `not allowed_type`. An empty filter list therefore sends no entries, while the decoder still walks every control. | `_read_values([HotWaterTank.TEMPERATURE], position=1, allowed_type=[])` with an empty reply: the payload is empty and the decoder fails with `IndexError`. | The decoder walks the same plan as the payload, so the result is empty. | not executed | Reads.ReadValuesAsWritten, Reads.EmptyFilterMismatch | Reads.ReadValues, Reads.ReadValuesAgree |
| keba_keenergy_api/endpoints.py:380-382 | The getters read one position, which yields a one-element list, and then index it at `position - 1`. | `HotWaterTankSection.get_temperature(position=2)` with a one-entry reply: element 1 of a one-element list raises `IndexError`. | Take element 0 of the list the read returns. | not executed | Sections.GetterAsWritten, Sections.GetterSecondPosition | Sections.Getter, Sections.GetterReadsItsPosition |
| keba_keyenergy_api/endpoints.py:27 | The URL is `f"{self._base_url}{endpoint}"`, and getters pass no endpoint, so the text `None` is appended. | Any legacy getter, e.g. `get_temperature()`, posts to `…/var/readWriteVarsNone`. | Append nothing when no endpoint is given, as the current client does at keba_keenergy_api/endpoints.py:84. | not executed | Legacy.LegacyUrlAsWritten, Legacy.LegacyGetUrlAsWritten | Legacy.LegacyUrl, Legacy.LegacyUrlsAgree |
