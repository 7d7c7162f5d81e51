# GeoZones core, modelled in Dafny

This project models the sequential core of the GeoZones plugin. A zone groups ISO 3166-1
countries and their ISO 3166-2 subdivisions (regions). The model covers three pieces.

- **The GeoZones helper** (`Helpers`). It keeps a list of country codes to filter by. Each
  code is checked against the upper-cased country table. It filters the region catalogue
  by that list.
- **The zone record** (`Model`). Its `Country` and `RegionCodes` columns hold either a JSON
  list or a legacy single value. Saving a zone with "all regions" ticked fills in the
  region codes of its countries.
- **The migration task** (`Tasks`). `up` turns legacy single-valued country columns into
  one-element JSON lists. `down` collapses each list to its first element. Both count the
  zones they change.

Support modules:

- `Wrappers` has `Option` (PHP null), `Result` and `Outcome` (a thrown `LogicException`).
- `Text` has PHP's `strlen` as a UTF-8 byte count, ASCII upper-casing, `explode` and `implode`.
- `Json` is a restricted `json_encode`/`json_decode` for flat lists of strings.

The country table and the region catalogue are framework data. The helper takes them as
its constant fields `isoCountries` (the table's keys) and `isoRegions` (the catalogue
entries). `onBeforeWrite` receives them as parameters. The ORM's list of zones is a
sequence of `Zone` objects that the migration methods update in place.

Three facts about the code shape the model:

- `setCountriesList` empties the list before it validates the new codes. A rejected call
  therefore keeps the codes before the first invalid one (`SetCountriesList`).
- `GeoZonesHelper` defines no region-code filter and no result cache (see "Left out").
- `up` and `down` have no error handling: an exception from `write()` ends the run. The
  model has no failing writes.

## Model

| member | source | states |
|---|---|---|
| Text.Utf8Length | src/Helpers/GeoZonesHelper.php:147 | `strlen` counts bytes: at least one and at most four per character, exactly one per ASCII character |
| Text.Explode | src/Helpers/GeoZonesHelper.php:66-68 | `explode` yields at least one piece; no piece holds the delimiter; joining the pieces with it gives the input back |
| Text.ExplodeJoin | src/Helpers/GeoZonesHelper.php:66 | `explode` undoes `implode` when no piece holds the delimiter |
| Text.JoinPrefix | src/Helpers/GeoZonesHelper.php:66-68 | `implode` starts with the first piece, then the separator and the second piece |
| Json.DecodeEncode | src/Model/Zone.php:69 | decoding the encoding of a list of plain strings gives the list back |
| Json.EncodeDecode | src/Model/Zone.php:69 | whatever decodes is exactly the encoding of what it decodes to |
| Json.PlainDecodesToNothingOrEmpty | src/Tasks/ZoneMigrationTask.php:55-57 | a plain legacy value never decodes to a non-empty list |
| Json.ReadItem | src/Model/Zone.php:69 | a decoded element is a quoted plain string, followed by whatever text comes after its closing quote |
| Json.NextQuote | src/Model/Zone.php:69 | the scanner used by decoding finds the first quote at or after a position |
| Helpers.ValidCountryCode | src/Helpers/GeoZonesHelper.php:140-156 | a valid code is a key of the upper-cased table of one or two characters; for ASCII, valid means exactly two characters and in the table |
| Helpers.FirstInvalid | src/Helpers/GeoZonesHelper.php:225-229 | the position where `setCountriesList`'s loop throws: all codes before it are valid and the code at it is not; it is the length exactly when all are valid |
| Helpers.Search | src/Helpers/GeoZonesHelper.php:203 | `array_search` finds the first occurrence, and nothing exactly when the code is absent |
| Helpers.RemoveFirst | src/Helpers/GeoZonesHelper.php:201-207 | an absent code leaves the list as it is; a present one loses only its first occurrence, the rest keeping their order |
| Helpers.ToRecord | src/Helpers/GeoZonesHelper.php:65-81 | a record keeps the entry's name and code; its country code is the text before the first `-`; its region code is the whole second segment (it runs to the next `-` or to the end of the code), or null when the code has no `-`; its type defaults to "" |
| Helpers.Origins | src/Helpers/GeoZonesHelper.php:64-85 | `getRegionArray` lists exactly the entries that have a code and a name and belong to the list's countries, in catalogue order |
| Helpers.FilterAfterBuild | src/Helpers/GeoZonesHelper.php:71-73 | filtering by a non-empty list equals building every record and then keeping those of the listed countries |
| Helpers.UnfilteredKeepsEveryNamedEntry | src/Helpers/GeoZonesHelper.php:64-83 | with an empty list every entry that has a code and a name yields a record |
| Helpers.FilteredMembership | src/Helpers/GeoZonesHelper.php:64-83 | with a non-empty list a record is returned if and only if it comes from an entry whose country part is listed |
| Helpers.GeoZonesHelper.constructor | src/Helpers/GeoZonesHelper.php:36-39 | a helper made without countries starts with an empty list |
| Helpers.GeoZonesHelper.Create | src/Helpers/GeoZonesHelper.php:36-39 | making a helper with countries succeeds if and only if every code is valid, and the list is then exactly those codes |
| Helpers.GeoZonesHelper.GetCountriesList | src/Helpers/GeoZonesHelper.php:163-166 | every code it returns has passed validation |
| Helpers.GeoZonesHelper.SetCountriesList | src/Helpers/GeoZonesHelper.php:221-233 | it throws if and only if some code is invalid; the list is the input up to the first invalid code, so the whole input when none is |
| Helpers.GeoZonesHelper.AddCountryToList | src/Helpers/GeoZonesHelper.php:177-184 | a valid code is appended, duplicates included; an invalid one throws and leaves the list unchanged |
| Helpers.GeoZonesHelper.RemoveCountryFromList | src/Helpers/GeoZonesHelper.php:195-210 | a valid code loses its first occurrence (none if absent); an invalid one throws and leaves the list unchanged |
| Helpers.GeoZonesHelper.GetRegionArray | src/Helpers/GeoZonesHelper.php:56-86 | the loop returns exactly the filtered records of the catalogue |
| Helpers.GeoZonesHelper.GetRegionsAsObjects | src/Helpers/GeoZonesHelper.php:95-111 | same length and order as the region array, each field copied |
| Model.DecodeOrPromote | src/Model/Zone.php:67-76 | the decode-or-promote rule gives nothing exactly for an unset column, and never an empty list |
| Model.LegacyPromoted | src/Model/Zone.php:71-73 | a legacy value that is not a JSON list becomes the one-element list of itself |
| Model.EncodedReadBack | src/Model/Zone.php:69 | the encoding of a non-empty list of plain strings reads back as that list, in order |
| Model.EmptyListPromoted | src/Model/Zone.php:71-73 | an encoded empty list counts as empty and is promoted like a legacy value |
| Helpers.RegionsFor | src/Helpers/GeoZonesHelper.php:64-85 | walks the catalogue in order, skips entries without a code or a name and, with a non-empty list, entries of unlisted countries, and makes one record per remaining entry |
| Text.UpperKeys | src/Helpers/GeoZonesHelper.php:142-145 | the upper-cased keys of the country table, as `array_change_key_case` with `CASE_UPPER` gives them |
| Text.Join | src/Model/Zone.php:101 | `implode`: the parts with the separator between neighbours, nothing for no parts |
| Json.Decode | src/Model/Zone.php:69 | `json_decode` of a flat list: `[]` is the empty list, a bracketed run of comma-separated quoted plain strings is that list, and every other text is nothing |
| Json.EncodeNullable | src/Model/Zone.php:195 | `json_encode` of a list of strings and nulls: the quoted strings and `null`s, comma-separated, in brackets |
| Json.Encode | src/Tasks/ZoneMigrationTask.php:59 | `json_encode` of a list of strings, as `EncodeNullable` of the present values |
| Model.RegionCodesOf | src/Model/Zone.php:190-192 | the collected codes are the records' region codes, one per record, in order |
| Model.RegionCodesOnWrite | src/Model/Zone.php:187-196 | region codes stay unchanged when "all regions" is off, the country is unset, a country code is invalid, or no region is found |
| Model.OnWriteIdempotent | src/Model/Zone.php:187-196 | saving twice writes the same region codes as saving once |
| Model.OnWriteIgnoresPrior | src/Model/Zone.php:194-196 | when the rule writes, the value depends only on the countries and the catalogue |
| Model.OnWriteReadBack | src/Model/Zone.php:195 | with plain region codes, the written column reads back as exactly the codes of the filtered regions, in catalogue order |
| Model.Zone.constructor | src/Model/Zone.php:24-30 | a new zone has every column at its default |
| Model.Zone.GetCountriesArray | src/Model/Zone.php:67-76 | no list exactly when the column is unset; a legacy value gives the one-element list of itself; the encoding of a non-empty list gives that list back |
| Model.ReadBackAll | src/Model/Zone.php:67-76 | any encoding of a non-empty plain list held by a column reads back as that list |
| Model.Zone.GetRegionCodesArray | src/Model/Zone.php:83-92 | the same three cases for the region-code column |
| Model.Zone.GetCountriesList | src/Model/Zone.php:99-102 | a legacy value is returned as it is; an encoded list comes back joined with commas; an unset column gives no list |
| Model.Zone.OnBeforeWrite | src/Model/Zone.php:181-198 | it throws if and only if the rule applies and a country is invalid; it sets region codes as `RegionCodesOnWrite` says; its frame is the region-code column alone |
| Tasks.NeedsUp | src/Tasks/ZoneMigrationTask.php:55-57 | the test of `up`: the column is set and decodes to nothing or to an empty list |
| Tasks.NeedsDown | src/Tasks/ZoneMigrationTask.php:79-81 | the test of `down`: the column is set and decodes to a list |
| Tasks.DownCountry | src/Tasks/ZoneMigrationTask.php:79-83 | a column that decodes to a list becomes its first element, or unset for an empty list; every other column is kept |
| Tasks.UpCountry | src/Tasks/ZoneMigrationTask.php:55-60 | a set column decoding to nothing or to an empty list becomes the encoding of the list of itself; every other column is kept |
| Tasks.UpSettles | src/Tasks/ZoneMigrationTask.php:57-59 | after `up`, a column no longer needs migrating |
| Tasks.UpIdempotent | src/Tasks/ZoneMigrationTask.php:54-62 | `up` applied twice to a column equals `up` once |
| Tasks.SecondUpIsNoOp | src/Tasks/ZoneMigrationTask.php:52-65 | a second `up` over all zones changes nothing and reports zero |
| Tasks.DownAfterUp | src/Tasks/ZoneMigrationTask.php:82 | `down` after `up` restores a migrated legacy value |
| Tasks.DownAfterUpAll | src/Tasks/ZoneMigrationTask.php:78-86 | `down` after `up` restores every zone holding an unset or plain legacy value |
| Tasks.DownIsLossy | src/Tasks/ZoneMigrationTask.php:81-82 | `down` keeps the first country only; `up` after `down` gives the list of the first country, which differs once there were several |
| Tasks.Count | src/Tasks/ZoneMigrationTask.php:61 | the counter never exceeds the number of zones |
| Tasks.Countries | src/Tasks/ZoneMigrationTask.php:49 | the country column of each zone, in the order the zones are listed |
| Tasks.CountPrefix | src/Tasks/ZoneMigrationTask.php:84 | the counter grows by one exactly for each zone the loop rewrites |
| Tasks.UpZone | src/Tasks/ZoneMigrationTask.php:55-61 | one zone's country becomes its `up` value, and it reports a change exactly when the zone needed one |
| Tasks.DownZone | src/Tasks/ZoneMigrationTask.php:79-84 | one zone's country becomes its `down` value, and it reports a change exactly when the column held a list |
| Tasks.Up | src/Tasks/ZoneMigrationTask.php:47-66 | each zone's country becomes its `up` value and the count is the number of zones that needed it; no other column changes |
| Tasks.Down | src/Tasks/ZoneMigrationTask.php:71-89 | each zone's country becomes its `down` value and the count is the number of zones holding a list; no other column changes |

## Left out

- The country table and the region catalogue are parameters. The ISO data files and the
  counts that depend on them (4837, 224, 57, 19, 300 regions) are not part of this model.
- `validCountryCode`, `getRegionArray` (its country filter) and `removeCountryFromList` use
  PHP's loose `in_array` and `array_search`. The model compares strings exactly. The two agree unless a code looks
  numeric, and ISO country codes are letters.
- Upper-casing of the table keys is ASCII only, as `array_change_key_case` does it.
- JSON is modelled only for flat lists of plain strings. A plain string is printable ASCII
  other than `"`, `\` and `/`; `json_encode` writes these without escapes. Every other text
  decodes to nothing. That includes escapes, whitespace between tokens, numbers, booleans,
  objects and `null` elements. PHP's `empty()` rules for decoded scalars are not modelled.
- A catalogue entry's `code`, `name` and `type` are `Option`s, so a key holding null is read
  as a missing key. PHP's `array_key_exists` is true for such a key: it would build a record
  for a null `code` or `name`, and give type null rather than "" for a null `type`.
- `EncodeItem` writes every string between quotes as it is. For a string with `/`, `"`, `\`,
  a control character below U+0020 (which `json_encode` writes as `\n`, `\t` or `\u00XX`)
  or a non-ASCII character, the text that `UpCountry` and `RegionCodesOnWrite` store
  therefore differs from `json_encode`'s, which escapes those characters.
- `isset` on a column (`Zone.php` lines 71, 87 and 187, `ZoneMigrationTask.php` line 57)
  is read as "the column is not null", and an unset column is `None`. If the ORM's magic
  `isset` holds for every declared column, PHP behaves differently for a null column:
  `getCountriesArray` gives `[null]`, `up` rewrites it to `[null]` and counts it, and
  `onBeforeWrite` with all regions ticked throws. The ORM is not part of this model.
- Tasks.UpSettles: proved only for columns that are unset, plain or a list encoding,
  because the model's JSON does not escape other characters. PHP's escaping `json_encode`
  settles every string.
- Tasks.DownAfterUp: proved only for plain legacy values, for the same reason. PHP
  round-trips every string.
- Tasks.UpIdempotent: proved only for columns that are unset, plain or a list encoding,
  because the model's JSON does not escape other characters.
- Tasks.SecondUpIsNoOp: same restriction as Tasks.UpIdempotent.
- Tasks.DownAfterUpAll: proved only for plain legacy values, for the same reason.
- Model.OnWriteReadBack: `json_encode` writes a missing region code as `null`
  (`EncodeNullable`). The model does not decode `null` elements, so the read-back is
  proved only when every region code is present and plain.
- Tasks.Down: `down` on an encoded empty list reads a missing element. PHP warns and
  yields null; the model leaves the column unset.
- `Zone::write()` in the migration task is persistence only here. The model does not run
  the `onBeforeWrite` hook again during the migration.
- `Zone::get()` lists every zone once. `Up` and `Down` require the zones to be distinct
  objects.
- `setLimitRegionCodes` and `clearRegionCache` are called by the tests and by
  `Zone::getRegionsArray`, but the helper does not define them. They are not modelled,
  and neither are `Zone::getRegionsArray` and `getRegionsCount`, which need them.
- `getISOCountries` is not modelled. The helper's `isoCountries` stands for the keys of the
  `i18n` country table that `validCountryCode` reads.
- `Zone::getCMSFields`, `Zone::requireDefaultRecords`, `ZoneMigrationTask::run` and `log`
  build forms, trigger the task, dispatch requests or print output.
- The region seeding in `Region.php`, the region dropdown field, the site-config
  extension and the browser script are framework, database or user-interface code.
- Model.Zone.GetCountriesList: an unset column gives no list. With `isset` read as "not
  null", PHP 8 raises a TypeError in `implode` there; if the ORM's `isset` holds for the
  null column, PHP gives `""` instead. Neither is modelled.
