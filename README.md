# DBF export core of the San Pablo dashboard, in Dafny

This project models the data-handling core of the San Pablo store dashboard and proves
properties of it. The core is:

- **The DBF worker** (`dbf.worker.ts`). It decodes a Visual FoxPro table and turns its records into
  CSV, in one of two formats: the raw columns, or the fixed "API format". The API format maps each
  record through fuzzy field lookup, decimal-comma numbers, two-decimal prices, slugs and a
  deletion flag. The worker reports progress and results to the page as messages.
- **The Python reference exporter** (`dbf-to-csv-parser.py`). It writes the same API-format
  columns and has offset/limit export loops for both formats, but its mapper is not the worker's.
  The `PyExporter` rows below state what it does. The differences are:
  - it reads one exact key per column (`STCODIGO`, `STDESCRIP`, `STDETALLE` then `STDESCRIP`,
    `STNOMFAM`, `STFAMILIA`), where the worker tries lists of candidate names, matched loosely;
  - the deletion flag is `STBORRAR` alone, where the worker takes the first of six fields that is
    not nullish;
  - numbers go through `float()`, which has no decimal-comma rule and accepts `nan` and `inf`;
  - `:.2f` rounds ties to even, where `toFixed(2)` rounds them up;
  - `slugify` raises `AttributeError` on a truthy value that is not a string, where the worker
    converts it to text first;
  - lines 151 and 155 pass a bare string where a one-element tuple is meant, so as written the
    prices are never read (see "## Findings").

  The model keeps both versions of the price columns:
  - `PyExporter.MapRecordAsWritten` is the source as written, and the export loops use it;
  - `PyExporter.MapRecordCorrected` is the intended mapper. It is the corrected half of the
    finding, and no loop of the source calls it.
- **The page-number strip** of `Pagination.tsx` and its "showing X-Y" range.
- **`flattenCategoryTree`**, which lists the category forest for a dropdown. Its `level`
  parameter defaults to 0; `CategoryTree.FlattenCategoryTree` takes it explicitly, and callers
  pass 0 for the source's default.
- **`removeNullValues` / `removeNullValuesDeep`**, which strip nulls from PATCH bodies.
- **`generateBreadcrumbs`**, which turns a route path into breadcrumb items.
- **The one-click import debug store**, a map from job id to generated CSV.

Modules follow the source:

- `Base`: Option/Result, joining, ordered key/value entries.
- `Text`: ASCII case, and the JavaScript `trim` and Python `strip` white-space sets.
- `Decimal`: digit scanning and cents formatting.
- `Slugs`: the slug loop shared by both exporters.
- Worker modules: `JsValues`, `KeyLookup`, `ApiMapper`, `Csv`, `Encoder`, `Worker`.
- One module each for the rest: `PyExporter`, `Pagination`, `CategoryTree`, `NullStrip`,
  `Breadcrumbs`, `DebugStore`.

How the JavaScript and Python runtimes are represented:

- A JavaScript record is the ordered list of its own keys and values. A JavaScript number is
  either finite (an exact real, together with the text `String()` gives it), NaN or an infinity.
- `parseFloat`, `toFixed(2)` and Python's `float()` and `:.2f` are modelled on exact reals.
  `toFixed` rounds ties up and `:.2f` rounds ties to even.
- The decoder is a parameter. It is the list of records its reads yield, followed by what its last
  read throws, if anything.
- A Blob is the list of its chunks.
- `Date.now()` is a parameter.
- A Python currency field is a `decimal.Decimal`, carried as its exact value and its `str()` text.
  `float()` takes its value, and it is falsy exactly when it is zero.
- A date field of a decoded record is carried as its `String()` text. The worker's `preview`
  message would carry the `Date` object itself; the model carries that text.

Where loops in the source change state, the model keeps them as methods with loop invariants,
each proved equal to a specification function:

- the key map, pick and slug loops
- the batch encoder
- the decoding loop
- the breadcrumb loop
- the recursive category flattening
- the Python export loops

The debug store is a class whose map field its methods update.

## Model

| member | source | states |
|---|---|---|
| Text.Lower | src/features/tools/workers/dbf.worker.ts:44 | `toLowerCase` keeps the length and maps each character through ASCII case folding |
| Text.LowerIdempotent | src/features/tools/workers/dbf.worker.ts:147 | lower-casing twice is lower-casing once |
| Text.TrimSplits | src/features/tools/workers/dbf.worker.ts:38 | `trim` removes exactly a white-space prefix and a white-space suffix: the input is that prefix, the result and that suffix |
| Text.TrimIdempotent | src/features/tools/workers/dbf.worker.ts:38 | trimming twice is trimming once |
| Text.TrimAroundKept | src/features/tools/workers/dbf.worker.ts:89 | trimming text around a non-space character trims only the outer parts |
| Decimal.NatToDecimal | src/features/tools/workers/dbf.worker.ts:112 | the decimal digits of a natural number read back as that number, with no leading zero |
| Decimal.RoundHalfUp | src/features/tools/workers/dbf.worker.ts:112 | the rounding `toFixed` applies is within half a unit, ties going up |
| Decimal.RoundHalfEven | src/features/tools/import-products/dbf-to-csv-parser.py:86 | the rounding `:.2f` applies gives one of the two neighbouring integers: the nearer one, or the even one at a tie |
| Decimal.CentsReadsBack | src/features/tools/workers/dbf.worker.ts:112 | the text "d…d.dd" for n hundredths scans in full as n/100 |
| Base.Lookup | src/features/tools/import-products/dbf-to-csv-parser.py:63 | a key lookup finds a value exactly when the key is present, and the pair it finds is in the record |
| Base.LookupAt | src/features/tools/import-products/dbf-to-csv-parser.py:63 | with distinct keys, looking up a record's key gives that key's value |
| JsValues.NormalizeValue | src/features/tools/workers/dbf.worker.ts:36-40 | nullish becomes "", a string is trimmed (and the result is already trimmed), anything else is its `String()` text |
| JsValues.Stringify | src/features/tools/workers/dbf.worker.ts:39 | `String(v)`: "undefined", "null", "true"/"false", a number's text, a string itself (no contract; used by `NormalizeValue` and `Csv.CellsAreEscapedTexts`) |
| JsValues.ParseFloatJs | src/features/tools/workers/dbf.worker.ts:97 | `parseFloat`: a number needs some text after the leading white space; the read-back lemmas `ParseCents` and `FormatPriceReadsBack` state what it reads |
| JsValues.ParseNumberish | src/features/tools/workers/dbf.worker.ts:85-99 | nullish and blank strings give no number; a number gives itself exactly when it is finite |
| JsValues.NumberishOfText | src/features/tools/workers/dbf.worker.ts:89-98 | a non-blank string is read with `parseFloat` after trimming, and a lone comma counts as the decimal point |
| JsValues.ReplaceFirstCommaAt | src/features/tools/workers/dbf.worker.ts:94 | `replace(',', '.')` changes only the first comma |
| JsValues.DecimalCommaAgrees | src/features/tools/workers/dbf.worker.ts:92-95 | "123,45" and "123.45" read as the same number |
| JsValues.FormatPriceText | src/features/tools/workers/dbf.worker.ts:110-113 | `toFixed(2)` writes the sign, then the magnitude rounded half-up to hundredths as "d….dd" |
| JsValues.ToFixed2 | src/features/tools/workers/dbf.worker.ts:112 | `toFixed(2)` on a finite value always writes at least "d.dd"; `FormatPriceText` states its digits |
| JsValues.FormatPrice | src/features/tools/workers/dbf.worker.ts:110-113 | the price text is empty exactly when there is no price |
| JsValues.Round2Close | src/features/tools/workers/dbf.worker.ts:112 | the written price is within half a cent of the price |
| JsValues.ParseCents | src/features/tools/workers/dbf.worker.ts:97 | `parseFloat` reads "d….dd" and "-d….dd" back as ±n/100 |
| JsValues.FormatPriceReadsBack | src/features/tools/workers/dbf.worker.ts:110-113 | reading a written price back with `parseFloat` gives the price rounded to cents |
| JsValues.TokenSetsDisjoint | src/features/tools/workers/dbf.worker.ts:148-150 | no token is both true and false, or both a null word and a truth value |
| JsValues.ParseBoolish | src/features/tools/workers/dbf.worker.ts:142-153 | nullish gives none, a boolean itself, a number its truthiness, a token of the true (false) list true (false), any other string none |
| JsValues.ParseBoolishNormalised | src/features/tools/workers/dbf.worker.ts:147 | only the trimmed lower-cased text decides |
| JsValues.Slugify | src/features/tools/workers/dbf.worker.ts:115-140 | the result is a slug (lower-case alphanumeric words joined by single dashes), and blank input gives "" |
| JsValues.SlugifyScan | src/features/tools/workers/dbf.worker.ts:115-140 | the character loop and the dash-collapsing loop compute `Slugify` |
| JsValues.SlugifyIsJoinedWords | src/features/tools/workers/dbf.worker.ts:115-140 | the slug is the alphanumeric runs of the trimmed lower-cased text, joined by "-" |
| JsValues.SlugifyIdempotent | src/features/tools/workers/dbf.worker.ts:115-140 | slugifying a slug changes nothing |
| JsValues.SlugIsNormal | src/features/tools/workers/dbf.worker.ts:116 | a slug is already trimmed and lower-case |
| Slugs.SlugCoreScan | src/features/tools/workers/dbf.worker.ts:119-139 | the imperative loop computes the slug of the lower-cased text |
| Slugs.ReplaceDoubleDashes | src/features/tools/workers/dbf.worker.ts:136-138 | each replacement pass shortens text that still holds "--", so the while loop ends |
| Slugs.DropCollapseIsJoin | src/features/tools/workers/dbf.worker.ts:119-135 | collapsing non-alphanumerics to one dash and stripping outer dashes joins the words with "-" |
| Slugs.WordsOfJoin | src/features/tools/workers/dbf.worker.ts:135-139 | the words of a joined slug are the words joined |
| Slugs.SlugCoreIsJoinedWords | src/features/tools/workers/dbf.worker.ts:119-139 | the slug core is the text's alphanumeric runs joined by "-" |
| Slugs.SlugCoreIsSlug | src/features/tools/workers/dbf.worker.ts:119-139 | the slug core has no outer dash, no double dash and only lower-case alphanumerics between dashes |
| Slugs.SlugCoreIdempotent | src/features/tools/workers/dbf.worker.ts:119-139 | applying the slug core twice is applying it once |
| KeyLookup.NormalizeKey | src/features/tools/workers/dbf.worker.ts:42-45 | the normalised key holds only lower-case letters and digits |
| KeyLookup.NormalizeKeyIgnoresTrim | src/features/tools/workers/dbf.worker.ts:44 | the trim before lower-casing changes nothing: normalising keeps the lower-cased alphanumerics |
| KeyLookup.NormalizeKeyIdempotent | src/features/tools/workers/dbf.worker.ts:42-45 | normalising twice is normalising once |
| KeyLookup.NormalizeKeyIgnoresCase | src/features/tools/workers/dbf.worker.ts:42-45 | a key and its lower-cased form normalise alike |
| KeyLookup.BuildKeyMap | src/features/tools/workers/dbf.worker.ts:49-58 | the loop over the sample's keys builds the map `KeyMapOf(keys)`, later keys overwriting earlier ones |
| KeyLookup.KeyMapOfPrefix | src/features/tools/workers/dbf.worker.ts:51-56 | one turn of the loop files the next key under its three spellings |
| KeyLookup.KeyMapProvenance | src/features/tools/workers/dbf.worker.ts:49-58 | every entry of the key map points to a real key that the entry's name spells |
| KeyLookup.KeyMapCovers | src/features/tools/workers/dbf.worker.ts:51-56 | every key is reachable under its normalised, lower-cased and exact spelling |
| KeyLookup.ResolveKey | src/features/tools/workers/dbf.worker.ts:60-74 | a resolved key is a key of the record; an exact key wins, then the lower-cased field |
| KeyLookup.GetValueByField | src/features/tools/workers/dbf.worker.ts:60-74 | the value is the record's value for the resolved key, or undefined when nothing resolves |
| KeyLookup.ChainResolves | src/features/tools/workers/dbf.worker.ts:70-71 | a non-empty entry of the `\|\|` chain always leads to a present key |
| KeyLookup.ResolvesWhenSpelledAlike | src/features/tools/workers/dbf.worker.ts:68-71 | a field that normalises or lower-cases like a record key always finds a value |
| KeyLookup.ResolvedKeyIsASpelling | src/features/tools/workers/dbf.worker.ts:60-74 | what a field resolves to is the field, its lower-case form, or a key filed under one of its spellings |
| KeyLookup.PickStrScan | src/features/tools/workers/dbf.worker.ts:76-83 | the loop returns `PickStr`: the first usable candidate, normalised |
| KeyLookup.PickStrFirstUsable | src/features/tools/workers/dbf.worker.ts:77-81 | after skipping nullish and blank candidates, the first usable one is returned normalised |
| KeyLookup.PickStrNone | src/features/tools/workers/dbf.worker.ts:82 | with no usable candidate the result is "" |
| KeyLookup.PickNumScan | src/features/tools/workers/dbf.worker.ts:101-108 | the loop returns `PickNum`: the first candidate that reads as a number |
| KeyLookup.PickNumFirstNumeric | src/features/tools/workers/dbf.worker.ts:102-106 | the first numeric candidate gives the result |
| KeyLookup.PickNumNone | src/features/tools/workers/dbf.worker.ts:101-108 | there is no number exactly when no candidate reads as one |
| ApiMapper.Columns | src/features/tools/workers/dbf.worker.ts:292-307 | the row has the 14 API columns, in header order |
| ApiMapper.MapRecord | src/features/tools/workers/dbf.worker.ts:164-308 | sale, media, weight and dimension columns are empty, the category is a slug, and the active flag is "true" or "false" |
| ApiMapper.MapRecordToApiRow | src/features/tools/workers/dbf.worker.ts:164-308 | the row has 14 cells, its constant columns are empty, and its last cell is "true" or "false" |
| ApiMapper.SkuIsFirstText | src/features/tools/workers/dbf.worker.ts:166-177 | the SKU is the trimmed text of the first non-blank SKU field |
| ApiMapper.SkuMissing | src/features/tools/workers/dbf.worker.ts:166-177 | with no usable SKU field the SKU is "" |
| ApiMapper.DescriptionFallsBack | src/features/tools/workers/dbf.worker.ts:195-204 | the description is the detail text when there is one, and otherwise the name |
| ApiMapper.RegularPriceColumn | src/features/tools/workers/dbf.worker.ts:207-223 | the regular price is empty exactly when no price field reads as a number |
| ApiMapper.RegularPriceReadsBack | src/features/tools/workers/dbf.worker.ts:296 | the regular price column reads back as the price rounded to cents |
| ApiMapper.PriceIfBelow | src/features/tools/workers/dbf.worker.ts:245-248 | a special price is written exactly when it and the regular price exist, it is positive, and it is below the regular price; what is written is the formatted special price |
| ApiMapper.SpecialPriceColumn | src/features/tools/workers/dbf.worker.ts:229-248 | the special column follows that rule, and a written special price reads back rounded to cents |
| ApiMapper.CategorySlug | src/features/tools/workers/dbf.worker.ts:271 | the category is a slug, empty exactly when both the family name and the family code slug to "" |
| ApiMapper.CategoryColumn | src/features/tools/workers/dbf.worker.ts:251-271 | the family name's slug is used when it is non-empty, and otherwise the family code's |
| ApiMapper.FirstFlagIsFirstSome | src/features/tools/workers/dbf.worker.ts:284-289 | the `??` chain gives the first flag that is not null |
| ApiMapper.FlagChainFirst | src/features/tools/workers/dbf.worker.ts:284-289 | the deletion flag is the first field whose value parses as a boolean |
| ApiMapper.FlagChainNone | src/features/tools/workers/dbf.worker.ts:284-289 | when no field parses as a boolean there is no flag |
| ApiMapper.ActiveWhenUnflagged | src/features/tools/workers/dbf.worker.ts:290 | without a deletion flag the product is active |
| ApiMapper.ActiveFollowsFirstFlag | src/features/tools/workers/dbf.worker.ts:284-290 | with a flag, the product is active exactly when that flag is false |
| ApiMapper.EmptyRecordRow | src/features/tools/workers/dbf.worker.ts:373 | the empty record maps to empty columns and an active product |
| ApiMapper.NothingFound | src/features/tools/workers/dbf.worker.ts:60-74 | nothing resolves in an empty record |
| Csv.DoubleQuotes | src/features/tools/workers/dbf.worker.ts:323 | doubling quotes never shortens text and leaves quote-free text alone |
| Csv.Escape | src/features/tools/workers/dbf.worker.ts:321-324 | plain text is kept; text with a comma, quote or line break is wrapped in quotes |
| Csv.EscapeReadsBack | src/features/tools/workers/dbf.worker.ts:321-326 | a CSV reader reads an escaped value back as that value |
| Csv.ReadEscapedCell | src/features/tools/workers/dbf.worker.ts:321-326 | an escaped value followed by a separator or the end reads back as the value and the rest |
| Csv.CsvLineReadsBack | src/features/tools/workers/dbf.worker.ts:328 | escaping the cells and joining them with commas reads back as the cells |
| Csv.FormatCsvRowIsLine | src/features/tools/workers/dbf.worker.ts:313-329 | `formatCsvRow` is the CSV line of the fields' texts, with nullish values as "" |
| Csv.FormatCsvRow | src/features/tools/workers/dbf.worker.ts:313-329 | `formatCsvRow` as the source computes it, field by field (no contract; `FormatCsvRowIsLine` and `FormatCsvRowReadsBack` state its meaning) |
| Csv.CellsAreEscapedTexts | src/features/tools/workers/dbf.worker.ts:314-327 | each cell is the escaped `String()` text of the field's value |
| Csv.FormatCsvRowReadsBack | src/features/tools/workers/dbf.worker.ts:313-329 | a raw-format row reads back as the fields' texts |
| Encoder.RoundPercentNearest | src/features/tools/workers/dbf.worker.ts:356 | the nearest whole percent of the exact ratio `end / n`, ties up |
| Encoder.RoundPercentMonotone | src/features/tools/workers/dbf.worker.ts:356 | more records done never reports a smaller percent |
| Encoder.RoundPercentAll | src/features/tools/workers/dbf.worker.ts:356 | all records done is 100 percent |
| Encoder.RoundPercentBounds | src/features/tools/workers/dbf.worker.ts:356 | the percent lies between 0 and 100 |
| Encoder.RoundPercent | src/features/tools/workers/dbf.worker.ts:356 | `Math.round((end / n) * 100)` on the exact ratio rather than on doubles (no contract; the four `RoundPercent…` lemmas state its meaning) |
| Encoder.Percents | src/features/tools/workers/dbf.worker.ts:347-357 | the percent reported after each batch, computed by `RoundPercent` (no contract; `PercentsShape` states its meaning) |
| Encoder.BatchChunks | src/features/tools/workers/dbf.worker.ts:347-358 | the Blob chunk pushed for each batch (no contract; `BatchChunksCount`, `BatchChunksConcat` and `BlobContents` state its meaning) |
| Encoder.BatchChunksCount | src/features/tools/workers/dbf.worker.ts:347 | there is one chunk per batch of 2000 rows |
| Encoder.PercentsShape | src/features/tools/workers/dbf.worker.ts:355-357 | the reported percents never decrease and end at 100 |
| Encoder.BatchChunksConcat | src/features/tools/workers/dbf.worker.ts:347-358 | the batch chunks together are the rows joined by line breaks, plus a final one |
| Encoder.FormatRows | src/features/tools/workers/dbf.worker.ts:352 | raw row k is `formatCsvRow` of record k |
| Encoder.ApiRows | src/features/tools/workers/dbf.worker.ts:384-397 | API row k is the escaped CSV line of record k's mapped columns |
| Encoder.ApiBatch | src/features/tools/workers/dbf.worker.ts:384-397 | a batch's text is its rows joined by line breaks |
| Encoder.ConvertToCsvBlob | src/features/tools/workers/dbf.worker.ts:335-362 | the chunks are the header line and one chunk per batch of rows; one percent is reported per batch |
| Encoder.ConvertToApiFormatCsvBlob | src/features/tools/workers/dbf.worker.ts:367-408 | the same for the API headers and rows, with keys mapped from the first record (or none) |
| Encoder.WriteApiBatches | src/features/tools/workers/dbf.worker.ts:379-403 | the batch loop appends exactly the batches of the given rows, and their percents |
| Encoder.ApiBatchAt | src/features/tools/workers/dbf.worker.ts:380-397 | one batch's text is the slice of rows joined by line breaks |
| Encoder.BlobContents | src/features/tools/workers/dbf.worker.ts:344-358 | the Blob's text is the header, the rows joined by line breaks, and a final line break; it has one plus ⌈rows/2000⌉ chunks |
| Encoder.NoRecordsOnlyHeader | src/features/tools/workers/dbf.worker.ts:344-347 | with no records the Blob is the header alone and no progress is reported |
| Encoder.ApiHeadersPlain | src/features/tools/workers/dbf.worker.ts:13-28 | no API header needs quoting |
| Encoder.ApiHeaderLine | src/features/tools/workers/dbf.worker.ts:405-407 | the header line reads back as the headers and starts with "s", so no byte-order mark comes first |
| Encoder.ApiRowReadsBack | src/features/tools/workers/dbf.worker.ts:384-397 | each written API row reads back as the record's 14 mapped columns |
| Worker.ErrorMessage | src/features/tools/workers/dbf.worker.ts:531 | a thrown value that is not an `Error` is reported with the fallback message |
| Worker.Read | src/features/tools/workers/dbf.worker.ts:449-453 | the reads yield the decoded records in order, then finish or throw |
| Worker.CheckedCount | src/features/tools/workers/dbf.worker.ts:449-463 | how many record counts reach the progress check: all of them, or one fewer when a read throws, never more than the records read |
| Worker.Ticks | src/features/tools/workers/dbf.worker.ts:456-463 | the progress messages for the counts that are multiples of 1000 (no contract; `TicksShape` and `TicksAreProgress` state their meaning) |
| Worker.ParseDbfFile | src/features/tools/workers/dbf.worker.ts:444-467 | the loop returns the records read, throws what the decoder throws, and posts one progress message per thousand records checked |
| Worker.TicksShape | src/features/tools/workers/dbf.worker.ts:455-463 | one message is posted for each multiple of 1000, in increasing order |
| Worker.TicksAreProgress | src/features/tools/workers/dbf.worker.ts:456-462 | those messages are parsing-phase progress |
| Worker.DecodingLength | src/features/tools/workers/dbf.worker.ts:444-467 | decoding posts the start message and one message per thousand records checked |
| Worker.ProgressAll | src/features/tools/workers/dbf.worker.ts:514-520 | each reported percent becomes one progress message in the given phase |
| Worker.HandleParseOriginal | src/features/tools/workers/dbf.worker.ts:472-537 | the raw pipeline posts what `OriginalPosts` describes: start, decoding ticks, then either the error or the success messages |
| Worker.PostOriginal | src/features/tools/workers/dbf.worker.ts:493-528 | after a non-empty decode it posts parsing 100, the preview, converting 0, the batch percents and `complete` |
| Worker.HandleParseApiFormat | src/features/tools/workers/dbf.worker.ts:542-617 | the API pipeline posts what `ApiFormatPosts` describes |
| Worker.PostApiFormat | src/features/tools/workers/dbf.worker.ts:581-608 | after a non-empty decode it posts parsing 100, mapping 0, the batch percents and `api-format-complete` |
| Worker.OriginalPosts | src/features/tools/workers/dbf.worker.ts:472-537 | the responses of the raw pipeline (no contract; `OriginalEndsOnce`, `EmptyFileIsAnError`, `FailureIsReported` and `OriginalSuccessShape` state its meaning) |
| Worker.ApiFormatPosts | src/features/tools/workers/dbf.worker.ts:542-617 | the responses of the API pipeline (no contract; `ApiFormatEndsOnce`, `EmptyFileIsAnError`, `FailureIsReported` and `ApiFormatSuccessShape` state its meaning) |
| Worker.OnMessageResponses | src/features/tools/workers/dbf.worker.ts:413-438 | the responses to one request (no contract; `OnMessageEndsOnce` states its meaning) |
| Worker.OnMessage | src/features/tools/workers/dbf.worker.ts:413-438 | dispatch on the request type to the two pipelines, and an error for any other type |
| Worker.OriginalEndsOnce | src/features/tools/workers/dbf.worker.ts:472-537 | the raw pipeline ends with exactly one terminal response, and it is the last |
| Worker.ApiFormatEndsOnce | src/features/tools/workers/dbf.worker.ts:542-617 | the API pipeline ends with exactly one terminal response, and it is the last |
| Worker.OnMessageEndsOnce | src/features/tools/workers/dbf.worker.ts:413-438 | every request ends with exactly one terminal response; an unknown type gets only "Unknown message type" |
| Worker.EmptyFileIsAnError | src/features/tools/workers/dbf.worker.ts:483-485 | a file without records gives parsing 0 and then the "no records" error, in both formats |
| Worker.FailureIsReported | src/features/tools/workers/dbf.worker.ts:529-536 | a decoder failure ends the run with one error carrying the thrown message, or the fallback |
| Worker.OriginalSuccessShape | src/features/tools/workers/dbf.worker.ts:493-528 | success posts parsing 100, a preview of at most 10 records with the first record's keys, converting 0, non-decreasing percents ending at 100, and `complete` with the record count |
| Worker.ApiFormatSuccessShape | src/features/tools/workers/dbf.worker.ts:581-608 | success posts parsing 100, mapping 0, non-decreasing percents ending at 100, and `api-format-complete` with the API headers |
| PyExporter.Get | src/features/tools/import-products/dbf-to-csv-parser.py:63 | `rec.get` gives the stored value, or None for a missing key |
| PyExporter.PickStr | src/features/tools/import-products/dbf-to-csv-parser.py:61-67 | `pick_str` on the candidate values (no contract; `PickStrFirst` and `PickStrNone` state its meaning) |
| PyExporter.PickNum | src/features/tools/import-products/dbf-to-csv-parser.py:70-79 | `pick_num` on the candidate values (no contract; `PickNumFirst` and `PickNumNone` state its meaning) |
| PyExporter.ParseFloatPy | src/features/tools/import-products/dbf-to-csv-parser.py:76 | `float()` of a string: stripped, optional sign, inf/infinity/nan in any case, otherwise a decimal literal, and None for `ValueError` (no contract; `ParseCentsPy` and `FormatPriceReadsBack` state what it reads) |
| PyExporter.NormalizeValue | src/features/tools/import-products/dbf-to-csv-parser.py:48-54 | the result is never None: None becomes '', strings are stripped, anything else is kept |
| PyExporter.NormalizeValueIdempotent | src/features/tools/import-products/dbf-to-csv-parser.py:48-54 | normalising twice is normalising once |
| PyExporter.PickStrLoop | src/features/tools/import-products/dbf-to-csv-parser.py:61-67 | the loop returns `PickStr` |
| PyExporter.PickStrFirst | src/features/tools/import-products/dbf-to-csv-parser.py:62-66 | the first field whose value is neither None nor blank gives the result, normalised (stripped for a string) |
| PyExporter.PickStrNone | src/features/tools/import-products/dbf-to-csv-parser.py:67 | with no such field the result is '' |
| PyExporter.FloatOf | src/features/tools/import-products/dbf-to-csv-parser.py:76 | `float(v)`: booleans give 1.0 or 0.0, ints their value, floats themselves, strings their parse, a `Decimal` its value, and None or a date raise |
| PyExporter.PickNumLoop | src/features/tools/import-products/dbf-to-csv-parser.py:70-79 | the loop returns `PickNum` |
| PyExporter.PickNumFirst | src/features/tools/import-products/dbf-to-csv-parser.py:71-76 | the first field whose value converts gives the result; failed conversions are skipped |
| PyExporter.PickNumNone | src/features/tools/import-products/dbf-to-csv-parser.py:70-79 | there is no number exactly when no field converts |
| PyExporter.Hundredths | src/features/tools/import-products/dbf-to-csv-parser.py:86 | the written magnitude is within half a hundredth of the price's |
| PyExporter.FormatPrice | src/features/tools/import-products/dbf-to-csv-parser.py:82-86 | the text is empty exactly when there is no price |
| PyExporter.FormatPriceFinite | src/features/tools/import-products/dbf-to-csv-parser.py:86 | a finite price is written as its sign and its rounded hundredths, "d….dd" |
| PyExporter.Round2EvenClose | src/features/tools/import-products/dbf-to-csv-parser.py:86 | the written price is within half a cent of the price |
| PyExporter.ParseCentsPy | src/features/tools/import-products/dbf-to-csv-parser.py:76 | `float()` reads "d….dd" back as n/100 |
| PyExporter.ParseNegCentsPy | src/features/tools/import-products/dbf-to-csv-parser.py:76 | `float()` reads "-d….dd" back as -(n/100) |
| PyExporter.FormatPriceReadsBack | src/features/tools/import-products/dbf-to-csv-parser.py:82-86 | `float()` of a written price gives the price rounded to cents, ties to even |
| PyExporter.PriceIfBelow | src/features/tools/import-products/dbf-to-csv-parser.py:161-163 | a special price is written exactly when both prices exist, it is positive, and it is below the regular price; NaN never qualifies; what is written is the formatted special price |
| PyExporter.SlugText | src/features/tools/import-products/dbf-to-csv-parser.py:89-107 | the result is a slug, and blank text gives '' |
| PyExporter.SlugTextScan | src/features/tools/import-products/dbf-to-csv-parser.py:89-107 | the character loop and the replace loop compute `SlugText` |
| PyExporter.SlugTextIsJoinedWords | src/features/tools/import-products/dbf-to-csv-parser.py:89-107 | the slug is the alphanumeric runs of the stripped lower-cased text, joined by '-' |
| PyExporter.SlugTextIdempotent | src/features/tools/import-products/dbf-to-csv-parser.py:89-107 | slugifying a slug changes nothing |
| PyExporter.SlugIsStripped | src/features/tools/import-products/dbf-to-csv-parser.py:90 | a slug is already stripped and lower-case |
| PyExporter.Slugify | src/features/tools/import-products/dbf-to-csv-parser.py:89-92 | falsy values (including a zero `Decimal`) give ''; a truthy non-string raises `AttributeError`; a string gives a slug |
| PyExporter.ParseBoolish | src/features/tools/import-products/dbf-to-csv-parser.py:110-125 | None gives None, a bool itself, an int or float whether it is non-zero, a true (false) token True (False), a `Decimal`, a date or any other string None |
| PyExporter.NullWordsReadAsNone | src/features/tools/import-products/dbf-to-csv-parser.py:119-120 | '', 'null' and 'none', in any case and spacing, give None |
| PyExporter.CategorySlug | src/features/tools/import-products/dbf-to-csv-parser.py:167 | the category is a slug, and the mapping fails exactly when a slugify it reaches raises |
| PyExporter.MapRecordWith | src/features/tools/import-products/dbf-to-csv-parser.py:146-197 | `map_record_to_api_row` with the price candidates as a parameter: the sale, media, weight and dimension columns are empty, the category is a slug, and the active flag is "true" or "false" |
| PyExporter.MapRecordAsWritten | src/features/tools/import-products/dbf-to-csv-parser.py:146-197 | the mapper as written fails exactly when the corrected one does, with the same error, and the two rows differ at most in the regular and special prices |
| PyExporter.MapRecordCorrected | src/features/tools/import-products/dbf-to-csv-parser.py:151-163 | the corrected mapper (see "## Findings"): the regular price is `float()` of STPRECUNI2 when it converts, and the special price is STPRECUNI1 when 0 < special < regular |
| PyExporter.RowWidth | src/features/tools/import-products/dbf-to-csv-parser.py:182-197 | a mapped row has the 14 API columns |
| PyExporter.ActiveUnlessDeleted | src/features/tools/import-products/dbf-to-csv-parser.py:179-180 | the product is active exactly when STBORRAR does not parse as true |
| PyExporter.SingleCandidate | src/features/tools/import-products/dbf-to-csv-parser.py:70-79 | picking from one field is that field's conversion, or None |
| PyExporter.MapRecordFails | src/features/tools/import-products/dbf-to-csv-parser.py:165-167 | mapping fails exactly when the family name slugify raises, or it gives '' and the family code slugify raises |
| PyExporter.MapsWithoutFamily | src/features/tools/import-products/dbf-to-csv-parser.py:165-167 | a record without family fields always maps |
| PyExporter.Chars | src/features/tools/import-products/dbf-to-csv-parser.py:151 | iterating a string yields its characters as one-character keys |
| PyExporter.NoCharKeys | src/features/tools/import-products/dbf-to-csv-parser.py:151 | a record without one-character keys finds no number among the characters of a key |
| PyExporter.AsWrittenIgnoresPrices | src/features/tools/import-products/dbf-to-csv-parser.py:151-155 | as written, a record without one-character keys always gets empty price columns |
| PyExporter.PricedRecordAsWritten | src/features/tools/import-products/dbf-to-csv-parser.py:151-155 | as written, a record with STPRECUNI2 = 100 and STPRECUNI1 = 50 gets empty price columns |
| PyExporter.PricedRecordIntended | src/features/tools/import-products/dbf-to-csv-parser.py:151-163 | with one-element tuples the same record gets "100.00" and "50.00" |
| PyExporter.IntPrices | src/features/tools/import-products/dbf-to-csv-parser.py:151-163 | in the corrected mapper (see "## Findings"), integer prices with 0 < special < regular are both written |
| PyExporter.Window | src/features/tools/import-products/dbf-to-csv-parser.py:219-228 | the records written form a window within the table |
| PyExporter.FieldsRow | src/features/tools/import-products/dbf-to-csv-parser.py:224 | an all-fields row is each header's normalised value, as `csv.writer` prints it |
| PyExporter.FieldsRows | src/features/tools/import-products/dbf-to-csv-parser.py:224 | row k is record k's all-fields row |
| PyExporter.ExportAllFields | src/features/tools/import-products/dbf-to-csv-parser.py:201-230 | the loop writes the header and the rows of the offset/limit window, and returns the column count and the row count |
| PyExporter.RowOf | src/features/tools/import-products/dbf-to-csv-parser.py:255 | a record's API line is the columns the mapper as written gives it, or the error that mapper raises |
| PyExporter.RowOfHasNoPrices | src/features/tools/import-products/dbf-to-csv-parser.py:151-155 | so the export writes empty regular and special price columns for every record without one-character keys |
| PyExporter.MapAll | src/features/tools/import-products/dbf-to-csv-parser.py:255 | there is one outcome per record |
| PyExporter.LinesOfError | src/features/tools/import-products/dbf-to-csv-parser.py:251-258 | the export stops at the first failing record, having written exactly the rows before it |
| PyExporter.LinesOfAppend | src/features/tools/import-products/dbf-to-csv-parser.py:255-256 | one more record adds its row, or stops with its error |
| PyExporter.ExportApiFormat | src/features/tools/import-products/dbf-to-csv-parser.py:233-260 | the loop writes the header and the window's rows (from the mapper as written) up to the first failure, and returns (14, rows) or the error |
| PyExporter.WriteApiLines | src/features/tools/import-products/dbf-to-csv-parser.py:247-260 | the streaming loop with the skip counter and the limit break writes exactly that |
| PyExporter.WriteRecord | src/features/tools/import-products/dbf-to-csv-parser.py:255-256 | writing one record extends the lines by its row, or reports its error and writes nothing |
| PyExporter.ExportFailureWindow | src/features/tools/import-products/dbf-to-csv-parser.py:251-258 | a record the loop reaches lies inside the window |
| PyExporter.MainLimit | src/features/tools/import-products/dbf-to-csv-parser.py:284 | a limit of 0 or below means no limit |
| PyExporter.MainOffset | src/features/tools/import-products/dbf-to-csv-parser.py:285 | a negative offset counts as 0 |
| PyExporter.MainKeepsWindow | src/features/tools/import-products/dbf-to-csv-parser.py:284-289 | `main`'s clean-up of its arguments does not change the window; it skips min(offset, n) records and writes min(limit, rest) of them |
| Pagination.AllPages | src/components/common/Pagination.tsx:147 | the full strip lists pages 1 to total, and is empty when total is 0 or less |
| Pagination.PageNumbers | src/components/common/Pagination.tsx:145-164 | `generatePageNumbers`: the strip has every page up to seven pages, and seven slots beyond; its shape is stated by `StripShape` and `EveryPageAccountedFor` |
| Pagination.SmallTotals | src/components/common/Pagination.tsx:146-148 | up to seven pages every page is shown, in order |
| Pagination.LargeTotals | src/components/common/Pagination.tsx:150-163 | beyond seven pages the strip has seven slots from page 1 to the last page |
| Pagination.Windows | src/components/common/Pagination.tsx:152-161 | the start, end and middle windows hold the pages the source pushes |
| Pagination.StripShape | src/components/common/Pagination.tsx:145-164 | the shown pages rise strictly within 1..total, neighbours are consecutive, every ellipsis hides at least one page, and the current page is shown |
| Pagination.EveryPageAccountedFor | src/components/common/Pagination.tsx:145-164 | every page from 1 to total is shown or lies behind an ellipsis |
| Pagination.NavigationStaysInRange | src/components/common/Pagination.tsx:31-32 | previous and next are enabled exactly when the page they lead to exists |
| Pagination.CanGoPrevious | src/components/common/Pagination.tsx:31 | `canGoPrevious`: the page is past the first (no contract; `NavigationStaysInRange` states its meaning) |
| Pagination.CanGoNext | src/components/common/Pagination.tsx:32 | `canGoNext`: the page is before the last (no contract; `NavigationStaysInRange` states its meaning) |
| Pagination.RangeStart | src/components/common/Pagination.tsx:42 | the first item number shown never exceeds the item count; `RangeIsThePage` and `RangesTile` state the rest |
| Pagination.RangeEnd | src/components/common/Pagination.tsx:42 | the last item number shown never exceeds the item count; `RangeIsThePage` and `RangesTile` state the rest |
| Pagination.RangeIsThePage | src/components/common/Pagination.tsx:42 | on a page with items the range starts after the earlier pages and holds between 1 and `limit` items |
| Pagination.RangesTile | src/components/common/Pagination.tsx:42 | the next page's range starts right after this one ends |
| Pagination.EmptyRange | src/components/common/Pagination.tsx:42 | with no items the range reads 0-0 |
| CategoryTree.Kids | src/features/categories/types.ts:63 | absent children count as none |
| CategoryTree.Preorder | src/features/categories/types.ts:50-69 | the preorder listing of a forest, the reference `FlattenCategoryTree` is proved against (no contract; the lemmas below state its meaning) |
| CategoryTree.FlattenCategoryTree | src/features/categories/types.ts:50-69 | the loop with its recursive call lists the forest in preorder |
| CategoryTree.SubtreeIsEntryThenKids | src/features/categories/types.ts:57-65 | a category is listed as its own entry, then its children one level deeper |
| CategoryTree.PreorderAppend | src/features/categories/types.ts:56-66 | flattening two forests in turn is flattening them together |
| CategoryTree.PreorderLength | src/features/categories/types.ts:50-69 | there is one entry per category |
| CategoryTree.LeafIsOneEntry | src/features/categories/types.ts:63 | a category with absent or empty children gives its entry alone |
| CategoryTree.ParentPrecedesDescendants | src/features/categories/types.ts:56-66 | a category is followed by all of its descendants, then by its next sibling |
| CategoryTree.LevelsFromRoot | src/features/categories/types.ts:52-64 | no entry is shallower than the roots |
| CategoryTree.RootsAtInitialLevel | src/features/categories/types.ts:56-66 | the entries at the initial level are exactly the roots, in input order |
| NullStrip.RemoveNullValues | src/features/storefront-config/api/storefront-config.api.ts:17-21 | a member is kept exactly when its value is neither null nor undefined |
| NullStrip.ShallowKeys | src/features/storefront-config/api/storefront-config.api.ts:19 | the keys kept are exactly the keys with a non-null value |
| NullStrip.RemoveNullValuesAppend | src/features/storefront-config/api/storefront-config.api.ts:18-20 | the filter keeps the members' order |
| NullStrip.NothingToRemove | src/features/storefront-config/api/storefront-config.api.ts:17-21 | an object without null members comes back unchanged |
| NullStrip.ShallowIdempotent | src/features/storefront-config/api/storefront-config.api.ts:17-21 | stripping twice is stripping once |
| NullStrip.RemoveNullValuesDeep | src/features/storefront-config/api/storefront-config.api.ts:27-45 | arrays stay arrays of the same length, objects stay objects with no more members, anything else is kept |
| NullStrip.PrimitivesUnchanged | src/features/storefront-config/api/storefront-config.api.ts:28-44 | null, undefined and primitives come back as they are |
| NullStrip.ArrayElements | src/features/storefront-config/api/storefront-config.api.ts:32-34 | each array element is stripped on its own, and a null element stays |
| NullStrip.DeepIsShallowThenMap | src/features/storefront-config/api/storefront-config.api.ts:37-41 | the deep strip of an object is the shallow strip with each value stripped in turn |
| NullStrip.DeepKeys | src/features/storefront-config/api/storefront-config.api.ts:37-41 | the deep strip keeps exactly the keys with a non-null value |
| NullStrip.DeepIsClean | src/features/storefront-config/api/storefront-config.api.ts:27-45 | no object member of the result, at any depth, is null or undefined |
| NullStrip.CleanUnchanged | src/features/storefront-config/api/storefront-config.api.ts:27-45 | a value already clean comes back unchanged |
| NullStrip.DeepIdempotent | src/features/storefront-config/api/storefront-config.api.ts:27-45 | stripping twice is stripping once |
| Breadcrumbs.SplitSlash | src/components/common/Breadcrumbs.tsx:28 | `split('/')` gives at least one piece and no piece holds a slash |
| Breadcrumbs.SplitSlashJoins | src/components/common/Breadcrumbs.tsx:28 | joining the pieces with "/" gives back the path |
| Breadcrumbs.NonEmpty | src/components/common/Breadcrumbs.tsx:28 | `filter(Boolean)` keeps exactly the non-empty pieces |
| Breadcrumbs.Segments | src/components/common/Breadcrumbs.tsx:28 | segments are non-empty and slash-free |
| Breadcrumbs.RootHasNoSegments | src/components/common/Breadcrumbs.tsx:28 | "" and "/" have no segments |
| Breadcrumbs.PathToAppend | src/components/common/Breadcrumbs.tsx:33 | each turn appends "/" and the segment to the current path |
| Breadcrumbs.PathToIsJoin | src/components/common/Breadcrumbs.tsx:33 | the current path is "/" followed by the segments so far joined by "/" |
| Breadcrumbs.SegmentsOfPath | src/components/common/Breadcrumbs.tsx:28-33 | splitting a built path gives back its segments |
| Breadcrumbs.Capitalize | src/components/common/Breadcrumbs.tsx:41 | the first character is upper-cased and the rest kept |
| Breadcrumbs.IsUuid | src/components/common/Breadcrumbs.tsx:37 | the UUID pattern, hex digits in either case in groups of 8-4-4-4-12 (no contract; `LabelCases` states its effect) |
| Breadcrumbs.Label | src/components/common/Breadcrumbs.tsx:37-49 | a segment's label (no contract; `LabelCases` states its three cases and that it is never empty) |
| Breadcrumbs.LabelCases | src/components/common/Breadcrumbs.tsx:37-49 | a UUID reads "Detalle", a known route its Spanish label, any other segment capitalised; labels are never empty |
| Breadcrumbs.Trail | src/components/common/Breadcrumbs.tsx:31-51 | one crumb per segment, labelled, and only the last has no link |
| Breadcrumbs.TrailLinks | src/components/common/Breadcrumbs.tsx:33-48 | crumb i links to the path of the first i+1 segments |
| Breadcrumbs.BuildTrail | src/components/common/Breadcrumbs.tsx:31-51 | the loop builds `Trail` of the segments |
| Breadcrumbs.MakeCrumb | src/components/common/Breadcrumbs.tsx:36-50 | the UUID and non-UUID branches both give the segment's label, linked unless last |
| Breadcrumbs.GenerateBreadcrumbs | src/components/common/Breadcrumbs.tsx:27-54 | the breadcrumbs are `Trail` of the path's segments |
| Breadcrumbs.TrailOfPath | src/components/common/Breadcrumbs.tsx:27-54 | a path built from segments gives one crumb per segment, with its label |
| Breadcrumbs.RootHasNoCrumbs | src/components/common/Breadcrumbs.tsx:27-54 | the root path has no breadcrumbs |
| DebugStore.Stamp | src/features/tools/stores/oneClickImportDebug.store.ts:13 | the stored entry is the CSV handed over with the creation time added |
| DebugStore.Put | src/features/tools/stores/oneClickImportDebug.store.ts:12-14 | after a store the id is present with the stamped entry, and no other key is added or dropped |
| DebugStore.Remove | src/features/tools/stores/oneClickImportDebug.store.ts:20-22 | after a clear exactly that id is gone |
| DebugStore.Find | src/features/tools/stores/oneClickImportDebug.store.ts:16-18 | a lookup finds an entry exactly when the id is stored |
| DebugStore.FindAfterPut | src/features/tools/stores/oneClickImportDebug.store.ts:12-18 | after a store, reading the id gives the CSV handed over, stamped with the time of the call |
| DebugStore.PutReplaces | src/features/tools/stores/oneClickImportDebug.store.ts:12-14 | a second store under the same id replaces the first |
| DebugStore.FindAfterRemove | src/features/tools/stores/oneClickImportDebug.store.ts:16-22 | after a clear, reading the id finds nothing |
| DebugStore.OthersUntouched | src/features/tools/stores/oneClickImportDebug.store.ts:12-22 | storing or clearing one id leaves every other id's entry as it was |
| DebugStore.Store.constructor | src/features/tools/stores/oneClickImportDebug.store.ts:10 | the store starts empty |
| DebugStore.Store.Set | src/features/tools/stores/oneClickImportDebug.store.ts:12-14 | the map gains the stamped entry under the id, and reading it back gives that entry |
| DebugStore.Store.Get | src/features/tools/stores/oneClickImportDebug.store.ts:16-18 | reads the current map |
| DebugStore.Store.Clear | src/features/tools/stores/oneClickImportDebug.store.ts:20-22 | the id is removed from the map, and reading it finds nothing |

## Left out

- The DBF decoders (`shapefile`'s `openDbf` and Python's `dbfread`) are not modelled. Windows-1252 and Latin-1 decoding is not modelled either. The worker's decoder is a parameter: the records it yields, then an optional thrown value.
- `async`/`await`, the `.catch` handlers in `self.onmessage` and message transport are not modelled. Responses are the list of messages posted, in order. The `.catch` handlers only run if a pipeline rejects, and a pipeline cannot reject because each catches its own errors.
- `console.log`/`console.error` output, the debug field probes at dbf.worker.ts:557-579, and the Blob MIME type are not modelled.
- Floating point is modelled as exact reals:
  - `parseFloat`, `float()`, `toFixed(2)` and `:.2f` do not round to the nearest double;
  - there is no negative zero;
  - `String(n)` and `str(f)` of a float are carried as supplied text.
- Encoder.RoundPercent: the progress percentage is computed on the exact ratio. The source divides and multiplies in doubles, so where the exact value is a half the double can fall just below it. There the model reports one more than the source. For example, after the batch ending at 46000 of 80000 records the source computes 57.49999999999999 and reports 57, and the model reports 58. `RoundPercentMonotone`, `RoundPercentAll`, `RoundPercentBounds` and `PercentsShape` hold of the source's double computation as well.
- Encoder.Percents uses `Encoder.RoundPercent`, so one of its values can be one above the percentage the source posts for that batch.
- JsValues.ToFixed2 always writes the full digits. `toFixed` returns `String(x)` instead when |x| is 10^21 or more, and the model does not capture that.
- PyExporter.FloatOf: binary fields that `dbfread` returns as `bytes` are not modelled. A record value is None, a bool, an int, a float, a string, a `Decimal` or a date; `float()` of bytes, their truthiness and their `str()` text are not captured.
- `JsValues.ParseFloatJs` and `PyExporter.FloatOf` do not model `float()`'s digit-group underscores, and they do not model hexadecimal or other non-decimal JavaScript forms.
- `Text.Lower` and `Breadcrumbs.Capitalize` do not model case mapping beyond ASCII. The source's `toLowerCase`, `toUpperCase` and `lower()` map all of Unicode; the model maps only A-Z and a-z.
- Python file handling is not modelled: existence checks, `open`, UTF-8 BOM, the delimiter option, `csv.writer` quoting, and argument parsing. Both exporters return the rows they write, as cell lists.
- JavaScript records are plain objects with distinct own keys. `in` on inherited prototype keys is not modelled for records, and neither is `routeLabels[segment]` for segments such as "constructor".
- `removeNullValuesDeep`: objects are member lists, in enumeration order. `Object.entries`' ordering of integer-like keys is not modelled, and neither are non-plain objects such as `Date`. The `Partial<T>` casts carry no content.
- The `Breadcrumbs` component's rendering (the `items` prop, the Home link, the empty-trail `null`) is not modelled. Neither is the rest of `Pagination`'s JSX: the limit selector and the buttons.
- `Date.now()` is a parameter of `DebugStore.Store.Set`. The store's Blob is the list of its chunks.
- `PyExporter.MapRecordCorrected` is the corrected mapper of "## Findings". No export loop of the model uses it, because the source's `export_stock_api_format` calls the mapper as written.
- `PyExporter.ExportAllFields` and `PyExporter.ExportApiFormat` do not model the `FileNotFoundError` raised for a missing table. The table is given as its records.

## Findings

| source | as written | input that shows it | evidently intended | confidence | as-written member | corrected member |
|---|---|---|---|---|---|---|
| src/features/tools/import-products/dbf-to-csv-parser.py:151 | `pick_num(rec, ('STPRECUNI2'))` passes the string 'STPRECUNI2', not a one-element tuple, so the loop looks up the keys 'S', 'T', 'P', … and the price fields are never read; the same holds for 'STPRECUNI1' at line 155 | a record with STPRECUNI2 = 100 and STPRECUNI1 = 50 and no one-character keys: both price columns come out empty | `('STPRECUNI2',)` and `('STPRECUNI1',)`, giving "100.00" and "50.00" | not executed | PyExporter.PricedRecordAsWritten | PyExporter.PricedRecordIntended |
