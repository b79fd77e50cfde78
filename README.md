# EXIF extractor widget, modelled in Dafny

This project models the logic of an image-metadata widget for a Lark/Feishu
Base table. The widget reads the image attachments of the selected cell. It
extracts their EXIF tags and shows eight of them under bilingual labels. It
can also write mapped values back into text fields of the same record.

The model has two parts.

- **Formatter and fetcher** (`utils.dfy`, module `Utils`, for `src/utils.tsx`).
  - The allow-list `KEY_MAP` renames eight EXIF tags to display labels.
  - `FormatExifValue` chooses each kept tag's display value: a scalar passes
    through; a GPS latitude or longitude becomes a degree/minute/second string;
    any other object gives its description, or its JSON text when it has none.
  - `TranslateExifKeys` is the loop that builds the translated dictionary.
    It is proved equal to the specification function `Translation`, and
    `TranslationContract` states what that dictionary holds.
  - `FetchExifData` returns the translated tags when there are any. Otherwise
    it returns the image's pixel width and height, and on failure `null`.
- **Widget state** (`app.dfy`, module `Widget`, for `src/App.tsx`).
  - The class `Widget.App` holds the component state: `attachmentUrls`,
    `currentImageIndex`, `exifData`, `fieldMappings`, the value stored in local
    storage, and the loading flag.
  - One method models each handler. Host calls, fetch results and the current
    selection are parameters. The host write and the toast a handler would
    issue are its out-parameters.

Support modules:

- `Dict` models a plain JavaScript object as an insertion-ordered list of
  entries. `Put` is property assignment: an existing key keeps its place and
  a new key goes last.
- `JsValue` has the scalars, JavaScript truthiness and `String(value)`.
- `Text` has decimal rendering, two-decimal rendering, `split` and `join`.
  Each rendering is proved to read back to its input.

Behaviour of the code worth knowing:

- An image whose `onload` never fires leaves fetchExifData's promise pending
  forever (there is no `onerror` handler), so it does not return `null`.
  `Fetched.Pending` models this. The next/previous handlers have already moved
  the cursor by then, so the previous image's data stays on screen.
  getAttachments never clears its loading flag in this case.
- Selecting a cell resets the URL list and the cursor only when the cell is a
  non-empty array and URL resolution succeeds. An empty, non-attachment or
  unreadable cell clears the data but keeps the old URL list and cursor.
- Write-back skips mapped labels whose value is falsy (`0`, `""`, `false`,
  `null`). Being present in the data is not enough.
- The GPS test comes before the description test, so a GPS object's
  description is never shown.

## Model

| member | source | states |
|---|---|---|
| `Utils.FormatDegreesParses` | src/utils.tsx:3-9 | The coordinate string can be read back to exactly the input degrees and minutes, the seconds in hundredths (0 when the raw seconds are not numeric) and the direction. Nothing is lost or merged. |
| `Utils.FormatDegreesExample` | src/utils.tsx:3-9 | 40, 26, 4656, "N" renders as `40° 26' 46.56" N`. |
| `Text.HundredthsRoundTrip` | src/utils.tsx:6-8 | The two-decimal rendering of raw/100 reads back to the raw count of hundredths, for every integer, negative ones included. |
| `Text.IntTextRoundTrip` | src/utils.tsx:8 | The text interpolated for an integral number reads back to that number. |
| `Utils.FormatGPSData` | src/utils.tsx:11-20 | Returns `''` unless the data is an object whose `value` has three elements. Otherwise it throws exactly when the reference tag is truthy but has no `value` array. When it does not throw and degrees and minutes are numeric, the result reads back to those degrees and minutes, the seconds and the reference's first `value` element (`''` without a reference). |
| `Utils.FormatExifValue` | src/utils.tsx:22-34 | A scalar, falsy or not, is returned unchanged. An object always gives a string. Only a GPS key can throw, and only when formatGPSData throws. A GPS object gives the formatGPSData string. Any other object gives its non-empty description, or else its JSON text. |
| `Utils.GpsIgnoresDescription` | src/utils.tsx:24-28 | For GPSLatitude/GPSLongitude the description makes no difference, because the GPS test comes first. |
| `Utils.RefOnlyForGps` | src/utils.tsx:22-31 | For every other key the reference tag makes no difference and formatting never throws. |
| `Utils.TranslationContract` | src/utils.tsx:36-62 | The output has no repeated key. Every key is one of the eight labels. A label is present exactly when its source tag is defined, and holds that tag's formatted value. Keys follow allow-list order. Translation throws exactly when formatting a present tag throws. The empty tag set gives the empty object. |
| `Utils.TranslateExifKeys` | src/utils.tsx:49-61 | The loop over the allow-list, which reads the tag and its `Ref` tag, returns `Translation(exifData)`, or throws where it does. |
| `Utils.FetchExifData` | src/utils.tsx:64-89 | A failed download or a throwing translation gives `null`. A non-empty translation is returned as is. An empty one gives exactly the two entries `图片宽度`/`图片高度` with the decoded width and height, or never settles if the image never loads. A returned object is never empty. |
| `Dict.PutGet` | src/App.tsx:39 | After the assignment `m[k] = v`, `k` holds `v` and every other key holds what it held before. |
| `Dict.Put` | src/utils.tsx:57 | Assigning to an existing key keeps the key order. Assigning to a new key appends that key. |
| `Widget.App.UpdateFieldMapping` | src/App.tsx:37-43 | The new mapping is the old one with only `exifKey` set to `fieldId`. The stored value equals the new mapping. Nothing else changes. |
| `Widget.App.constructor` | src/App.tsx:160-165 | Starts with no URLs, cursor 0 and no data. The mapping is the stored one when there is one, else empty, so a stored mapping is reloaded unchanged. |
| `Widget.FieldsToUpdate` | src/App.tsx:58-63 | The loop over the mapping's entries builds exactly `UpdateSet(mapping, exifData)`. |
| `Widget.UpdateSetMeaning` | src/App.tsx:58-63 | A field id is in the update set exactly when some mapping entry names that non-empty field and its label has a truthy value. The field holds the text of the value of the last such entry. No field id repeats, and `null` data gives an empty set. |
| `Widget.App.UpdateExifInfoToFields` | src/App.tsx:46-84 | A missing table or record id fails with `noSelection` before anything is built or sent. An empty update set fails with `noDataToUpdate` and sends nothing. Otherwise exactly one `setRecords` call is made, for one record with the selected record id and the whole update set. Success is reported exactly when that call resolves. A rejected getSelection, getTableById or setRecords raises the `updateFailed` error. |
| `Widget.App.GetAttachments` | src/App.tsx:87-117 | For a non-empty attachment array whose URLs resolve: the URL list is replaced and the cursor reset to 0. The data then comes from fetching the first URL (`null` with no URLs, unchanged while the fetch is pending). In every other case the data becomes `null` and the URLs and cursor are kept. The mapping is never touched. |
| `Widget.App.SelectionChanged` | src/App.tsx:168-173 | The cell is loaded only when a record and a field are selected. Otherwise nothing changes. |
| `Widget.App.LoadNextImageExifData` | src/App.tsx:119-128 | Below the last index, the cursor moves up by one and the data becomes the fetch result for the new URL. Otherwise cursor and data are unchanged and `lastImage` is raised. The cursor stays within the list. |
| `Widget.App.LoadPreviousImageExifData` | src/App.tsx:130-139 | Above 0, the cursor moves down by one and the data becomes the fetch result for the new URL. Otherwise cursor and data are unchanged and `firstImage` is raised. The cursor stays within the list. |
| `Widget.ExifTextLines` | src/App.tsx:145 | The copied text is empty for `null` or empty data. Otherwise it splits at newlines into exactly one `key: value` line per entry, in entry order, provided no line itself contains a newline. |

## Left out

- Network `fetch`, blobs, `ExifReader.load` and `Image` decoding are I/O and library calls.
  Their results are the parameters `download` and `picture` of `FetchExifData`, and the
  handlers take `fetch: string -> Fetched` for how fetchExifData settles for each URL. Every
  object that `fetch` gives has no repeated label (`FetchesObjects`), as `FetchExifData` ensures.
- All Base SDK calls (getSelection, getTableById, getCellValue, getCellAttachmentUrls,
  setRecords, getActiveTable, getFieldMetaList, onSelectionChange) are host plumbing; their
  results are parameters. The text-field filter of the field list (src/App.tsx:150-158) is
  not modelled.
- React rendering, hooks, effect wiring, the clipboard, toasts and translated messages are UI;
  toasts appear only as `Notice` tags and the copied text as `ExifText`.
- The `updating` spinner flag is not modelled: with atomic handlers it is always false
  between handlers.
- Overlapping asynchronous fetches are not modelled; each handler runs atomically.
- JavaScript numbers are modelled as integers: fractions, NaN, exponent notation and
  values beyond 2^53 are not covered.
- `SecondsHundredths`: `parseFloat` is modelled only for numbers and strictly decimal integer
  strings; leading spaces, a `+` sign, fractions and trailing text are read as non-numeric.
- GPS `value` elements are scalars; the reader's rational pairs such as `[4656, 100]`, which
  JavaScript would print as `4656,100`, are not modelled, and neither is a `value` that is a
  string rather than an array.
- `Json`: `JSON.stringify` is modelled only over the `value` and `description` properties,
  without string escaping or the reader's other properties; no contract depends on its text.
- `JSON.parse` of the stored mapping is not modelled: local storage holds the mapping value
  itself, so a malformed stored string cannot occur.
- JavaScript objects are modelled with keys in insertion order; the rule that integer-like keys
  come first, and inherited properties such as `constructor`, are not modelled.
