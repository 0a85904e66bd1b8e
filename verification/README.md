# geoplot: the path pipeline of `src.js`, in Dafny

geoplot is a one-page browser script. It draws a location-history timeline as
a polyline on a map. The user can restrict the drawn path to a date/time
window, share the view through the page URL, and export the visible path as
KML. This project models the data pipeline inside that script and proves
properties of it:

- **Points** (`points.dfy`): the `[lat, lon, time]` triples, with `Date.parse`
  results as `Option<int>` (`None` is NaN). It also models JavaScript's `<`
  and `!=`, which are false and true respectively as soon as NaN is involved.
- **Time-window filter** (`window_filter.dfy`): the `forEach` of `draw`. It
  keeps exactly the points strictly inside the window, in order.
- **Draw step** (`draw_step.dfy`): `draw` as a pure transition over a record
  of the globals (`path`, `drawPath`), the controls (checkbox, start and end
  fields), the URL parameters and the pushed history.
- **Timeline ingestion** (`timeline.dfy`, on top of the string operations in
  `strings.dfy`): the `timelineFile` handler's loops. These cover
  `replace('°', '')` (first occurrence only), `split(',')`, the two-part test
  and the NaN guard.
- **KML coordinates** (`kml.dfy`): the `<coordinates>` text built from
  `drawPath`.
- **Clear** (`url_params.dfy`): the deletion of `s`, `e` and `p`.
- **Byte loops** (`binary_string.dfy`): `arrayBufferToBinaryString` and
  `binaryStringToBytes` around the gzip/base64 builtins.

Library functions are parameters of the operations that use them, and stay
uninterpreted:

| parameter | JavaScript it stands for |
|---|---|
| `parseDate` | `Date.parse` |
| `parseNumber` | `v => parseFloat(v.trim())` |
| `show` | number-to-string |
| `encode` | `compress(JSON.stringify(_))` |

The ingestion code is lenient in three ways, and the model keeps all three:

- An entry whose time does not parse is stored with a NaN time. This is
  logged under Findings.
- An entry is kept whenever its `point` text has exactly one comma, even if
  neither half parses. `"abc, def"` is stored with two NaN coordinates.
- No coordinate is range-checked against [-90, 90] or [-180, 180].

## Model

| member | source | states |
|---|---|---|
| WindowFilter.Filter | src.js:33-40 | the visible path is no longer than `path`, and each of its points comes from `path` and lies strictly inside the window |
| WindowFilter.FilterIsExactSelection | src.js:33-40 | the visible path is `path` read at strictly increasing positions, and a position is read if and only if its point passes `start < time && time < end` |
| WindowFilter.ExactSelectionIsFilter | src.js:33-40 | conversely, any in-order selection of exactly the passing points equals the visible path, so the filter is the unique order-preserving subsequence of passing points |
| WindowFilter.FilterMembership | src.js:35-39 | a point is visible if and only if it is in `path` and its time is strictly between the bounds |
| WindowFilter.FilterExcludesBounds | src.js:37 | a point whose time equals the start or the end is never visible (both bounds are exclusive) |
| WindowFilter.NaNBoundHidesEverything | src.js:30-37 | if either field fails to parse (NaN), no point passes and the visible path is empty |
| WindowFilter.NarrowAfterWide | src.js:37 | filtering the wider window's result with a narrower window gives the narrower window's result |
| WindowFilter.WideningKeepsPoints | src.js:37 | lowering the start or raising the end never removes a point and never shortens the visible path |
| WindowFilter.SelectVisible | src.js:33-40 | the `forEach`/`push` loop computes the filter, and its result holds exactly the passing points of `path` |
| DrawStep.Draw | src.js:18-51 | a non-null argument replaces `path`; the controls and every URL parameter other than `s`, `e`, `p` are left alone; at most one history entry is pushed, and it is the new parameter set |
| DrawStep.DrawEmptyPath | src.js:21-27 | with an empty path, `draw` returns early: only `path` changes, and `drawPath`, the parameters and the history keep their old values |
| DrawStep.DrawUnfiltered | src.js:45-47 | with filtering off and a non-empty path, `drawPath` is `path` itself, and `s` and `e` keep their old values |
| DrawStep.DrawFiltered | src.js:29-44 | with filtering on and a non-empty path, `drawPath` is the window filter of `path`, and `s`/`e` hold the raw field text |
| DrawStep.DrawWritesToken | src.js:49-77 | `p` is written and the parameters pushed exactly when `path` and `drawPath` are both non-empty; `p` is then the encoding of `drawPath`, not of `path`; otherwise `p` and the history are unchanged |
| DrawStep.TokenHoldsOnlyVisiblePoints | src.js:29-76 | with filtering on, a point is in the drawn and encoded path if and only if it is in `path` and inside the window |
| DrawStep.DrawIdempotent | src.js:18-77 | drawing again without an argument leaves `path`, `drawPath` and the parameters unchanged, and at most pushes a duplicate of the current parameters |
| DrawStep.Restore | src.js:205-218 | a non-empty `s` or `e` turns filtering on and fills its field; an absent or empty value leaves the controls alone; path, parameters and history do not change |
| DrawStep.RestoreAfterFilteredDraw | src.js:205-218 | a page opened on the parameters of a filtered `draw` with non-empty field texts gets back the checkbox and both texts |
| DrawStep.EmptyFieldNotRestored | src.js:205-218 | an empty start text is written to `s` but not restored, because `if (start)` treats `""` as absent |
| DrawStep.ClearUndoesDraw | src.js:151-155 | `clear` after a `draw` leaves the same parameters as `clear` before it |
| UrlParams.Clear | src.js:151-155 | `s`, `e` and `p` are absent afterwards; every other parameter is kept with its value, and none is added |
| UrlParams.ClearIdempotent | src.js:151-155 | clearing twice is clearing once |
| UrlParams.ClearForgetsOnlyView | src.js:151-155 | two parameter sets clear to the same set if and only if they agree on every parameter other than `s`, `e`, `p` |
| Strings.RemoveFirst | src.js:95 | `replace('°', '')` leaves a string without `°` unchanged and otherwise removes exactly one character |
| Strings.RemoveFirstAt | src.js:95 | the removed character is the first `°`: text before it is kept, and later `°` signs stay |
| Strings.RemoveFirstKeepsCount | src.js:95 | removing the `°` does not change the number of commas |
| Strings.Split | src.js:95 | `split(',')` yields at least one piece, even for the empty string |
| Strings.SplitLength | src.js:95 | `split(',')` yields one more piece than there are commas |
| Strings.SplitPartsFree | src.js:95 | no piece contains a comma |
| Strings.JoinSplit | src.js:95 | joining the pieces with commas gives back the string |
| Strings.SplitAt | src.js:95 | a comma after a comma-free prefix splits that prefix off as the first piece |
| Timeline.AcceptEntry | src.js:95-98 | an entry is kept if and only if its `point` text has exactly one comma; the kept point's coordinates are the parsed two pieces, and its time is the parsed `time` |
| Timeline.AcceptEntryChecked | src.js:96-97 | with the intended guard, an entry is kept if and only if it has one comma and its time parses; the kept point has the parsed two pieces as coordinates and the parsed, never NaN, time |
| Timeline.EntryPoints | src.js:94-100 | an entry list contributes at most one point per entry |
| Timeline.IngestEntries | src.js:94-100 | the inner loop appends the points of the kept entries, in entry order, after the existing `path` |
| Timeline.IngestSegments | src.js:92-101 | the outer loop appends the points of all entries in segment order, then entry order; the existing `path` stays as a prefix |
| Timeline.IngestTimeline | src.js:92-101 | the handler as written appends exactly the entries accepted by the as-written test |
| Timeline.IngestTimelineChecked | src.js:92-101 | with the intended guard, ingestion appends the checked entries, and no appended point has a NaN time |
| Timeline.EntryPointsAppend | src.js:94-100 | entry points distribute over concatenation of entry lists (nothing is reordered) |
| Timeline.FileEntriesAppend | src.js:92-93 | a file's entries distribute over concatenation of segment lists |
| Timeline.EntryPointsSingle | src.js:95-98 | a single entry contributes its accepted point when it has one comma, and nothing otherwise |
| Timeline.MalformedEntrySkipped | src.js:95-98 | an entry without exactly one comma contributes nothing and does not disturb the entries around it |
| Timeline.SegmentWithoutPathSkipped | src.js:93 | a segment without `timelinePath` is skipped |
| Timeline.IngestionComposes | src.js:92-101 | loading two files one after the other equals loading their segments in sequence; earlier points are neither reordered nor removed |
| Timeline.NaNGuardNeverRejects | src.js:97 | `time != NaN` holds for every time, NaN included |
| Timeline.PairParts | src.js:95 | a `point` text `<lat>°,<lon>` splits into exactly `lat` and `lon` |
| Timeline.PairCount | src.js:95 | such a text has exactly one comma |
| Timeline.ExampleEntry | src.js:95-98 | the entry `"35.0°, 139.0°"` becomes the point (`parse("35.0")`, `parse(" 139.0°")`, `Date.parse(time)`); the second `°` is not removed |
| Timeline.NaNTimeIsStored | src.js:96-98 | that entry with an unparsable time is still ingested, with a NaN time |
| Timeline.CheckedIngestionHasTimes | src.js:96-98 | with the intended guard, no ingested point has a NaN time |
| Kml.Coordinates | src.js:130-133 | the coordinate text of an empty `drawPath` is the empty string |
| Kml.BuildCoordinates | src.js:130-133 | the `forEach` appending `lon,lat,0.0 ` per point computes the coordinate text |
| Kml.CoordinatesAppend | src.js:131-133 | the text of a concatenation is the concatenation of the texts, so vertices appear in path order |
| Kml.CoordinatesReadBack | src.js:130-133 | when no printed number contains a space or comma, splitting the text on spaces gives one vertex per point in order, followed by an empty piece |
| Kml.VertexFields | src.js:132 | each vertex splits on commas into longitude, latitude and `0.0`, in that order |
| BinaryString.CharOf | src.js:165 | `String.fromCharCode` of a byte has that byte as its code |
| BinaryString.ByteOf | src.js:188 | storing a char code into a `Uint8Array` keeps it modulo 256 |
| BinaryString.ByteOfCharOf | src.js:160-191 | a byte survives the trip through a char |
| BinaryString.CharOfByteOf | src.js:160-191 | a char survives the trip through a byte if and only if its code is below 256 |
| BinaryString.ArrayBufferToBinaryString | src.js:160-169 | one char per byte, same length, each code equal to its byte and below 256 |
| BinaryString.BinaryStringToBytes | src.js:185-191 | a new array of the string's length whose elements are the char codes modulo 256 |
| BinaryString.RoundTrip | src.js:160-191 | `binaryStringToBytes(arrayBufferToBinaryString(b))` is a new array with the same contents as `b` |
| BinaryString.StringRoundTrip | src.js:160-191 | a string whose codes are all below 256, as `atob` produces, survives the trip through bytes |

## Left out

- The Leaflet map, tile layer, polyline and `fitBounds` (src.js lines 1, 11-16, 19 and 53-72): rendering, with no effect on the data.
- The DOM event wiring, `FileReader`, and `JSON.parse` of the timeline file: I/O. The model starts from the parsed segments.
- Malformed JSON shapes, because the model starts from well-formed records. A file without `semanticSegments` throws a `TypeError` at `json.semanticSegments.forEach`, before any loop starts. An entry without a `point` string throws mid-loop: the points pushed so far stay, and `draw` is not called.
- `JSON.stringify`, the gzip `CompressionStream`/`DecompressionStream` (RFC 1952) and `btoa`/`atob` (base64, section 4 of RFC 4648): foreign builtins. Their composition is the opaque `encode`.
- The decoding half of `init` (src.js lines 208 and 220-223): `JSON.parse(await decompress(p))` runs only through the builtins above, so the restored path is not modelled. The field restore (lines 206-218) is modelled as `DrawStep.Restore`. The final `draw(restoredPaths)` is `Draw` with a `Some` argument. JSON turns a NaN time into `null`, and `null` compares as 0, so restored NaN times are not modelled either.
- The `async` ordering of `draw` and `compress`: overlapping draws can finish out of order. The model runs each draw to completion.
- Aliasing: `drawPath = path` makes both globals share one array, so a push into `path` shows in `drawPath` before the next `draw`. The model has value semantics, and every ingestion is followed by `draw`.
- `URLSearchParams` is a map: parameter order and repeated names are not modelled. `history.replaceState` and `location.reload` in `clear` are I/O.
- The KML document skeleton, `XMLSerializer`, the Blob and the download: I/O around the coordinate text.
- `charCodeAt` returns UTF-16 code units, while a Dafny char is a Unicode scalar value. The two agree on the binary strings `atob` produces, whose codes are all below 256.
- `Kml.Coordinates`: its contract states only the empty case. The in-order content is stated by `Kml.CoordinatesAppend` and `Kml.CoordinatesReadBack`.
- `Timeline.EntryPoints`: its contract states only the length bound. Contents and order are stated by `Timeline.EntryPointsSingle` and `Timeline.EntryPointsAppend`.

## Findings

| source | as written | input that shows it | evidently intended | confidence | as-written member | corrected member |
|---|---|---|---|---|---|---|
| src.js:96-97 | `time != NaN` is true for every number, NaN included, so the guard never rejects an entry | an entry with `point` `"35.0°, 139.0°"` and a `time` that `Date.parse` cannot read is pushed with a NaN time | `!isNaN(time)`, which drops entries whose time does not parse | high for the guard's behaviour; not executed | Timeline.NaNTimeIsStored | Timeline.CheckedIngestionHasTimes |
