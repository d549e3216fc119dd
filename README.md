# Series tracker core, modelled in Dafny

This project models the logic of a small client-side tracker for TV series. It covers:

- the persisted collection store, with its load, add, update and delete operations;
- the series record and its four-valued status;
- the library page's search-and-status filter, and what that page shows;
- the "For You" recommendations: finished series rated 8 or more, sorted stably by rating, the top ten, and the share text built from them;
- the add/edit form: its schema bounds, the mapping from form values to record fields, the comma-separated tag text and the 5 MB poster limit;
- backup export and the all-or-nothing import that adds records one at a time;
- the edit page: finding the record by id and merging the form's output into it.

Modules follow the source files:

| module | source |
|---|---|
| `Types` | `src/types.ts` |
| `Store` | `src/store/useSeriesStore.ts` |
| `Home` | `src/pages/Home.tsx` |
| `Recommendations` | `src/pages/Recommendations.tsx` |
| `SeriesForm` | `src/components/SeriesForm.tsx` |
| `Settings` | `src/pages/Settings.tsx` |
| `EditSeries` | `src/pages/EditSeries.tsx` |

Three helper modules supply the JavaScript library behaviour the source relies on:

- `Wrappers` provides `Option`, which stands for `undefined`.
- `Seqs` provides `filter`, reversal and `slice(0, n)`.
- `JsString` provides `toLowerCase`, `includes`, `split`, `join`, `trim` and number text.

The store is a class. Its fields are:

- `series`, the in-memory list;
- `isLoading`;
- `db`, the key-value backend, reduced to a synchronous map.

Every mutation sets the list and then writes the whole list under the key `series-tracker-data`. The backend's answer is a boolean parameter: `writeOk` for writes, `readFails` for reads. A rejected write leaves the backend as it was.

Ratings are integers counted in half-points. The form's slider steps by 0.5 over 0..10, so a record saved through the form has a rating in 0..20. A record that arrives by import keeps the rating it carries, so the record type itself leaves the rating unbounded; a rating that is not a whole number of half-points cannot be represented (see Left out). "Rated 8 or more" becomes 16 half-points or more. The import loop is a `while` loop over the store object, and it is proved against `Reverse` of the records it adds.

A few behaviours follow from the code and are stated as proved properties:

- Editing a record without touching the form turns absent notes and platform into empty text. The form starts those inputs at `''`, and the merge copies them over (`EditSeries.EditWithoutChanges`).
- An import adds the file's records in file order, each at the front. The collection therefore holds them in reverse file order, ahead of the records it already had (`Settings.HandleImport`, `Settings.ImportedOrder`).
- A write rejected in the middle of an import ends the import with the parse-failure alert (`Settings.HandleImport`). The records written before it stay in the collection and in storage. The rejected record also stays in the in-memory collection, because `addSeries` sets the list before writing, but it is not in storage.
- An import file is an array of elements. Each element is `null` or an object. A number or string element has no `title`, so it counts as an object that fails the check. The check runs left to right and stops at the first element that fails. If that element is `null`, reading its `title` throws, and the import ends with the parse-failure alert rather than 'Invalid data format' (`Settings.EveryCheck`, `Settings.ImportOutcome`).

## Model

| member | source | states |
|---|---|---|
| Types.StatusNameRoundTrip | src/types.ts:1 | each status has its own text ("On Hold" with a space); exactly those four texts are statuses, and each reads back as its own status |
| Store.ReplaceByIdAt | src/store/useSeriesStore.ts:43-45 | position by position, an update puts the new record exactly where the id matches and keeps every other record |
| Store.ReplaceByIdNoMatch | src/store/useSeriesStore.ts:43-45 | an update whose id matches no record leaves the list unchanged |
| Store.ReplaceByIdKeepsIds | src/store/useSeriesStore.ts:43-45 | an update keeps the length and the sequence of ids, so it adds, drops and reorders nothing |
| Store.ReplaceByIdIdempotent | src/store/useSeriesStore.ts:43-45 | updating twice with the same record is the same as updating once |
| Store.RemoveByIdSpec | src/store/useSeriesStore.ts:52 | a delete keeps an order-preserving subsequence; a record remains iff it was there and its id differs; the kept and removed records together are the old list as a multiset |
| Store.RemoveByIdIdempotent | src/store/useSeriesStore.ts:52 | deleting twice is the same as deleting once |
| Store.RemoveByIdNoMatch | src/store/useSeriesStore.ts:52 | deleting an id that no record carries leaves the list unchanged |
| Store.SeriesStore.constructor | src/store/useSeriesStore.ts:17-18 | the store starts with an empty collection and `isLoading` true |
| Store.SeriesStore.LoadSeries | src/store/useSeriesStore.ts:20-32 | a stored list becomes the collection; nothing stored gives []; a failed read keeps the collection; loading ends in every case; the backend is not written |
| Store.SeriesStore.Save | src/store/useSeriesStore.ts:37-38 | the collection is set before the write; after a successful write the slot under the storage key equals the collection; `isLoading` is untouched |
| Store.SeriesStore.AddSeries | src/store/useSeriesStore.ts:34-39 | the collection becomes the new record followed by the old list, with no id check; it is persisted on success; `isLoading` is unchanged |
| Store.SeriesStore.UpdateSeries | src/store/useSeriesStore.ts:41-48 | the collection becomes the old list with every record of that id replaced; it is persisted on success; `isLoading` is unchanged |
| Store.SeriesStore.DeleteSeries | src/store/useSeriesStore.ts:50-55 | the collection becomes the old list without the records of that id; it is persisted on success; `isLoading` is unchanged |
| Store.AddThenReload | src/store/useSeriesStore.ts:20-39 | after a successful add, a fresh store over the same backend loads exactly the list the add produced, headed by the added record |
| Home.FilterSeriesSpec | src/pages/Home.tsx:20-26 | the result preserves order; an item is in it iff its lowered title includes the lowered query and its status passes the filter; shown and hidden items together are the collection as a multiset, so duplicates are kept |
| Home.FilterSeriesShowsAll | src/pages/Home.tsx:22-23 | an empty query with the 'All' filter shows the whole collection unchanged |
| Home.FilterSeriesIgnoresQueryCase | src/pages/Home.tsx:22 | two queries that are equal after lowering give the same result |
| Home.FilterSeriesLoweredQuery | src/pages/Home.tsx:22 | lowering the query first changes nothing |
| Home.HomeScreen | src/pages/Home.tsx:28-70 | the spinner is shown iff loading; otherwise the header counts the whole collection, the cards are the filtered items, the empty state appears iff no card is shown, "Add First Series" appears iff the collection is empty, the query is empty and the filter is 'All', and the start-tracking hint appears exactly with that button |
| Recommendations.Insert | src/pages/Recommendations.tsx:17 | inserting one record into the sorted prefix adds exactly that record (multiset) |
| Recommendations.SortByRating | src/pages/Recommendations.tsx:17 | the sort is a permutation of its input |
| Recommendations.InsertSorted | src/pages/Recommendations.tsx:17 | insertion keeps the list in non-increasing rating order |
| Recommendations.InsertStable | src/pages/Recommendations.tsx:17 | among records of one rating, the inserted record comes before the ones already placed |
| Recommendations.SortByRatingSorted | src/pages/Recommendations.tsx:17 | the sorted list has non-increasing ratings |
| Recommendations.SortByRatingStable | src/pages/Recommendations.tsx:17 | records of equal rating keep their collection order, as a stable `Array.prototype.sort` must |
| Recommendations.Recommend | src/pages/Recommendations.tsx:14-19 | there are at most 10 recommendations |
| Recommendations.RecommendSound | src/pages/Recommendations.tsx:14-19 | every recommendation is in the collection, is Finished and is rated 8 or more; there are at most 10; ratings do not increase |
| Recommendations.SortedIsRecommendThenLeftOut | src/pages/Recommendations.tsx:16-18 | the sorted qualifying list is the recommendations followed by the qualifying records cut off by the slice |
| Recommendations.RecommendComplete | src/pages/Recommendations.tsx:16-18 | the recommendations and the cut-off records together are all qualifying records (multiset); with at most 10 qualifying, the recommendations are a permutation of all of them |
| Recommendations.LeftOutRatedNoHigher | src/pages/Recommendations.tsx:16-18 | every qualifying record left out is rated no higher than every recommended one |
| Recommendations.RecommendKeepsTies | src/pages/Recommendations.tsx:17 | for each rating, the recommended records of that rating are the first ones of that rating in collection order |
| Recommendations.ShareOfferedIffQualifying | src/pages/Recommendations.tsx:51 | the share button (non-empty list) is shown iff some record in the collection qualifies |
| Recommendations.RatingText | src/pages/Recommendations.tsx:23 | a rating's text is non-empty and has no line break |
| Recommendations.RatingTextRoundTrip | src/pages/Recommendations.tsx:23 | the text written for a non-negative rating ("n" or "n.5") reads back as that same rating |
| Recommendations.ShareLine | src/pages/Recommendations.tsx:23 | a line has no line break when the title has none |
| Recommendations.ShareTextLines | src/pages/Recommendations.tsx:22-24 | split at line breaks, the share text is the header, an empty line, then line i + 1 for recommendation i ("n. title (rating/10)") |
| Recommendations.ShareTextHead | src/pages/Recommendations.tsx:22 | the header and the blank line come first, ahead of the body's lines |
| Recommendations.ShareTextEmpty | src/pages/Recommendations.tsx:22-24 | with no recommendations the text is the header followed by two empty lines |
| SeriesForm.NumberRoundTrip | src/components/SeriesForm.tsx:72-74 | a number field makes the round trip from a record to the form (the falsy-to-blank default of lines 39-41) and back unchanged, in both directions, except zero, which is falsy both ways and comes back absent |
| SeriesForm.ParseTagsSpec | src/components/SeriesForm.tsx:66-68 | parsed tags are non-empty, comma-free and trimmed; they keep the order of the pieces; a tag is present iff it is a non-empty trimmed piece (so empty text gives []) |
| SeriesForm.ParseTagsCounts | src/components/SeriesForm.tsx:66-68 | for any text, the empty one included, parsing drops only empty pieces: each non-empty trimmed piece appears among the tags exactly as often as in the text, so repeated tags are kept |
| SeriesForm.TagsRoundTrip | src/components/SeriesForm.tsx:66-68 | well-formed tags joined by ", " (the default value, line 46) parse back to the same tags |
| SeriesForm.TagPiecesOfJoin | src/components/SeriesForm.tsx:66-67 | the trimmed comma pieces of joined well-formed tags are the tags |
| SeriesForm.TrimPadded | src/components/SeriesForm.tsx:67 | trim leaves a well-formed tag as it is, including behind the space of ", " |
| SeriesForm.Submit | src/components/SeriesForm.tsx:65-82 | the form submits iff the values pass the schema (lines 12-22); what it submits has a title, a year in 1900..next year if any, seasons and episodes of at least 1 if any, a rating in 0..10, the selected status, the current poster and well-formed tags; title, rating, notes and platform are the values as entered, year, seasons and episodes are the entered numbers or absent when blank, and the tags are the parsed tag text |
| SeriesForm.NewFormNeedsTitle | src/components/SeriesForm.tsx:37-47 | the form for a new series starts with an empty title, so it cannot be submitted untouched |
| SeriesForm.PosterField.constructor | src/components/SeriesForm.tsx:33 | the poster starts as the edited record's poster, or none |
| SeriesForm.PosterField.HandleImageUpload | src/components/SeriesForm.tsx:50-63 | the size alert is raised iff a file over 5·1024·1024 bytes is picked; such a file, or no file, leaves the poster unchanged; any other file becomes the poster |
| SeriesForm.PosterField.Clear | src/components/SeriesForm.tsx:101 | the remove button clears the poster |
| Settings.EveryCheck | src/pages/Settings.tsx:35 | the check passes iff every element is an object with a truthy title and status; it throws iff the first element that does not pass is `null`, and it fails iff that element is an object |
| Settings.ImportOutcome | src/pages/Settings.tsx:31-69 | success iff the file is an array, passes the check, is confirmed and no write is rejected; 'Invalid data format' iff the check stops at an object; the parse-failure alert iff the text does not parse, the check stops at `null`, or a write is rejected |
| Settings.AddedCount | src/pages/Settings.tsx:59-61 | records are added only once the import starts, and no more of them than the file holds |
| Settings.WrittenCount | src/pages/Settings.tsx:59-61 | no more writes are persisted than records added |
| Settings.HandleImport | src/pages/Settings.tsx:25-74 | the outcome is the parse/check/confirm/loop result; an import that does not start changes neither the collection nor the backend; otherwise the collection becomes the added records reversed, ahead of the old list; the backend then holds the list as of the last accepted write, or is untouched when nothing was written; `isLoading` is unchanged |
| Settings.AddInOrder | src/pages/Settings.tsx:59-62 | the loop stops exactly at the first rejected write; the records added so far are in the collection in reverse order, ahead of the old list; the backend holds the list as of the last accepted write |
| Settings.NoPartialImport | src/pages/Settings.tsx:33-41 | a non-array, a failed check or a declined confirmation adds and writes nothing and is not reported as imported |
| Settings.ImportedOrder | src/pages/Settings.tsx:59-61 | after a complete import, position k holds file element n-1-k for k < n, then the old records; as a multiset the collection is the file's records plus the old ones, so nothing is lost or duplicated |
| Settings.Export | src/pages/Settings.tsx:12-23 | the backup holds the whole collection; its name is "turkish-series-backup-", then a 'T'-free prefix of the timestamp that ends at its first 'T' or at its end, then ".json" |
| Settings.DatePartSpec | src/pages/Settings.tsx:18 | the date part is the prefix of the timestamp before its first 'T', or all of it when there is none |
| EditSeries.FindById | src/pages/EditSeries.tsx:11 | the result is absent iff no record has the id; otherwise it is the first record with the id |
| EditSeries.EditPage | src/pages/EditSeries.tsx:11-21 | the page shows loading and requests a reload iff no record has the route's id; otherwise it edits the first record of the collection with that id |
| EditSeries.Merge | src/pages/EditSeries.tsx:24-28 | the merged record keeps `id` and `createdAt`, and `updatedAt` is now |
| EditSeries.MergeTakesFormFields | src/pages/EditSeries.tsx:24-28 | every field the form returns is the merged record's field, absent ones included |
| EditSeries.EditWithoutChanges | src/pages/EditSeries.tsx:23-28 | saving the untouched form of a form-shaped record passes the schema and gives the record back with `updatedAt` refreshed and absent notes and platform as "" |
| EditSeries.SubmitEdit | src/pages/EditSeries.tsx:23-31 | one update with the merged record; the collection and backend change as that update says |
| EditSeries.SubmitEditEffect | src/pages/EditSeries.tsx:23-29 | after the edit, every record with the route's id is the merged record (same id), every other record is untouched, and the length is kept |

## Left out

- The backend's asynchrony. Overlapping or racing writes and the ordering of `await`s are not modelled: each operation runs to completion before the next.
- The backend is not modelled beyond one map slot. A rejected write is assumed to leave the slot as it was.
- JSON parsing and serialisation, FileReader, Blob, object URLs and the download link. The parsed file and the ISO timestamp are inputs.
- `alert`, `confirm`, the share/clipboard APIs and the clock. They are parameters or result values; the text of the confirmation message is not modelled.
- Settings.HandleImport: the source imports any element whose `title` and `status` are truthy, with its status unchecked. `Status` has only the four values, so the model cannot hold a record with another status.
- Settings.HandleImport: an imported rating that is not a whole number of half-points (7.3, say) or is not a number at all (the text "9", say) cannot be represented, because ratings are integers counted in half-points.
- Settings.HandleImport: an object element is taken to be the record it stands for. Extra or missing JSON fields beyond the truthiness of `title` and `status` are not modelled.
- SeriesForm.Submit: zod's number coercion, NaN and fractional numbers are not modelled. The form's numbers are integers, blank or present, and ratings are half-points.
- JsString.Lower: only ASCII letters are lowered. Full Unicode case mapping is not modelled.
- JsString.Trim: only ASCII spaces and the control characters tab through carriage return count as white space. Unicode white space is not modelled.
- Recommendations.RatingText: the text of a half-point rating is written out as "n" or "n.5". JavaScript's general number-to-string conversion is not modelled.
- The grid/list view toggle, styling, routing and navigation after a submit.
- `src/pages/AddSeries.tsx` is not part of this model: its id and timestamps come from `uuidv4` and `Date.now`.
- `src/pages/SeriesDetails.tsx` is not part of this model. Its find-by-id is the one in `EditSeries.FindById`.
