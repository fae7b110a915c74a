# Webcam snapshot index — a Dafny model

This project models a small camera-snapshot system. It has three parts.

- **The capture function** (`function_app.py`) runs on a timer. It moves an ONVIF camera to each configured preset and captures a snapshot. It uploads the image as `YYYY/MM/DD/{period}_{YYYY-MM-DD}_{file}`, where the period is `early`, `midday`, `late` or `night`. It then records the image in that day's `YYYY/MM/DD/index.json`. That file holds one entry per (preset, period), updated in place or appended.
- **The history page** (`web/history.js`) reads that index for a day. It recovers each entry's period from its path with `/\/(\w+)_\d{4}-\d{2}-\d{2}/` and groups the entries by period. It orders the groups with unknown periods first, then early, midday, late and night, and sorts each group by preset. Buttons step the shown day back or forward by one.
- **The camera helpers** (`onvif_client.py`) cover four pieces: the ONVIF service address, the rewrite of the host in the RTSP address the camera reports, the choice of a frame from the stream, and the bounded retry around a capture.


## Modules

| module | file | contents |
|---|---|---|
| `Wrappers` | `wrappers.dfy` | `Option` and `Result` |
| `Text` | `text.dfy` | digits and word characters, decimal rendering, `padStart`, Python's `str.strip`, `str.split` and `join` |
| `Calendar` | `calendar.dfy` | Gregorian dates, next and previous day |
| `IndexDocument` | `index_document.dfy` | the JSON document shared by writer and reader |
| `SnapshotIndex` | `snapshot_index.dfy` | the capture function's side |
| `History` | `history.dfy` | the history page |
| `Onvif` | `onvif.dfy` | the camera helpers |
| `IndexContract` | `index_contract.dfy` | the writer/reader agreement |

The model keeps the source's imperative form where the source changes state in place:

- `SnapshotIndex.DailyIndex` is an object whose `snapshots` list `Upsert` updates. Its loop matches the source's `for … break`.
- `VisitTargets` is the loop over the targets that collects failures; `VisitTarget` is one pass of it.
- `History.GroupByPeriod` fills the `groups` map in a loop.
- `History.SortByPreset` sorts an array in place.
- `History.DayBrowser` holds the page's `currentDate`.
- `Onvif.Warmup`, `Onvif.CollectFrames` and `Onvif.RetryCaptures` are the loops of `capture_snapshot` and `snapshot_with_retry`.

Five loops are proved against a specification function: `Upsert` against `Upserted`, `VisitTargets` against `Replay` and `Failures`, `GroupByPeriod` against `FirstSeen` and `Group`, `CollectFrames` against `ValidFrames`, and `SortByPreset` with `InsertAt` against `InsertionSorted`. The properties are stated as lemmas about those functions. The loops of `Warmup`, `RetryCaptures` and `BuildSections` state their results directly in their postconditions.

Two JavaScript behaviours are modelled as the code has them:

- An entry without a `path` makes the grouping loop throw. So does an entry whose period is a name every object inherits, such as `constructor` or `toString`: `groups[period]` is then already truthy and `push` is not a function. In both cases the `.catch` renders the empty list, so the page shows the "no images" message.
- The sort of the groups is stable. Periods of equal rank keep their first-occurrence order.

## Model

| member | source | states |
|---|---|---|
| `SnapshotIndex.HourLabel` | function_app.py:58-61 | the label is always one of `early`, `midday`, `late`, `night` |
| `SnapshotIndex.HourLabelRanges` | function_app.py:58-61 | for hours 0–23: `early` iff 5–9, `midday` iff 10–14, `late` iff 15–20, `night` iff 0–4 or 21–23 |
| `SnapshotIndex.HourLabelIsPeriodWord` | function_app.py:58-61 | every label is a non-empty run of word characters without `_` |
| `Text.Strip` | function_app.py:49 | `str.strip()`: the input with its leading and trailing whitespace cut; the result neither starts nor ends with whitespace and holds only characters of the input; properties: `StripSpec`, `StripPadded` |
| `Text.StripSpec` | function_app.py:49 | `p.strip()` is a slice of `p` that does not start or end with whitespace; only whitespace is cut from either side |
| `Text.StripPadded` | function_app.py:49 | `strip` removes exactly the whitespace padding around a non-empty stripped string |
| `Text.Split` | function_app.py:49 | `split(',')` gives at least one piece; no piece contains the separator |
| `Text.JoinSplit` | function_app.py:49 | joining the pieces with the separator gives the input back |
| `Text.SplitJoin` | function_app.py:49 | splitting undoes joining separator-free pieces |
| `SnapshotIndex.NonEmptyStripped` | function_app.py:49 | the kept tokens are non-empty and stripped, and comma-free when the pieces are |
| `SnapshotIndex.ParsePresets` | function_app.py:49 | every preset is non-empty, stripped and free of commas |
| `SnapshotIndex.NonEmptyStrippedSingle` | function_app.py:49 | a blank piece contributes nothing; any other piece contributes its stripped text |
| `SnapshotIndex.NonEmptyStrippedConcat` | function_app.py:49 | the tokens of two runs of pieces are those of the first followed by those of the second, so blank pieces such as in `1,,2` drop out and the others keep their order |
| `SnapshotIndex.ParsePresetsOfJoin` | function_app.py:49 | parsing the comma-join of such presets gives them back in their order |
| `SnapshotIndex.NonEmptyStrippedPadded` | function_app.py:49 | pieces made of a non-empty stripped token between whitespace-only pads give back exactly the tokens, in order |
| `SnapshotIndex.ParsePresetsPadded` | function_app.py:49 | a setting such as `" a , b\t"`, written as comma-joined presets with whitespace padding, parses to the presets, in order |
| `SnapshotIndex.Targets` | function_app.py:79-83 | `PRESETS or [None]`: the configured presets in order, or the single target `None` when none is set; properties: `TargetLabels` |
| `SnapshotIndex.Label` | function_app.py:79-83 | `preset or 'current'`: a non-empty preset labels itself, anything else is `current`; properties: `TargetLabels` |
| `SnapshotIndex.TargetLabels` | function_app.py:79-83 | with no presets there is exactly one target, `None`, labelled `current`; otherwise the targets are the presets, each labelled by itself |
| `SnapshotIndex.TwoDigits` | function_app.py:56-57 | `%m`/`%d`: two decimal digits whose value is the number |
| `Text.Decimal` | function_app.py:56-57 | `%Y` and `String(n)`: digits without a leading zero whose value is `n` |
| `SnapshotIndex.DatePrefix` | function_app.py:56 | `strftime('%Y/%m/%d')`: the year, then month and day as two digits, separated by `/`; properties: `TwoDigits`, `Text.Decimal`, `IndexContract.BlobPathShape` |
| `SnapshotIndex.DateStr` | function_app.py:57 | `strftime('%Y-%m-%d')`: the same fields separated by `-`, the document's `date`; properties: `IndexContract.AddressAgreement` |
| `SnapshotIndex.TimeText` | function_app.py:121-127 | `strftime('%H:%M')`: hour and minute as two digits each, separated by `:`; properties: `TwoDigits` |
| `SnapshotIndex.IndexBlobPath` | function_app.py:67 | the day's prefix followed by `/index.json`, where the index document is stored; properties: `IndexContract.AddressAgreement` |
| `SnapshotIndex.Basename` | function_app.py:98 | the file name has no `/`, ends the path, and is preceded by `/` when shorter than the path |
| `SnapshotIndex.BlobPath` | function_app.py:102 | the blob path starts with the period's prefix pattern of line 117 |
| `SnapshotIndex.UploadedPath` | function_app.py:87-114 | a target has an uploaded path iff its capture and its upload succeeded; the path lies in the prefix of the hour's period |
| `SnapshotIndex.FirstMatch` | function_app.py:119-120 | the index of the leftmost entry with this preset and a path in the prefix, or none when no entry qualifies |
| `SnapshotIndex.Upserted` | function_app.py:117-130 | the first entry matching (label, prefix) gets the new time and path in place, else a new entry is appended; properties: `UpsertedLength`, `UpsertedRecords`, `UpsertIdempotent`, `UpsertMatchCount`, `UpsertOtherCounts`, `UpsertKeepsUnique` |
| `SnapshotIndex.UpsertedLength` | function_app.py:117-130 | the list grows by one exactly when no entry matched; otherwise its length is unchanged |
| `SnapshotIndex.UpsertedRecords` | function_app.py:117-130 | afterwards the first matching entry is `{time, preset: label, path: blob_path}` |
| `SnapshotIndex.UpsertIdempotent` | function_app.py:117-130 | repeating the same upsert changes nothing |
| `SnapshotIndex.UpsertMatchCount` | function_app.py:117-130 | the number of entries for (label, prefix) becomes 1 if it was 0 and is otherwise unchanged |
| `SnapshotIndex.UpsertOtherCounts` | function_app.py:117-130 | the counts for other presets, and for prefixes incomparable with this one, are unchanged |
| `SnapshotIndex.PeriodPrefixesIncomparable` | function_app.py:117 | the prefix patterns of two different periods of one day are not prefixes of each other |
| `SnapshotIndex.UpsertKeepsUnique` | function_app.py:102-130 | an upsert with the period's prefix and any path in that prefix keeps "at most one entry per (preset, period)" |
| `SnapshotIndex.DailyIndex.Load` | function_app.py:73-77 | the stored document, or `{"date": date_str, "snapshots": []}` when it cannot be read |
| `SnapshotIndex.DailyIndex.Upsert` | function_app.py:117-130 | the list becomes `Upserted(old list)`; the date is untouched; a document without `snapshots` fails and is left unchanged |
| `SnapshotIndex.TargetFails` | function_app.py:82-148 | a target fails when its capture, its image upload, the lookup of the `snapshots` list or its alias upload raised |
| `SnapshotIndex.Replay` | function_app.py:82-148 | the `snapshots` list after the first `n` targets: each uploaded target upserted under its label, in processing order; it exists iff the loaded list existed; properties: `ReplayNonEmpty`, `ReplayKeepsUnique`, `VisitTargets` |
| `SnapshotIndex.Failures` | function_app.py:82-148 | the labels of the failed targets among the first `n`, in processing order; properties: `FailuresEmptyIff`, `VisitTargets` |
| `SnapshotIndex.FailuresEmptyIff` | function_app.py:143-160 | the failure list holds at most one label per target, and is empty iff no target failed; the run reports failed targets exactly then (a failed index upload raises with no failed target) |
| `SnapshotIndex.ReplayNonEmpty` | function_app.py:150-157 | when the document has a list and any target uploaded its image, the list is non-empty afterwards, so the index is uploaded |
| `SnapshotIndex.ReplayKeepsUnique` | function_app.py:82-130 | a whole run keeps the list unique per (preset, period) |
| `SnapshotIndex.VisitTarget` | function_app.py:85-148 | one target: the list is upserted with the target's label and uploaded path when both the list and the path exist, and left alone otherwise; the target fails iff a step raised |
| `SnapshotIndex.VisitTargets` | function_app.py:82-148 | the loop over the targets: the list is the loaded one replayed through every target in order, and the failures are the failed labels in order |
| `SnapshotIndex.HandleSnapshotSequence` | function_app.py:52-160 | the final document is the loaded one replayed through all targets; upload iff `snapshots` is non-empty; the outcome is the index upload error, else `RuntimeError` with the failed labels in processing order, else completion |
| `Text.PadStart` | web/history.js:3 | `padStart`: the result has the target width, ends with the input, and is filled with the pad character |
| `History.Pad` | web/history.js:3 | `pad(n)` is all digits with value `n`; it has exactly two characters for 0 ≤ n ≤ 99 |
| `IndexContract.PadIsTwoDigits` | web/history.js:3 | `pad(n)` equals the function's `%m`/`%d` rendering for n < 100 |
| `IndexContract.AddressAgreement` | web/history.js:5-13 | the page fetches `BASE/` + the function's index blob path; the day label equals the function's `date_str` |
| `History.DayLabel` | web/history.js:5-13 | the heading `yyyy-mm-dd` built from `pad`; properties: `IndexContract.AddressAgreement` |
| `History.IndexUrl` | web/history.js:5-13 | `STORAGE_BASE/yyyy/mm/dd/index.json` for the day; properties: `IndexContract.AddressAgreement`, `LoadDay` |
| `History.GroupLengthSound` | web/history.js:36 | a non-zero group length is a match of the pattern at that position with that group length |
| `History.MatchLengthForced` | web/history.js:36 | a match at a position has exactly the group length the scan computes (greedy `\w+` has no other choice) |
| `History.MatchFrom` | web/history.js:36-37 | the captured group of the leftmost match of `/(\w+)_\d{4}-\d{2}-\d{2}` at or after a position, or none; properties: `MatchFromLeftmost`, `MatchFromNone` |
| `History.PeriodOf` | web/history.js:36-37 | `match ? match[1] : 'unknown'`; properties: `PeriodOfLeftmostMatch`, `PeriodOfNoMatch`, `IndexContract.PeriodRoundTrip` |
| `History.PeriodOfLeftmostMatch` | web/history.js:36-37 | the period is the group of the leftmost match |
| `History.PeriodOfNoMatch` | web/history.js:37 | a path the pattern does not match gets period `unknown` |
| `IndexContract.BlobPathShape` | function_app.py:102 | a blob path is `dddd/dd/dd/`, the period, then `_dddd-dd-dd` |
| `IndexContract.PeriodRoundTrip` | web/history.js:36-37 | for a blob path written as in function_app.py:102, with a 4-digit year and any non-empty word as period, the page recovers that period |
| `IndexContract.WriterEntryGroupedByHour` | web/history.js:34-58 | every entry the function writes is grouped under the period of its hour, which has a known rank and never throws |
| `History.FirstSeen` | web/history.js:34-40 | the group keys are distinct; they are exactly the periods of the entries |
| `History.Group` | web/history.js:34-40 | a group holds only entries of its period |
| `History.DistinctFirstOccurrence` | web/history.js:34-40 | the distinct keys are listed in the order of their first occurrences |
| `History.FirstSeenOrder` | web/history.js:34-40 | of two group keys, the one listed first is the period of an earlier entry: its first occurrence among the entries' periods comes first |
| `History.GroupInOrder` | web/history.js:34-40 | a group is the in-order subsequence of the entries with its period: the entries at strictly increasing positions, all positions with that period included |
| `History.GroupingIsPartition` | web/history.js:34-40 | the groups together hold every entry exactly as often as the input does |
| `History.GroupByPeriod` | web/history.js:34-40 | succeeds iff every entry has a path and a non-inherited period; then its keys are `FirstSeen` and each group is `Group`, in input order |
| `History.Rank` | web/history.js:42-58 | `periodOrder.indexOf`: −1 exactly for periods not in the list; otherwise the position of the period |
| `History.OrderGroups` | web/history.js:57-58 | the group keys stably sorted by rank: unknown periods, then early, midday, late, night; properties: `OrderGroupsPermutation`, `OrderGroupsSorted`, `OrderGroupsStable` |
| `History.OrderGroupsPermutation` | web/history.js:57-58 | ordering keeps exactly the groups |
| `History.OrderGroupsSorted` | web/history.js:57-58 | groups are in non-decreasing rank: unknown periods first, then early, midday, late, night |
| `History.OrderGroupsStable` | web/history.js:57-58 | periods of equal rank keep their first-occurrence order |
| `History.StrLeqTotal` | web/history.js:69 | any two presets are comparable |
| `History.StrLeqTrans` | web/history.js:69 | the preset order is transitive |
| `History.PresetSortedPairwise` | web/history.js:69 | in a sorted group every earlier preset is at most every later one |
| `History.InsertionSorted` | web/history.js:69 | the stable sort by preset as insertion sort; it keeps the multiset of entries; properties: `InsertionSortedSorted`, `InsertionSortedStable` |
| `History.InsertSorted` | web/history.js:69 | inserting an entry into a list sorted by preset keeps it sorted |
| `History.InsertionSortedSorted` | web/history.js:69 | the stable sort orders the entries by preset |
| `History.InsertWithKey` | web/history.js:69 | an inserted entry lands behind every entry with its own preset, and passes only entries with other presets |
| `History.InsertionSortedStable` | web/history.js:69 | the sort is stable: the entries with any one preset come out in their input order |
| `History.InsertAt` | web/history.js:69 | one insertion pass leaves the first `i + 1` cells as the old prefix with the old `a[i]` inserted; later cells are untouched |
| `History.SortByPreset` | web/history.js:69 | the array ends as `InsertionSorted` of its old contents: sorted by preset, a permutation, and stable for equal presets |
| `History.SortedSection` | web/history.js:69 | a section holds its group's entries, stably sorted by preset |
| `History.BuildSections` | web/history.js:57-69 | one section per ordered period, each holding exactly that period's entries stably sorted by preset (`SectionOf`) |
| `History.RenderSnapshots` | web/history.js:25-69 | an empty list, or one the grouping throws on, shows "no images"; otherwise sections in `OrderGroups(FirstSeen)` order, each its group stably sorted by preset |
| `History.Shown` | web/history.js:15-22 | a failed fetch, a non-OK response or unreadable JSON gives the empty list |
| `History.LoadDay` | web/history.js:5-22 | the heading is the day label, the fetched address is the index URL, and the grid is rendered from what the fetch gave |
| `Calendar.NextDay` | web/history.js:108-111 | the next day is a valid date after the given one |
| `Calendar.PrevDay` | web/history.js:103-106 | the previous day is a valid date before the given one |
| `Calendar.PrevOfNext` | web/history.js:103-111 | stepping forward then back returns to the same day |
| `Calendar.NextOfPrev` | web/history.js:103-111 | stepping back then forward returns to the same day |
| `Calendar.NextDayIsAdjacent` | web/history.js:108-111 | no valid date lies strictly between a day and the next |
| `History.DayBrowser.constructor` | web/history.js:1 | the page starts on the given day |
| `History.DayBrowser.ShowCurrentDay` | web/history.js:113 | the page's first load shows the day it starts on |
| `History.DayBrowser.ShowPrevDay` | web/history.js:103-106 | the current date becomes the previous day; that day is loaded |
| `History.DayBrowser.ShowNextDay` | web/history.js:108-111 | the current date becomes the next day; that day is loaded |
| `Onvif.ServiceUrl` | onvif_client.py:79-83 | known iff the service is `device`, `media` or `ptz`; then `http://` + ip + `/onvif/device_service`, `/onvif/media_service` or `/onvif/ptz_service` respectively; an unknown service gives `OnvifClientError` naming it |
| `Onvif.ServiceUrlInjective` | onvif_client.py:79-83 | equal service addresses have the same camera address and the same service |
| `Onvif.DottedLengthSound` | onvif_client.py:133 | what the scan matches is `count` non-empty digit runs joined by dots |
| `Onvif.DottedLengthGreatest` | onvif_client.py:133 | every dotted run at the start is at most the scanned length, and equals it when no digit follows |
| `Onvif.HostLength` | onvif_client.py:132-136 | the length of the `rtsp://d+.d+.d+.d+` match at the start of the address, 0 if none, never past its end; properties: `HostLengthGreedy` |
| `Onvif.Rewrite` | onvif_client.py:132-136 | `re.sub`: every host match, left to right without overlap, replaced by `rtsp://{camera_ip}`; properties: `RewriteNoHost`, `RewriteLeadingHost` |
| `Onvif.HostLengthGreedy` | onvif_client.py:132-136 | the match taken is an `rtsp://d+.d+.d+.d+` prefix, and the longest one |
| `Onvif.RewriteNoHost` | onvif_client.py:132-136 | an address without such a host is unchanged |
| `Onvif.RewriteLeadingHost` | onvif_client.py:132-136 | `rtsp://a.b.c.d` + rest becomes `rtsp://{camera_ip}` + rest when the rest holds no host |
| `Onvif.StreamUri` | onvif_client.py:129-136 | a missing or empty `tt:Uri` raises "RTSP URI not found"; otherwise its hosts are rewritten |
| `Onvif.IsValidFrame` | onvif_client.py:140-148 | `_is_valid_frame`: a frame is present, at least 100 by 100 pixels, and its contrast check passed; properties: `ValidFrames`, `CollectFrames` |
| `Onvif.ValidFrames` | onvif_client.py:140-148 | the kept frames are at least 100 by 100 pixels, and no more than were read |
| `Onvif.Warmup` | onvif_client.py:171-178 | at most 90 grabs are dropped, all successful; it stops early only at a failed grab or at the time limit |
| `Onvif.CollectFrames` | onvif_client.py:180-188 | the frames kept are the first valid ones in stream order: all of them if fewer than five arrived, otherwise the first five |
| `Onvif.ChooseFrame` | onvif_client.py:191-195 | no frames raises "No valid frames"; otherwise the chosen frame is in bounds and in the middle (as many or one more before it than after) |
| `Onvif.TmpPath` | onvif_client.py:198 | `os.path.join('/tmp', name)`: an absolute name is kept, otherwise the name is placed under `/tmp/` |
| `Onvif.SnapshotFileName` | onvif_client.py:225 | `snapshot_{preset}.jpg`, a missing preset printing as `None`; properties: `SnapshotFileInTmp` |
| `Onvif.SnapshotFileInTmp` | onvif_client.py:225 | the capture file is `/tmp/snapshot_….jpg` |
| `Onvif.CaptureSnapshot` | onvif_client.py:159-203 | an unopened stream raises; no valid frames raises; otherwise the saved frame is the middle one (`len // 2`) of the first at most five valid frames, and the `/tmp` path is returned, or a write error raised |
| `Onvif.Setup` | onvif_client.py:85-136 | in source order, a failed profiles request, a reply without profiles ("No media profiles found"), a failed preset move when a preset is set, or a failed stream address request raises before any attempt; a failed request raises `OnvifClientError` with its message; otherwise the stream address from the reply |
| `Onvif.RetryCaptures` | onvif_client.py:221-232 | at most `max_retries` attempts; every earlier attempt failed; the first success is returned; a foreign exception passes through; after all fail the error names `max_retries` and the last error |
| `Onvif.SnapshotWithRetry` | onvif_client.py:206-232 | an error of `Setup` (profile, preset move, stream address) raises before any attempt; otherwise at most `max_retries` attempts; every earlier attempt failed; the first success is returned; a foreign exception passes through; after all fail it raises with `max_retries` and the last error |

## Left out

- Azure Blob Storage: downloading and uploading blobs and the `latest/` alias copy. Each becomes a success flag (`TargetRun`, `indexUploadOk`, `Stored`).
- Environment loading and validation with `sys.exit`, logging, the timer and HTTP triggers.
- `datetime.utcnow()` is the parameter `now`. The page's local `new Date()` is the date `DayBrowser` starts from. Local time against UTC is not modelled.
- SOAP requests and XML parsing. The outcome of each request of `get_profile_token`, `goto_preset` and `get_stream_uri` is a parameter: an error, or success. Whether the profiles reply lists a profile is a flag; the token itself is not modelled. The `tt:Uri` element of the stream address reply is an optional string.
- OpenCV. Opening the stream, grabbing and reading frames, and writing the JPEG become flags and finite sequences. A frame is kept as its size plus one flag for the `cv2.meanStdDev` contrast test, which is floating point over a foreign call.
- The time limit of the capture loops is the length of the `grabs` and `frameReads` sequences. The `time.sleep` calls, `retry_delay` and `preset_wait` are not modelled.
- `_save_to_tmp` is not called by the core and is not modelled.
- `Onvif.SnapshotWithRetry`: each attempt's capture is an oracle, not composed with `Onvif.CaptureSnapshot`.
- `History.DayBrowser`: each load is modelled as finishing before the next click. In the page `loadDay` sets the heading at once and renders when its fetch resolves, so after two quick clicks a late response for the earlier day can fill the grid under the later day's heading.
- The DOM work of `renderSnapshots` is not modelled: elements, captions, the preset names, the key handlers and the lightbox. Neither are `web/global.js` and `web/index.js`.
- `History.SortByPreset`: `localeCompare` is approximated by code-point order.
- `History.SortByPreset`: an entry without a `preset` is compared as the text `undefined`. In the engine, `undefined.localeCompare` throws when such an entry is the comparator's first argument, and which argument it is depends on the sort algorithm.
- `History.RenderSnapshots`: `Object.entries` lists integer-like keys (a period such as `2024`) first, in numeric order. The model keeps first-occurrence order for every key.
- Extra JSON keys are not modelled: an entry or a document in the stored index may carry keys besides `time`, `preset`, `path` (entries) and `date`, `snapshots` (the document). The function updates the loaded dictionaries in place and dumps them again, so such keys survive a run (function_app.py:117-157); `IndexDocument.Entry` and `IndexDocument.IndexDoc` hold only these fields.
- JSON values of unexpected types are not modelled: `null` or numbers in entry fields, a `snapshots` that is not a list, or a document that is not an object. In the function, `index_data.get` on a list raises outside the per-preset handler.
- `Onvif.StreamUri`: the replacement text is taken literally. `re.sub` would interpret backslash escapes in a camera address containing `\`.
- `\d` and `str.strip` are modelled on ASCII. Python also matches Unicode decimal digits and strips Unicode whitespace.
- `IndexContract.PeriodRoundTrip`: the round trip is stated for years 1000–9999. For shorter years `strftime('%Y')` is platform-dependent and the page's `/\d{4}/` would not match.
