# Job tracker persistence layer, modelled in Dafny

This project models the persistence layer of a personal job-application
tracker. It covers two source files.

- `src/lib/storage.ts` keeps the job records and the last-used filter in the
  browser's `localStorage`. A coordinator tries a remote REST API first
  whenever remote storage is configured, and falls back to the local store on
  any failure. It also holds the pure `applyFilters` pipeline: search, status
  filter and sort.
- `src/lib/logger.ts` keeps a capped buffer of log entries in `localStorage`.
  It decides by the configured level which messages are recorded at all.

## Layout

| file | module | models |
|---|---|---|
| `wrappers.dfy` | `Wrappers` | `Option`, standing for JavaScript's `undefined` |
| `web_storage.dfy` | `WebStorage` | one `localStorage` key (`Slot`: absent, corrupt or stored) and the outcome of `setItem` |
| `types.dfy` | `Types` | the record, interview, status and filter types of `src/types/types.ts` |
| `sequences.dfy` | `Sequences` | `Array.prototype.filter` (`Keep`), `String.prototype.includes` (`Includes`) and the stable `Array.prototype.sort` (`Sort`) |
| `job_filters.dfy` | `JobFilters` | `applyFilters` and the default filter |
| `storage.dfy` | `Storage` | the record operations, the `JobStore` class (the `jobs` and `jobFilter` keys) and the remote-then-local coordinator |
| `logger.dfy` | `Logger` | the `Log` class (the `application_logs` key), `saveLog`'s trimming loop and the level gates |

How the environment is modelled:

- **Browser storage.** The local store is a class. Its fields are the stored
  keys and a `quotaExceeded` flag, which is true when the browser refuses
  writes. Each method updates the fields the way the source's
  read-modify-write does.
- **Remote calls.** Every coordinator method takes the `Response` the remote
  call would give: `Ok(body)` or `Fail`. `Fail` stands for a network error, a
  non-OK status or an unparsable body. The method returns the `Request` it
  sends, or `None` when remote storage is off. That is how the model states
  that no remote call is made.
- **Ids and clocks.** `uuidv4()` becomes a `freshId` parameter that is required
  to be absent from the local list. `new Date().toISOString()` becomes a `now`
  parameter.
- **Runtime services.** `toLowerCase`, `localeCompare` and `Date.getTime` are
  fields of a `Runtime` value. Their behaviour is left abstract.
  - `localeLe(a, b)` means `a.localeCompare(b) <= 0`.
  - The ordering lemmas require this to be a total preorder.
- **Sorting.** `Sort` is a stable insertion sort. Any stable sort under the
  same total preorder gives the same result, so it stands for the engine's
  `Array.prototype.sort`.

## What the code does, as modelled

Four behaviours of the code differ from an idealised description of the
layer. The model follows the code in each:

- **No timeout, no connectivity flag.** Remote requests have no timeout, and
  no connectivity flag is kept. The model has neither.
- **404 falls back.** `getJobById` treats every non-OK response, a 404
  included, as a failure and answers from the local store.
  - `Storage.JobStore.GetJobById` models this.
- **Missing date sorts as 0.** A record without an `applicationDate` sorts
  with date key 0, not by `lastUpdated`.
  - `JobFilters.DateKey` models this.
  - `JobFilters.UndatedSortsLast` shows the consequence.
- **Local update of an absent id.** Updating an id that no local record has
  inserts nothing, yet the stamped record is still returned.
  - `Storage.JobStore.UpdateJob` and `Storage.ReplacedAbsent` model this.
  - After such an update, `getJobById` finds nothing under that id.

`getApplicationCount` is `Storage.JobStore.ApplicationCount`. Its behaviour is
stated in the contracts of `AddJob` (one more record) and `UpdateJob` (same
count). `getMongoDBConfig` is `Storage.GetMongoDBConfig`. `DEFAULT_LOG_LEVEL`
is `Logger.DefaultLogLevel`.

## Model

| member | source | states |
|---|---|---|
| `Sequences.Keep` | src/lib/storage.ts:295-305 | `filter` keeps exactly the elements that satisfy the predicate, and never more than the input holds |
| `Sequences.Includes` | src/lib/storage.ts:296-299 | `includes` is true exactly when the term occurs as a contiguous substring at some index |
| `Sequences.Sort` | src/lib/storage.ts:309-329 | the sort returns a permutation of its input |
| `Sequences.SortSorted` | src/lib/storage.ts:309-329 | under a total preorder the sorted sequence is ordered |
| `Sequences.SortStable` | src/lib/storage.ts:309-329 | the sort is stable: elements that tie keep their input order |
| `JobFilters.FilterStages` | src/lib/storage.ts:293-306 | the search stage followed by the status stage keeps exactly the records that pass both filters, in input order |
| `JobFilters.ApplyFiltersSelects` | src/lib/storage.ts:289-331 | a record is in the result iff it is in the input, matches the lower-cased term in one of the four fields when the search is non-empty, and has the selected status unless the status is `all`; each passing record occurs as often as in the input |
| `JobFilters.ApplyFiltersPermutes` | src/lib/storage.ts:289-331 | with an empty search and status `all` the result is a permutation of the input |
| `JobFilters.OrderIsTotalPreorder` | src/lib/storage.ts:309-329 | the comparator, for every key and direction, is a total preorder when `localeCompare` is |
| `JobFilters.ApplyFiltersOrdered` | src/lib/storage.ts:309-329 | the result is ordered by date key (0 when missing), by company name or by status name; `desc` reverses the key order |
| `JobFilters.ApplyFiltersStable` | src/lib/storage.ts:309-329 | result records that tie on the sort key appear in their input order |
| `JobFilters.ApplyFiltersIdempotent` | src/lib/storage.ts:289-331 | applying the same filter to the result gives the result again |
| `JobFilters.LaterDateFirst` | src/lib/storage.ts:313-316 | under the default filter, of two dated records the later date comes first, whatever the input order |
| `JobFilters.UndatedSortsLast` | src/lib/storage.ts:314-315 | a record without an application date has key 0 and sorts after a record with a positive date under `desc` |
| `JobFilters.SearchIgnoresCase` | src/lib/storage.ts:293-300 | with a lower-casing that maps "Acme Corp" to "acme corp", the search "acme" selects the record |
| `Storage.GetMongoDBConfig` | src/lib/storage.ts:15-23 | remote storage is enabled iff the MongoDB URI is set and non-empty; an unset API URL reads as `''` |
| `Storage.NewJob` | src/lib/storage.ts:96-101 | the new record carries the draft's fields, the given fresh id and timestamp, and status `applied` when the draft has none |
| `Storage.FindById` | src/lib/storage.ts:91 | `find` returns nothing iff no record has the id, else a record with the id such that no earlier record has it |
| `Storage.Replaced` | src/lib/storage.ts:172-174 | `map` keeps the length, puts the new version at every index whose id matches, and leaves every other index unchanged |
| `Storage.Without` | src/lib/storage.ts:211 | `filter` keeps exactly the records whose id differs |
| `Storage.AppendFresh` | src/lib/storage.ts:127-128 | appending a record with a fresh id keeps ids unique and makes the id find that record |
| `Storage.ReplacedKeepsIds` | src/lib/storage.ts:181-183 | an update leaves the id at every index unchanged, so ids stay unique |
| `Storage.ReplacedAbsent` | src/lib/storage.ts:180-186 | updating an id that no record has leaves the list as it was: nothing is inserted |
| `Storage.FindAfterReplace` | src/lib/storage.ts:181-183 | after an update the id finds the new version if some record had it and nothing otherwise; other ids find what they found before |
| `Storage.WithoutAbsent` | src/lib/storage.ts:216-218 | deleting an id that no record has leaves the list unchanged |
| `Storage.WithoutIdempotent` | src/lib/storage.ts:216-218 | deleting an id twice gives the same list as deleting it once |
| `Storage.WithoutKeepsRest` | src/lib/storage.ts:210-212 | deletion drops every record with the id, keeps each other record as often as before and in order, and then the id finds nothing |
| `Storage.WithoutKeepsUnique` | src/lib/storage.ts:216-218 | deletion keeps ids unique |
| `Storage.JobStore.LocalJobs` | src/lib/storage.ts:47-55 | a missing or corrupt `jobs` value reads as `[]`; otherwise the stored list |
| `Storage.JobStore.LocalJobById` | src/lib/storage.ts:89-92 | the local lookup returns a local record with the id, or nothing exactly when no local record has it |
| `Storage.JobStore.GetFilter` | src/lib/storage.ts:278-286 | a missing or corrupt `jobFilter` value reads as the default filter `('', all, date, desc)`; otherwise the saved filter |
| `Storage.JobStore.SaveJobs` | src/lib/storage.ts:58-65 | the whole list is written; a refused write is caught and the stored value stays as it was |
| `Storage.JobStore.SaveFilter` | src/lib/storage.ts:273-275 | the filter is written and then read back by `getFilter`; a refused write is reported to the caller and changes nothing |
| `Storage.JobStore.GetJobs` | src/lib/storage.ts:26-44 | a GET of `/applications` is sent iff remote is enabled and has a URL; the remote list is returned on success, the local list otherwise |
| `Storage.JobStore.GetJobById` | src/lib/storage.ts:68-86 | a GET of `/applications/:id` is sent iff remote is on; the remote record on success, otherwise (a 404 included) the first local record with the id |
| `Storage.JobStore.AddLocally` | src/lib/storage.ts:127-128 | the local list is read, one record is appended and the list is written back |
| `Storage.JobStore.AddJob` | src/lib/storage.ts:95-138 | the POST body is the stamped new record; on remote success its body is returned and the local store is untouched; otherwise the new record is appended after the unchanged old list and returned, the count grows by one and ids stay unique |
| `Storage.JobStore.UpdateLocally` | src/lib/storage.ts:171-175 | the local list is read, every record with the id is replaced, and the list is written back |
| `Storage.JobStore.UpdateJob` | src/lib/storage.ts:141-188 | the PUT body is the record stamped with the new `lastUpdated`; on remote success the local store is untouched; otherwise every local record with the id is replaced by the stamped record, others are unchanged, the count is kept, and the stamped record is returned even if nothing matched |
| `Storage.JobStore.DeleteLocally` | src/lib/storage.ts:210-212 | the local list is read, the records with the id are dropped, and the list is written back |
| `Storage.JobStore.DeleteJob` | src/lib/storage.ts:191-221 | a DELETE is sent iff remote is on; on remote success the local store is untouched; otherwise every local record with the id is removed and the id then finds nothing |
| `Storage.LocalLifecycle` | src/lib/storage.ts:95-221 | with remote off, from an empty store: create, list, update, get, delete, get and list give one listed `Acme` record with status `applied`, then status `interviewing`, then nothing |
| `Logger.NewestKeepsLast` | src/lib/logger.ts:43-46 | trimming keeps `min(n, 100)` entries, the newest ones in order, the last entry last, and drops nothing from a buffer within the cap |
| `Logger.DropOldest` | src/lib/logger.ts:44-46 | the `shift` loop leaves at most 100 entries, the newest ones |
| `Logger.GatingIsThreshold` | src/lib/logger.ts:60-105 | the four gates record a message exactly when its level is no more verbose than the configured one |
| `Logger.Log.GetLogs` | src/lib/logger.ts:111-120 | the stored entries; `[]` without a window or when the stored value is missing or corrupt |
| `Logger.Log.SaveLog` | src/lib/logger.ts:31-53 | without a window, with a corrupt buffer or on a refused write nothing changes; otherwise the buffer becomes the last `min(n+1, 100)` entries of the old buffer plus the entry, with the entry last |
| `Logger.Log.LogError` | src/lib/logger.ts:60-64 | an error is always saved |
| `Logger.Log.LogWarning` | src/lib/logger.ts:71-78 | a warning is saved unless the level is ERROR |
| `Logger.Log.LogInfo` | src/lib/logger.ts:85-92 | an info message is saved only at level INFO or DEBUG |
| `Logger.Log.LogDebug` | src/lib/logger.ts:99-105 | a debug message is saved only at level DEBUG |
| `Logger.Log.ClearLogs` | src/lib/logger.ts:125-128 | the key is removed, so `getLogs` then returns `[]`; without a window nothing changes |
| `Logger.FullBufferDropsOldest` | src/lib/logger.ts:35-48 | saving into a full buffer of 100 drops exactly the oldest entry and puts the new one last |

## Left out

- The REST server, HTTP transport and JSON encoding are not modelled. JSON (de)serialisation is abstracted: a stored key is absent, corrupt or a well-typed value. A remote body is taken as a well-typed record or list.
- Stored text that parses but has the wrong shape is not modelled. An example is `null` under `jobs`: the source returns it and the next spread throws.
- The file operations `storeFile` and `storeFileLocally` are not modelled. They are upload and FileReader plumbing.
- `toast` notifications and `console` output are not modelled. They have no stated behaviour.
- Asynchrony and the accepted race between overlapping read-modify-write cycles are not modelled. Each operation runs to completion in the model.
- `uuidv4`, the clock and `new Date(s).getTime()` are parameters. An unparsable date (NaN, which makes the comparator inconsistent) is outside the model.
- The falsy check on a log call's `data` argument is left to the caller: it passes `None` for a falsy argument and the JSON text otherwise.
- JobFilters.ApplyFiltersOrdered: requires `localeCompare` to be a total preorder. It models `desc` as swapped arguments, which assumes `localeCompare`'s sign flips when its arguments are swapped.
- JobFilters.ApplyFiltersStable: this requires the same total-preorder assumption on `localeCompare`.
- Storage.JobStore.AddJob: the fresh id is a precondition (local ids do not contain it), while in the source it comes from `uuidv4`.
