# Mycobacterium tuberculosis harvest from BV-BRC, modelled in Dafny

The script `bv-brc-mycobacterium-tuberculosis.mjs` downloads, for the taxon
1773 (Mycobacterium tuberculosis), ten categories of records from the BV-BRC
query API and writes each category's schema and records as JSON files. This
project models its logic:

- `fetch.dfy`, module `Fetch`: the pagination loop `fetchAllRecords`. It
  starts at offset 0 and asks for pages of at most 1000 records. It appends
  each non-empty page and moves the offset on by 1000. It stops on a missing
  or empty page, or right after a page shorter than 1000. An error thrown by
  the service ends the loop, and the records gathered so far are returned.
  The query service is a function from (category, filter, limit, start) to a
  `Reply`: `Absent`, `Page(items)` or `Thrown`. `FetchAllRecords` is a
  `while true` loop with `break`s, like the source. It is proved against two
  specification functions:
  - `IsRun` says how many requests are made;
  - `Gathered` gives the accumulated records.
  `Snapshot(db)` is a service that answers from a fixed list of records per
  category, one slice at a time. Against it the loop returns exactly that
  list, after `|list| / 1000 + 1` requests.
- `persist.dfy`, module `Persist`: the guards of `saveDataToFile` and
  `saveSchemaToFile`, which decide whether a file is written, and the file
  names `<category>_schema.json` and `<category>_data.json`. A JavaScript
  value that may be null, undefined or otherwise falsy is an `Option`.
- `driver.dfy`, module `Driver`: `DATA_TYPES`, `fetchSchema` and `main`. A
  run is described by the sequence of its events: schema requests, record
  requests with their start offsets, and files saved. `RunHarvest` loops
  over the ten categories; each pass is `ProcessCategory`. The lemmas prove
  the following about every run, whatever the services reply, as long as
  every category's record fetch ends:
  - the categories are visited in the listed order;
  - a category's schema is requested before its records;
  - no file name is written twice;
  - what happens for one category depends only on the replies for that
    category.

A call that fails part-way ends the loop, and the records of the earlier
pages are returned (lines 56-60) and then saved (lines 117-119).
`FailureKeepsPrefix` states this.

## Model

| member | source | states |
|---|---|---|
| `Fetch.FetchAllRecords` | bv-brc-mycobacterium-tuberculosis.mjs:31-61 | The requests are at offsets 0, 1000, 2000, ... (each one the previous plus the limit). Every reply but the last is a page of at least 1000 items. The last reply is missing, empty, short or a failure. The result is the in-order concatenation of the pages received. |
| `Fetch.RunWithin` | bv-brc-mycobacterium-tuberculosis.mjs:38-55 | If the reply to request k would end the loop, the loop stops after at most k + 1 requests. |
| `Fetch.RequestCount` | bv-brc-mycobacterium-tuberculosis.mjs:38-55 | When some reply ends the loop, the number of requests is well defined and forms a run. |
| `Fetch.RunUnique` | bv-brc-mycobacterium-tuberculosis.mjs:44-54 | The replies determine the number of requests. |
| `Fetch.RunIsHarvest` | bv-brc-mycobacterium-tuberculosis.mjs:31-61 | Any run the loop makes has the length `RequestCount` and returns `Harvest`. |
| `Fetch.PageDecidesNextRequest` | bv-brc-mycobacterium-tuberculosis.mjs:44-50 | A non-empty page is appended, unchanged. Another request follows it exactly when it has at least 1000 items. |
| `Fetch.StopAppendsNothing` | bv-brc-mycobacterium-tuberculosis.mjs:44-58 | A missing result, an empty page or a failed call is the last reply, and it adds nothing. |
| `Fetch.GatheredPrefix` | bv-brc-mycobacterium-tuberculosis.mjs:45 | The records gathered after m replies are a prefix of those gathered after n ≥ m replies. |
| `Fetch.PageInPlace` | bv-brc-mycobacterium-tuberculosis.mjs:45-60 | The records of reply j appear in the result, unaltered, right after those of replies 0 to j - 1. |
| `Fetch.GatheredAgree` | bv-brc-mycobacterium-tuberculosis.mjs:42-45 | Services that send the same first k replies give the same records after k replies. |
| `Fetch.FailureKeepsPrefix` | bv-brc-mycobacterium-tuberculosis.mjs:37-60 | When the call fails at the last request, no further request is made. The records of the earlier pages are returned. Compared with any service that answers the same up to that request, the result is a prefix of that service's result. |
| `Fetch.HarvestIsolated` | bv-brc-mycobacterium-tuberculosis.mjs:31-61 | The number of requests and the records for a category depend only on the service's replies for that category. |
| `Fetch.SnapshotIsRun` | bv-brc-mycobacterium-tuberculosis.mjs:38-55 | Against a snapshot, `|records| / 1000 + 1` requests form a run: every request before the last gets a full page of 1000 records, and the last gets the short or empty rest. Together they gather every record, in order. |
| `Fetch.SnapshotRun` | bv-brc-mycobacterium-tuberculosis.mjs:38-55 | Against a snapshot, the loop always terminates. It returns exactly the category's records, after `|records| / 1000 + 1` requests. |
| `Fetch.SnapshotRequestExamples` | bv-brc-mycobacterium-tuberculosis.mjs:38-55 | 2400 records take 3 requests, 2000 records take 3 (the third is empty) and 0 records take 1. |
| `Fetch.FetchFromSnapshot` | bv-brc-mycobacterium-tuberculosis.mjs:31-61 | Run against a snapshot, the loop method returns the category's records after `|records| / 1000 + 1` requests. |
| `Persist.SchemaFileName` | bv-brc-mycobacterium-tuberculosis.mjs:92 | The schema file name is the category tag followed by `_schema.json`. |
| `Persist.DataFileName` | bv-brc-mycobacterium-tuberculosis.mjs:118 | The data file name is the category tag followed by `_data.json`. |
| `Persist.SaveDataToFile` | bv-brc-mycobacterium-tuberculosis.mjs:75-87 | Data is written if and only if it is present and non-empty, under the given name and with the given records. Otherwise nothing is written. |
| `Persist.SaveSchemaToFile` | bv-brc-mycobacterium-tuberculosis.mjs:90-103 | A schema is written if and only if it is present (truthy), as `<category>_schema.json`. |
| `Persist.SchemaFileNameInjective` | bv-brc-mycobacterium-tuberculosis.mjs:92 | Different categories get different schema file names. |
| `Persist.DataFileNameInjective` | bv-brc-mycobacterium-tuberculosis.mjs:118 | Different categories get different data file names. |
| `Persist.SchemaAndDataNamesDiffer` | bv-brc-mycobacterium-tuberculosis.mjs:92-118 | No schema file name equals a data file name, for any two categories. |
| `Driver.FetchSchema` | bv-brc-mycobacterium-tuberculosis.mjs:64-72 | A failed schema call is caught and gives no schema. Otherwise the returned value is passed on. |
| `Driver.RunHarvest` | bv-brc-mycobacterium-tuberculosis.mjs:106-123 | The run's events are the blocks of the ten categories, in order. None is skipped, whatever the replies, as long as every category's record fetch ends. |
| `Driver.ProcessCategory` | bv-brc-mycobacterium-tuberculosis.mjs:110-119 | One pass: schema request, schema file if there is a schema, record requests, data file if any records were gathered. |
| `Driver.CategoryStep` | bv-brc-mycobacterium-tuberculosis.mjs:112-119 | The events built from the loop's outcome are the category's specified block. |
| `Driver.SchemaRequestsInOrder` | bv-brc-mycobacterium-tuberculosis.mjs:109-120 | The schema requests of a run are exactly the categories, in the listed order. This holds even when calls fail. |
| `Driver.SchemaBeforeRecords` | bv-brc-mycobacterium-tuberculosis.mjs:112-117 | Every record request comes after the schema request of its category. |
| `Driver.SavedNamesDistinct` | bv-brc-mycobacterium-tuberculosis.mjs:109-120 | With distinct categories, no two files written in a run share a name. |
| `Driver.DataTypesDistinct` | bv-brc-mycobacterium-tuberculosis.mjs:17-28 | The ten category tags are pairwise distinct. |
| `Driver.RunWritesEachFileOnce` | bv-brc-mycobacterium-tuberculosis.mjs:106-123 | A run of the driver writes each file name at most once. |
| `Driver.CategoryIsolated` | bv-brc-mycobacterium-tuberculosis.mjs:109-120 | A category's events depend only on the services' replies for that category. A failure elsewhere changes nothing. |
| `Driver.SnapshotCategory` | bv-brc-mycobacterium-tuberculosis.mjs:113-119 | Against a snapshot, a category's records are saved, complete and in order, exactly when it has at least one. |

## Left out

- The BV-BRC client and the network (`svc.query`, `svc.getSchema`): they are the parameters `query` and `getSchema`, total functions of the request's arguments.
- `Fetch.FetchAllRecords` requires that some reply for the category ends the loop. Against a service that answers full pages forever, the source never returns, and Dafny methods must terminate.
- `Driver.RunHarvest`: it and the driver lemmas carry the same termination assumption as `Fetch.FetchAllRecords`, for every category. A category whose service answers full pages forever hangs the source there, so the later categories are never reached; the model does not describe that run.
- The directory creation `fs.mkdir` (line 14), `path.join` and `fs.writeFile`: only the decision to write and the file name are modelled. A failed write is caught and logged in the source (lines 84-86, 100-102), and the driver goes on. The model records the decision to write and does not tell a failed write from a successful one.
- `JSON.stringify` and the pretty-printing: records and schemas are opaque type parameters.
- All `console.log` and `console.error` output.
- async/await: every call is awaited in turn, so the model is sequential.
- The query string is the constant `FILTER`; its construction from `TAXON_ID` is not analysed further.
- The coercions of JavaScript truthiness: a missing or falsy result or `items` is `Absent`, and a falsy schema is `None`. An `items` value that is not an array is not modelled.
- `embeddings/loadData.py`: model loading, t-SNE and plotting with numerical libraries and floating point, with no checkable logic of its own.
