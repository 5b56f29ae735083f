# NanoTDB storage engine in Dafny

A model of NanoTDB's storage engine, with proofs of what it keeps: the events layer and the metric layer of one
database as append-log-and-page machines, the columnar V2 metric file built from raw pages, the tools that rewrite
page files, the caches in front of metric files, and bucketed aggregates.

`dafny verify dfyconfig.toml` checks everything.

## How it is laid out

- **Bytes and frames**: `Prelude`, `Bytes` (little-endian words, varints), `Names` (trimming, order, and what becomes of a
  name in a JSON file), `Frames` (a generic theory of files made of self-delimiting frames: scanning a prefix yields the whole frames in it), `Codec`.
- **Events layer**: `EventsCatalog` (registry and events.json), `EventsWal` and `EventsWalFile` (the log's byte codec
  and its cursor loops), `EventsFrames`, `EventsPages`, `EventsFiles` (pages and partition files), `EventsEngine`
  (the machine: each operation's effect on memory and files, durable write by durable write), `EventsInvariant`,
  `EventsRuns` (whole runs with a crash allowed between any two durable writes), `EventsLateArrival` and
  `EventsUnreadable` (the runs that go wrong), `EventsDatabase` (the same operations in place, over file bytes, proved
  to do what the machine does), `EventsQuery`.
- **Metric layer**: `Samples`, `MetricRegistry` (names, ids and catalog.json), `MetricEngine` (the machine: ingest,
  sealing, flushing, saving the registry, log reset, replay), `MetricInvariant`, `MetricIngest`, `MetricReplay`,
  `MetricReplayPages` (the pages a replay makes), `MetricRuns`, `MetricRecovery` (exactly when a database opens again, and
  what its registry then is), `MetricNaming` (runs that lose no metric's name), `MetricGaps` (what a missing id leads to),
  `MetricWidths` (how long pages get), `MetricReadable` (what the files read back as), `MetricStays` (for how
  long they do), `MetricCrashRuns` and `MetricLongPage` (the runs that go wrong), `DataPages`, `DataPageFile`,
  `DataFileStats`, `MetricDatabase` (in place, proved to do what the machine does).
- **Rewriters**: `Recompact` (greedy repacking) and `Recover` (resynchronising salvage); their loops are in
  `DataPageFile`.
- **V2 metric files**: `StableSort`, `MetricBuild` (count, fill, sort), `MetricPlan` (sharing timestamp vectors),
  `MetricRecords`, `MetricFileV2`, `MetricFileProofs`, `MetricFileWriter`, `MetricQuery`, `MetricSetQuery`,
  `MetricCompare`, `MetricFileBuild`, `LruCaches`, `MetricCachedQuery`.
- **Aggregates**: `Aggregates`.

A machine's operation returns a *trail*: the points after each of its durable writes. A crash is the loss of memory
at any point of a trail, so a property of every trail point is a property of every crash. The classes
(`EventsDatabase.Database`, `MetricDatabase.Database`, `EventsPages.EventsPage`, `DataPageFile.DataPage`,
`LruCaches.LruCache`, ...) hold the fields the program updates in place; their methods are proved to end in the
machine's state, with the machine's error and exactly the machine's sequence of durable writes.

## Assumptions

- Compression is a pair of functions with `decompress(compress(x)) == Some(x)`, the checksum a function to 32-bit
  words. Where a page must be readable, a payload of at most 65535 samples is assumed to compress to within the 128 MiB
  frame cap (`Codec.Bounded`). `MetricDatabase.Database` also takes it that no metric page, and no log that an opening
  reads into memory, has more than 2^45 records, for which the address space of a process has no room, and that the
  payload of such a page compresses to fewer than 2^62 bytes (`Codec.Contained`). `Codec.PlainMeetsAll` shows that one
  codec meets all of this.
- Writes fail only by the process dying: completed writes survive, in order. Replacing events.json or catalog.json
  and appending a frame or a log record are each atomic in runs with several crashes; a torn last record of the events log is covered
  by `EventsWal.ScanOfPrefix`, which holds for every byte prefix.
- Partition keys are numbers in the order of their strings, given by an arbitrary function of the timestamp.
  It is taken to be monotone only in `Recover.KeptSamplesBelong`.
- Page limits are within the bounds of the manifest (65535 records, 64 MiB) where the length of pages matters.
- Values are raw 32-bit words. Metric times are not negative (replay uses -1 for "no frames"). Event pages that are
  flushed hold fewer than 2^32 records.
- The answers of the clock (the current time, whether a page is old, whether a time is recent enough for the log) and
  the order in which a map is walked are parameters, or are chosen freely, so every theorem holds for all of them.
- Writing a name to a JSON file replaces each byte that is not part of valid UTF-8 by U+FFFD, as `encoding/json` does;
  the rest of the JSON text is the list of entries it encodes. Metric names are 1 to 255 bytes and not blank, as ingest
  asks.
- Aggregates compute over the reals.

## Where the code and its documentation part ways

- **A crash can lose an acknowledged event.** Rule 5 of the crash-safety contract in docs/EVENTS.md has replay reject a
  record older than its name's last time. The code does not look at names when it replays: it skips records at or
  below the largest end time of their partition's frames, while ingest only keeps times from going back per name.
  `EventsLateArrival.LateEventIsLost` is a run in which an acknowledged event is gone; `EventsRuns.CrashLosesIff`
  says exactly which open events a crash loses, by the event's time and its partition's file;
  `EventsRuns.OrderedRunsLoseNothing` is the full guarantee for runs whose events are later than those frames.
- **An event name that is not valid UTF-8 can keep a database from opening.** Nothing checks event names for it, but
  events.json is JSON: a saved name comes back with U+FFFD in place of the offending bytes. `EventsCatalog.SavedLoadsIff`
  and `EventsCatalog.LoadInvertsSnapshotIff` say exactly which saved registries load and which come back unchanged;
  `EventsUnreadable.OneNameReopensIff` gives, for every such name, a run after which the database does not open, and
  `EventsUnreadable.NameIsPinnedTwice` one in which an id changes its name first. The recovery theorems hold for runs
  whose names are valid UTF-8. Metric names and catalog.json share this:
  `MetricRegistry.SavedLoadsIff`, `MetricRegistry.LoadInvertsListingIff` and the run of `MetricCrashRuns.TwoNamesOpenIff`.
- **A crash can lose an acknowledged, logged sample.** Replay takes everything at or below the end of a partition's frames
  for durable. A page started after a flush takes older times of other metrics, and those are lost:
  `MetricCrashRuns.LateSampleIsLost` is such a run, `MetricReadable.ReopenCountsRead` and `MetricRuns.CrashTakes` give the
  exact count for every sample.
- **A partition file can become unreadable.** The record count of a frame is a 16-bit field, and the limits of a page keep
  to it. But replay puts log records on pages without asking whether they are full, and the log also holds samples that
  were refused. A run of 65536 of them above the watermark becomes a page whose frame decodes for no reader, and whatever
  is accepted onto that page later is lost with it: `MetricLongPage.LongPageIsUnreadable`. `MetricReadable.RunReadsIff`
  says exactly which files read back, `MetricReadable.ReopenedProcessReads` tells it from the files before they are
  opened, `MetricStays.StaysReadableIff` for all that the process may do then, and `MetricReadable.RunStaysReadable` is the
  guarantee for runs without such logs.
- **The metric registry cannot always be rebuilt from the log.** The first record of a metric carries its name so that
  it can (wal.go:160-161), but the types of all nameless records are looked up in catalog.json before any name is
  registered. Two logged samples of a new metric and a crash leave a database that does not open:
  `MetricCrashRuns.TwoLoggedDoNotOpen`. `MetricRecovery.ReopensIff` is the exact condition.
- **Two metrics can come to share an id.** A first sample too old for the log registers its metric in memory only. If a
  later metric is logged before a crash, the registry comes back with a gap, and the next id, by count, can be one that
  is taken: `MetricCrashRuns.GapSharesAnId`, in which times of one metric then go back and the database ends up not
  opening. `MetricRecovery.ReopensIff` says exactly when there is no gap, `MetricGaps.OneIdEachIff` and
  `MetricGaps.GapGoesWrong` that any gap can end in this; `MetricRecovery.RunsAreMonotone` and `MetricNaming.RegistryRecovers` are the guarantees without one.
- **An event can be stored and refused.** When a page's compressed payload is over the frame cap, `AddEvent` returns
  an error although the event is logged and on its page (`PageTooLarge` in `EventsEngine.AfterLog`); it counts as
  logged but not as acknowledged.
- **A refused sample can come back.** The metric log is written before the page refuses an out-of-order sample, and
  replay flushes a refusing page and stores the record: `MetricRuns.RefusedSampleReturns`.
- **Query order.** `QueryEvents` is documented to deliver events in non-decreasing time order. Pages hold arrival order
  and all sealed partitions come before the open pages; `EventsQuery.AnswerIsExact` states the answer as a multiset.
- **A V2 file need not answer as its raw pages do.** The file holds each metric in stable time order, raw pages in
  file order. `MetricQuery.SameAnswersIff` gives the exact condition.
- **Batch minimum and maximum start from the largest finite float32.** They differ from the streaming ones exactly on
  runs of infinities beyond it: `Aggregates.StreamingEqualsBatchIff`.

## Model

| member | source | states |
|---|---|---|
| EventsRuns.OrderedRunsLoseNothing | internal/engine/events_engine.go:35-175 | In every run of calls, flushes, crashes between any two durable writes and reopenings whose event names are valid UTF-8 and whose events arrive later than the frames already flushed to their partition, each partition stores exactly the events logged for it, once each and in order; every acknowledged event is among them, and nothing else is but events whose log append completed before a crash. |
| EventsRuns.AnyRunRecovers | internal/engine/events_engine.go:384-428 | In every run whose event names are valid UTF-8, opening never fails after a crash, no partition stores an event that was not logged or stores one more often than it was logged, and every acknowledged event was logged. |
| EventsRuns.CrashLosesIff | internal/engine/events_engine.go:395-425 | Exactly when a crash of a run whose names are valid UTF-8 loses open events: reopening gives an open page back unchanged if and only if every record on it is later than the end of every frame already flushed to its partition; what comes back is always the records that are. |
| EventsLateArrival.LateEventIsLost | internal/engine/events_engine.go:395-425 | A concrete run in which an acknowledged event is in no frame, no page and no answer after a crash: an event of another name had been flushed to the same partition with a later time. |
| EventsRuns.UncrashedStoresAll | internal/engine/events_engine.go:112-159 | Until the first crash, with no assumption on the order of times, every partition stores exactly the events logged for it, in log order. |
| EventsRuns.AcknowledgedIsDurable | internal/engine/events_engine.go:112-159 | Until the first crash, with no assumption on the order of times, every acknowledged event is in a flushed frame or still in the log at every durable write of the next operation. |
| EventsRuns.ReopenedPagesAreNew | internal/engine/events_engine.go:384-428 | From the files of any point whose names are valid UTF-8, reopening rebuilds exactly the log records above their partition's flushed maximum, so no record is both in a frame and on a rebuilt page. |
| EventsRuns.OpenEventsAreLogged | internal/engine/events_engine.go:479-496 | At every state of every run whose names are valid UTF-8, a record on an open page is still in the log: the log is truncated only once no page holds records. |
| EventsRuns.RegistryRecovers | internal/engine/events_wal.go:422-564 | At every crash point of every run whose event names are valid UTF-8 opening succeeds, and the rebuilt registry has ids exactly 1..n, one name and one type each, agrees with the files, and resolves every id in any frame or log record to the type its value was written with. |
| EventsRuns.PinsAreForever | internal/engine/events_catalog.go:129-204 | In every run whose event names are valid UTF-8, once an id is pinned to a name and a type every later state, crashes included, pins it the same way. |
| EventsRuns.PerformIsSound | internal/engine/events_engine.go:35-175 | Every operation keeps the invariant at each of its durable writes, stores exactly one record more when it logs one, and never changes an existing pin. |
| EventsRuns.LoggedIff | internal/engine/events_engine.go:35-159 | Exactly which events are logged, by what a caller can look up first: a trimmed name of 1 to 255 bytes, a payload within the limit, a name and type the registry takes, a time not before the name's last; any other call changes nothing. A logged event is acknowledged unless its page has to be written and is over the frame cap. |
| EventsInvariant.ReopenRestores | internal/engine/events_engine.go:384-428 | From the durable files of any point that keeps the invariant and whose names are valid UTF-8, opening succeeds, gives the same pins back, puts exactly the log's records above the watermark on each page in order, and re-establishes the invariant. |
| EventsInvariant.LogKeepsInv | internal/engine/events_engine.go:112-130 | Logging a record and putting it on its page keeps the invariant, whatever the record's time. |
| EventsInvariant.FlushKeepsInv | internal/engine/events_engine.go:139-155 | Turning a page into a frame keeps the invariant and moves no record in or out of storage. |
| EventsInvariant.SaveKeepsInv | internal/engine/events_engine.go:464-472 | Saving events.json at any moment keeps the invariant and touches neither the log nor the frames. |
| EventsDatabase.Database.AddEvent | internal/engine/events_engine.go:35-175 | The call in place, over the bytes of the log and the partition files: its error, the memory it leaves and each durable write in order are those of the machine's step, for every error path, the log append, the page, the flush and the log reset. |
| EventsDatabase.Database.FlushOpenEventsPages | internal/engine/events_engine.go:433-458 | Walks the pages in some order and, write by write, does what the machine does for that order; it stops at the first page that cannot be written, and without an error no page stays open. |
| EventsDatabase.Database.FlushAndReset | internal/engine/events_engine.go:433-496 | The flush and reset of a shutdown, write by write; without an error the log is empty and no page is open. |
| EventsDatabase.Database.MaybeResetEventsWAL | internal/engine/events_engine.go:479-496 | Leaves everything alone while a page holds records; otherwise events.json is saved before the log is truncated. |
| EventsDatabase.Database.WriteEventCatalogIfDirty | internal/engine/events_engine.go:464-472 | Writes the registry's entries to events.json exactly when the registry changed since the last save. |
| EventsDatabase.Database.Recover | internal/engine/events_engine.go:384-428 | From any events.json and any log, loads the registry and replays the bytes of the log behind each partition's watermark, into exactly the memory the machine's reopening gives, or returns its error. |
| EventsDatabase.Database.ScanWatermark | internal/engine/events_engine.go:395-410 | The watermark read from the headers of a partition file is the largest end time of the frames the file holds; None without a file or frames. |
| EventsCatalog.AssignKeepsDense | internal/engine/events_catalog.go:129-158 | Assignment keeps ids 1..n with one name and type each and moves no existing name; a refused assignment changes nothing. |
| EventsCatalog.EnsureNextIsAssign | internal/engine/events_catalog.go:168-204 | Replaying the registration of the next free id does to the registry what assigning it live did. |
| EventsCatalog.EnsurePinned | internal/engine/events_catalog.go:168-204 | Replaying the registration of an id already pinned that way changes nothing. |
| EventsCatalog.LoadInvertsSnapshotIff | internal/engine/events_catalog.go:42-120 | Loading what was saved gives back every pin, no last time, and nothing else if and only if every name is valid UTF-8. |
| EventsCatalog.SavedLoadsIff | internal/engine/events_catalog.go:362-382 | What was saved can be loaded at all if and only if no two names become the same text and none outgrows 255 bytes; each id then carries the text of its name. |
| EventsCatalog.LoadsIff | internal/engine/events_catalog.go:42-120 | Exactly which files load: those whose entries are valid and share no name and no id; the registry then holds those entries and no others. |
| Names.CoerceIsIdentityIff | internal/engine/events_catalog.go:377-382 | A name comes back from the JSON file unchanged if and only if it is valid UTF-8. |
| EventsUnreadable.SavedOverLogFails | internal/engine/events_catalog.go:168-204 | Whatever the registry and the log: once the registry is saved while the log still holds the record that named an event, opening fails unless that name is valid UTF-8. |
| EventsUnreadable.OneNameReopensIff | internal/engine/events_catalog.go:377-382 | For every name: after one logged event on an empty database, a save and a crash, opening succeeds if and only if the name is valid UTF-8. |
| EventsUnreadable.NameIsPinnedTwice | internal/engine/events_catalog.go:377-382 | A concrete run with a name of one byte 0xFF: the first reopening gives id 1 another name, the same event then takes id 2, and after the next save and crash the database does not open. |
| EventsCatalog.ListingIsUnique | internal/engine/events_catalog.go:362-375 | The saved list is a function of the registry: a list of entries in name order describes the registry if and only if it is the one that is written. |
| EventsCatalog.UpdateLastKeepsPins | internal/engine/events_catalog.go:266-281 | Noting a time never fails for a known id, moves no pin, leaves every other id's last time alone and never lets this one go back. |
| EventsCatalog.EventCatalog.GetOrAssignEventID | internal/engine/events_catalog.go:129-158 | Returns and leaves what the assignment on registries gives, error by error. |
| EventsCatalog.EventCatalog.EnsureEventEntry | internal/engine/events_catalog.go:168-204 | Registers or refuses as the function on registries does; a refusal leaves the registry unchanged. |
| EventsCatalog.EventCatalog.UpdateLastByEventID | internal/engine/events_catalog.go:266-281 | Notes the time, or refuses an unknown id and changes nothing. |
| EventsCatalog.EventCatalog.CatalogEntries | internal/engine/events_catalog.go:362-375 | Gathers the map in any order and returns the one list of the registry's entries in name order. |
| EventsCatalog.EventCatalog.LoadFrom | internal/engine/events_catalog.go:42-120 | Accepts exactly the entry lists the loader accepts, and leaves the registry they describe. |
| EventsWal.ScanOfPrefix | internal/engine/events_wal.go:422-457 | For any log written in ingest order, scanning any byte prefix gives exactly the longest run of whole records as encoded and the registry extended by exactly the names they register; the stats scan counts the same records and the same bytes. |
| EventsWal.BodyRoundTrip | internal/engine/events_wal.go:464-564 | Decoding a record against the registry it was written with gives the record, its name, and the registry with the name registered. |
| EventsWal.NextBodyTorn | internal/engine/events_wal.go:422-457 | A record cut anywhere before its last byte reads as the end of the log, never as a record. |
| EventsWal.ReplayFromLaterSnapshot | internal/engine/events_engine.go:464-496 | Saving events.json while the log still holds records is harmless: from any later registry the same log is still in order and replaying it changes nothing. |
| EventsWal.ReplayKnowsIds | internal/engine/events_wal.go:464-564 | After replay every id the log uses is known with the type it was logged with. |
| EventsWalFile.EventsWAL.AppendRecord | internal/engine/events_wal.go:179-276 | Appends exactly the encoding of the record, or nothing when it refuses it. |
| EventsWalFile.EventsWAL.AppendEventWithName | internal/engine/events_wal.go:172-177 | As the append, refusing an empty name. |
| EventsWalFile.EventsWAL.Reset | internal/engine/events_wal.go:341-376 | Leaves an empty file and a byte counter that agrees with it. |
| EventsWalFile.EventsWAL.RecordsWithCatalog | internal/engine/events_wal.go:422-457 | The cursor loop over the bytes returns the records of the scan and leaves its registry, or the scan's error. |
| EventsWalFile.DecodePayload | internal/engine/events_wal.go:464-564 | Decodes a payload as the specification does, registering an inline name in place. |
| EventsWalFile.ScanAppendStats | internal/engine/events_wal.go:571-598 | Never fails, and counts the records and bytes of the stats scan. |
| EventsFrames.BitmapIsExact | internal/engine/events_page.go:64-77 | A page's bit for an id is set if and only if a record of the page has that id. |
| EventsFrames.BoundsAreTight | internal/engine/events_page.go:201-236 | A page's start and end enclose the times of all its records, and each is the time of one of them. |
| EventsFrames.PageRoundTrip | internal/engine/events_page.go:375-455 | Decoding a written frame with the pinned types gives the page's records back in order. |
| EventsFrames.HeaderRoundTrip | internal/engine/events_page.go:94-149 | Decoding an encoded frame header, bitmap included, gives the header back. |
| EventsPages.EventsPage.AddEvent | internal/engine/events_page.go:201-236 | Appends the record to the parallel slices and keeps bounds, bitmap and sizes those of the records; a refused record changes nothing. |
| EventsPages.EventsPage.IsFull | internal/engine/events_page.go:265-288 | Tells whether the records reach the record or byte limit, or the page is old by the clock's answer. |
| EventsPages.EventsPage.EncodeInto | internal/engine/events_page.go:307-369 | Succeeds exactly on a page with records whose compressed payload is within the cap, and gives the frame of those records. |
| EventsPages.EventsPage.DecodeFromFrame | internal/engine/events_page.go:375-455 | Refills the page with what the frame decodes to, bounds and bitmap from the header, or returns the frame's error. |
| EventsFiles.WalkOfFile | internal/engine/events_file.go:73-152 | Walking a written file yields one header per page, in order, each with the page's own bounds, bitmap and offset. |
| EventsFiles.CollectOfFile | internal/engine/events_file.go:164-216 | Reading the frame at the offset the walk gave for a page gives that page back. |
| EventsFiles.StatsGiveWatermark | internal/engine/events_file.go:73-152 | The walk's largest end time is the largest end time of the file's pages. |
| EventsFiles.WalkEventsFileHeaders | internal/engine/events_file.go:73-152 | The loop returns the headers and statistics of the specification's walk, or its error, on any bytes. |
| EventsFiles.CollectEventsFrame | internal/engine/events_file.go:164-216 | Returns a page with the records the frame at the offset decodes to, or the error, on any bytes. |
| EventsQuery.AnswerIsExact | internal/engine/events_engine.go:190-278 | A query answers, as a multiset, exactly the stored records in the time range and of the name, each as often as it is stored in frames and open pages. |
| EventsQuery.PrunedHasNoMatch | internal/engine/events_engine.go:226-256 | A frame skipped for its bounds or its bitmap holds no match. |
| EventsQuery.QueryEvents | internal/engine/events_engine.go:190-278 | Over the bytes of the partition files and the open pages, delivers the matches of the sealed partitions in key order and then of the open ones, each under its pinned name; an inverted range is refused. |
| EventsQuery.EmitMatching | internal/engine/events_engine.go:284-317 | Emits exactly the page's matching records, in page order, under their pinned names. |
| EventsQuery.SortAscending | internal/engine/events_engine.go:332-338 | The insertion sort leaves a sorted permutation. |
| MetricReadable.ProcessReads | internal/engine/engine.go:1311-1467 | Within one process, for every partition file: it reads back at the end if and only if it did at the start and the page open at the start has at most 65534 samples, or is not written yet, or has 65535 and was written before another was put on it. Then what reads back and the open page are, in order, what they were at the start and then every accepted sample of the partition, once each. No more days are open than the setting allows, and every open sample accepted with logging is still in the log. |
| MetricReadable.RunReadsIff | internal/engine/pages.go:195-277 | At every state of every run, for every codec that loses nothing and keeps pages of up to 65535 samples within the frame cap: a partition file reads back if and only if none of its pages was written with 65536 samples or more, and then as exactly the samples of its pages in order. |
| MetricReadable.DatabaseReadsIff | internal/engine/pages.go:195-277 | The same of the bytes an open database has on its files. |
| MetricReadable.ReopenedProcessReads | internal/engine/engine.go:2650-2705 | Told from the files of a crash point before they are opened: whatever the process that opens them does, a partition file reads back afterwards if and only if it does now, no non-decreasing run of its log records above the watermark but the last has 65536 records, and the last has at most 65534, or is not written yet, or has 65535 and was written before another sample was put on it. |
| MetricStays.StaysReadableIff | internal/engine/engine.go:2650-2705 | The same for every continuation at once, told from the files: a partition file stays readable whatever the process does if and only if it reads back now, no run has 65536 records, and, when the last run has exactly 65535, the registry that the files give takes no further sample of the partition at the end of that run or later: it is full, and each of its metrics that ingest lets through has a last time past all those times. |
| MetricStays.LongPageIsKept | internal/engine/engine.go:1311-1467 | Under a registry that takes no further sample of the partition, every operation leaves an open page of 65535 samples as it is, or writes it as it is before anything else of its partition. |
| MetricStays.OneMore | internal/engine/engine.go:1311-1467 | Under a registry that takes one, there is a call after which the page has been written with a 65536th sample. |
| MetricReadable.RunStaysReadable | internal/engine/engine.go:3275-3320 | In every run whose openings find no run of 65535 log records above a watermark, every partition file reads back at every state, crash points included, as exactly the samples written. |
| MetricLongPage.LongPageIsUnreadable | internal/engine/pages.go:195-199 | A concrete run, for every codec that loses nothing and keeps short pages within the frame cap, and any number of 65536 or more: samples refused and logged are replayed onto one page, a sample is accepted onto it, and the file that read back before no longer does. |
| MetricRuns.AcceptedIff | internal/engine/engine.go:1311-1400 | Exactly which samples are accepted, by what a caller can look up first: not older than the metric's last, of a day that is not sealed, of a name and type the registry takes, and not before the end of the day's page unless the retry is allowed; and exactly which calls reach the log. |
| MetricRuns.OpeningSealsOldest | internal/engine/engine.go:2727-2820 | Opening a day seals at most one day, only when no more may be open and then the one with the least key, whose page goes to its file; every other open day keeps its page and no sealed day opens. |
| MetricRuns.SealedIsFinal | internal/engine/engine.go:2762-2820 | Once a day is sealed it stays sealed, and what it stores never changes again in that process. |
| MetricRuns.ProcessIsMonotone | internal/engine/catalog.go:287-306 | Within a process that starts with a registry of ids exactly 1..n, the ids stay 1..n and the accepted times of one metric never go back. |
| MetricRecovery.ReopensIff | internal/engine/engine.go:2602-2646 | Exactly when the files of any crash point open again: catalog.json loads, it lists every metric of which the log holds a record without a name, and no two pins of catalog.json and the log contradict each other. The registry then has exactly those pins, and its ids are 1..n if and only if every id up to the largest is in catalog.json or named in the log. |
| MetricRecovery.ReopensUnloggedIff | internal/engine/engine.go:2370-2382 | The same with the log disabled, where only catalog.json counts. |
| MetricRecovery.RunsAreMonotone | internal/engine/catalog.go:55-83 | In any run, from a reopening of files in which no id up to the largest is missing until the next crash: ids are exactly 1..n and the accepted times of one metric never go back. |
| MetricRegistry.GapCollides | internal/engine/catalog.go:55-83 | With a gap in the ids, giving ids to enough new metrics, whatever their names, comes to an id that already has a name. |
| MetricGaps.OneIdEachIff | internal/engine/catalog.go:55-83 | From any reopening of any run: every metric keeps an id of its own whatever the process does if and only if no id up to the largest is missing from catalog.json and the log. |
| MetricGaps.GapGoesWrong | internal/engine/catalog.go:55-83 | From any reopening with a gap the run can go on so that two metrics have one id and, unless the older one's name or last time forbids any further call, so that accepted times of one id go back. |
| MetricRegistry.EnsureIff | internal/engine/catalog.go:249-273 | Registering the name of a log record succeeds if and only if its pin contradicts no pin of the registry, and then adds exactly that pin. |
| MetricRegistry.LoadsIff | internal/engine/catalog.go:308-375 | Exactly which files load: those whose entries are valid and share no name and no id; the registry then pins exactly what the file lists. |
| MetricRegistry.SavedLoadsIff | internal/engine/catalog.go:141-165 | Exactly which saved registries load: those without an empty name, an id 0 or a bad type, in which no two names become the same text. |
| MetricRegistry.LoadInvertsListingIff | internal/engine/catalog.go:308-375 | Loading what was saved gives back exactly the pins of the registry if and only if every name is valid UTF-8. |
| MetricCrashRuns.TwoNamesOpenIff | internal/engine/catalog.go:156-165 | For any two metric names: after one logged sample each on an empty database, a flush and a crash, opening succeeds if and only if the names are different text once bytes that are not valid UTF-8 are replaced. |
| MetricRegistry.NumberedIffGapFree | internal/engine/catalog.go:55-83 | A registry's ids are exactly 1..n if and only if none up to the largest is missing. |
| MetricNaming.RegistryRecovers | internal/engine/wal.go:160-164 | In every run with the log enabled whose metric names are valid UTF-8 and whose metrics are logged when first seen, at every crash point, also one inside a replay: opening succeeds if and only if catalog.json lists every metric of which the log holds a nameless record, and then gives exactly the metrics catalog.json and the log pin, with ids 1..n. |
| MetricNaming.PinsAreForever | internal/engine/wal.go:160-164 | In such a run a metric keeps its id and type for ever, over every crash, and no other metric gets the id. |
| MetricNaming.PerformKeeps | internal/engine/engine.go:1311-1467 | Every durable write of every operation of such a run leaves catalog.json and the log pinning exactly the metrics of the registry. |
| MetricCrashRuns.GapSharesAnId | internal/engine/catalog.go:77-79 | A concrete run: a first sample too old for the log, a logged one of another metric, a crash. The next new metric is given an id that is taken, times of the other metric are then accepted backwards, and after the next crash the database does not open. |
| MetricCrashRuns.TwoLoggedDoNotOpen | internal/engine/wal.go:415-426 | A concrete run of two accepted and logged samples of a new metric and a crash, after which the database does not open: the second record has no name and catalog.json does not have the metric yet. |
| MetricRuns.RunIsSafe | internal/engine/engine.go:1311-1467 | Every state of every run of ingest, flushes, crashes between any two durable writes, reopenings and crashes inside a replay keeps the invariant of the files, the pages and the log. |
| MetricRuns.RunsNeverSealInReplay | internal/engine/engine.go:2602-2748 | At every crash point of every run, also one inside an earlier replay, replay seals no day, leaves the log as it was and ends with no more open days than the setting allows. |
| MetricReadable.ReopenCountsRead | internal/engine/engine.go:2602-2714 | Once any crash point is opened and the partition file reads back: how often each sample is in what reads back or on the open page, exactly. As often as in what read back before, and, if it is above its partition's watermark, as often again as in the log; at or below it the log does not count. |
| MetricRuns.CrashTakes | internal/engine/engine.go:2602-2714 | What a crash and a successful replay take from a running process: of a sample above the watermark at most the copies accepted without logging, of one at or below it exactly the copies on the open page, logged or not. |
| MetricCrashRuns.LateSampleIsLost | internal/engine/engine.go:2650-2657 | A concrete run in which an accepted and logged sample is gone after a crash: its partition had been flushed up to a later time of another metric. |
| MetricRuns.RefusedSampleReturns | internal/engine/engine.go:1311-1400 | The log is not the list of acknowledged samples: a sample refused as out of order was logged before, and when it is above its partition's watermark every successful replay stores it. |
| MetricReadable.ReopenReads | internal/engine/engine.go:2602-2714 | Opening the files of any crash point: a partition file reads back afterwards if and only if it did before and every non-decreasing run of its log records above the watermark but the last has at most 65535 records. Then what reads back and the open page are, in order, what read back before and the log records above the watermark. |
| MetricReplayPages.ReplayMakesRuns | internal/engine/engine.go:2650-2705 | From the files of any crash point, replay writes each run of a partition but the last as a frame of its own, in order, and leaves the last one open, whatever the limits of a page; at each of its writes the file holds some first ones of those frames. |
| MetricReplayPages.RisesAreMaximal | internal/engine/engine.go:2650-2705 | The runs are in time order, each starts before the end of the one before, and together they are the records. |
| MetricReplay.ReplayNeverSeals | internal/engine/engine.go:2602-2748 | From the files of any point that keeps the invariant, replay seals no day and never changes the log, a crash at any of its writes leaves files that can be replayed again, and without an error every open sample is in the log. |
| MetricIngest.AddSampleSound | internal/engine/engine.go:1311-1467 | A call stores its sample once, after what its partition held, or changes nothing that is stored; every durable write in between keeps the invariant; no sample is put into a sealed day. |
| MetricIngest.EnsureDaySound | internal/engine/engine.go:2727-2820 | Opening a day, sealing the oldest when there is no room, stores what was stored before and keeps the invariant at every write. |
| MetricIngest.FlushAllSound | internal/engine/engine.go:882-954 | Flushing every open page and resetting the log stores what was stored before, at every write. |
| MetricDatabase.Database.AddParsedSample | internal/engine/engine.go:1311-1429 | The call in place, over the bytes of the partition files: its error, the memory it leaves and each durable write in order are those of the machine's step, for the order in which the map of open days is walked; after an accepted sample no other day's page is full. |
| MetricDatabase.Database.FlushEligibleOpenDays | internal/engine/engine.go:1431-1445 | Writes and drops, in the order the map is walked, every full page but the current day's: none is left; the current day's page is untouched. |
| MetricDatabase.Database.AddToOpenDay | internal/engine/engine.go:1449-1467 | Refuses exactly a sample older than the end of the day's page and then changes nothing; otherwise the page, created when missing, gains it and the metric's last time is noted. |
| MetricDatabase.Database.EnsureDayOpen | internal/engine/engine.go:2727-2748 | Refuses a sealed day; otherwise the day is open afterwards, and the oldest day was sealed first when no more could be open. |
| MetricDatabase.Database.OldestOpenDay | internal/engine/engine.go:2750-2760 | The day returned is the least open key. |
| MetricDatabase.Database.Seal | internal/engine/engine.go:2762-2820 | Writes the day's page, drops the day, resets the log when no page is left, and marks the day sealed, in that order of durable writes. |
| MetricDatabase.Database.MaybeResetWAL | internal/engine/engine.go:2822-2846 | Exactly when the log is enabled and no day has a page, saves the registry if it changed and then truncates the log, in that order of durable writes. |
| MetricDatabase.Database.WritePageToDailyFile | internal/engine/engine.go:2917-2960 | The partition file grows by exactly the frame of the page, in one durable write. |
| MetricDatabase.Database.FlushAll | internal/engine/engine.go:882-938 | Afterwards no page is open, the registry is saved and an enabled log is empty; the writes are those of the machine for the order walked. |
| MetricDatabase.Database.Open | internal/engine/engine.go:2602-2714 | Opening: catalog.json, the check that every nameless record has its metric in it, and the replay loop with its cached watermarks, or the truncation of a disabled log, leave the error, memory and durable writes of the machine's reopening, from any files. |
| MetricDatabase.Database.ReplayRecords | internal/engine/engine.go:2602-2714 | The replay loop, watermarks scanned from the headers of the partition files, leaves the error, memory and durable writes of the machine's replay. |
| MetricDatabase.Database.FlushAndDrop | internal/engine/engine.go:2917-2960 | Writes the page and, under the strict durability profile, the registry if it changed, and drops the day, write by write. |
| MetricDatabase.Database.SaveCatalogIfDirty | internal/engine/catalog.go:87-110 | Writes the registry's entries to catalog.json exactly when the registry changed since the last save. |
| MetricDatabase.MetricCatalog.LoadFrom | internal/engine/catalog.go:308-375 | Accepts exactly the entry lists the loader accepts, and leaves the registry they describe. |
| MetricDatabase.MetricCatalog.CatalogEntries | internal/engine/catalog.go:141-165 | Gathers the map in any order and returns the one list of entries in name order, with the names as they read from the file. |
| MetricDatabase.Database.ResolveWatermark | internal/engine/engine.go:2617-2639 | The cached watermark, or the largest end time of the frames the partition file holds; -1 without a file or frames. |
| MetricDatabase.MetricCatalog.GetMetricID | internal/engine/catalog.go:55-83 | Returns the pinned id, assigns the next free one, or refuses another type or a full registry, as on registries. |
| MetricDatabase.MetricCatalog.EnsureMetricEntry | internal/engine/catalog.go:249-273 | Registers a replayed entry or refuses it; a refusal leaves the registry unchanged. |
| MetricDatabase.MetricCatalog.UpdateLastByMetricID | internal/engine/catalog.go:287-306 | Notes the metric's last time unless it would go back; fails exactly for an unknown id. |
| DataFileStats.ReadUvarintCount | internal/engine/datstats.go:204-220 | The bit-accumulating loop reads the same value and length as the varint decoder, and fails on the same bytes. |
| DataFileStats.ScanDataFileStats | internal/engine/datstats.go:134-188 | The loop returns the statistics of the specification's header scan, or its error, on any bytes. |
| DataFileStats.ScanOfFile | internal/engine/datstats.go:134-188 | Scanning the headers of a written file gives the bounds of its pages, in order. |
| DataFileStats.StatsGiveMark | internal/engine/datstats.go:134-188 | The scan's largest end is the replay watermark of the file's frames. |
| DataPages.FrameRoundTrip | internal/engine/pages.go:195-341 | A frame decodes to the page it was written for, header bounds included, whatever follows it. |
| DataPages.WideFrameFails | internal/engine/pages.go:195-277 | The frame of a page of 65536 samples or more never decodes, for every codec that loses nothing and whatever follows it, also when its compressed length is no 64-bit number. |
| DataPages.ColumnsRoundTrip | internal/engine/pages.go:279-341 | Splitting the three columns of a payload gives the samples back. |
| DataPages.DecodeLocal | internal/engine/pages.go:253-277 | What a frame decodes to depends only on its own bytes: frames are self-delimiting. |
| DataPages.ConsistentIff | internal/engine/recompact.go:252-277 | The source checks accept exactly the pages in time order whose header tells their ends. |
| DataPageFile.DataPage.AddSample | internal/engine/pages.go:130-141 | Appends the sample and keeps the page in time order and its end that of the samples, or refuses exactly a sample that would take it back; the start stays what the page was made with. |
| DataPageFile.DataPage.IsFull | internal/engine/pages.go:144-168 | Full exactly at the capacity the record and byte limits allow, or when the clock says it is old. |
| DataPageFile.DataPage.EncodeInto | internal/engine/pages.go:195-251 | The column loops give the frame of the samples under a header with the start the page was made with; it is the frame of the samples when the first is at that start. |
| DataPageFile.DecodeFrom | internal/engine/pages.go:253-341 | Reads the frame at a position as the specification does, on any bytes. |
| DataPageFile.Validate | internal/engine/recompact.go:252-277 | Accepts exactly the consistent pages and names the first check that fails. |
| DataPageFile.RecompactDataFileBlob | internal/engine/recompact.go:177-250 | The cursor loop with its shared page and output gives the rewrite of the specification, or its error, on any bytes. |
| DataPageFile.RecoverDataFileBlob | internal/engine/recover.go:127-169 | The resynchronising loop gives the pieces' output and a report whose counts and offsets are theirs, on any bytes. |
| Recompact.RecompactKeepsSamples | internal/engine/recompact.go:177-250 | A rewrite keeps the exact sample sequence; every new page is in time order, within the limits and readable; rewriting again changes nothing. |
| Recompact.RecompactIsCanonical | internal/engine/recompact.go:177-250 | The result depends on the sample sequence alone, not on how the old file cut it into pages. |
| Recompact.RecompactNeverAddsPages | internal/engine/recompact.go:177-250 | A source whose pages are within the limits never grows in pages. |
| Recompact.RepackIsFewest | internal/engine/recompact.go:177-250 | The greedy packing uses the fewest pages of any split into consecutive time-ordered pages within the limits. |
| Recompact.RepackFits | internal/engine/recompact.go:177-250 | Every packed page is not empty, in time order and within the limits. |
| Recompact.RepackKeeps | internal/engine/recompact.go:177-250 | The packed pages one after another are the samples. |
| Recompact.ReadPagesOfFile | internal/engine/recompact.go:215-249 | A file of written pages reads back as those pages. |
| Recompact.FileReadsIff | internal/engine/pages.go:195-277 | A file of pages the engine writes reads back if and only if no page has 65536 samples or more, and then as exactly those pages. |
| Recover.EveryByteAccounted | internal/engine/recover.go:127-169 | Kept, rejected and skipped pieces are the input in order, and their sizes add up to it. |
| Recover.KeptAreRising | internal/engine/recover.go:86-97 | Kept pages belong to the partition and each ends later than the one before. |
| Recover.KeptSamplesBelong | internal/engine/recover.go:86-97 | When partitions are intervals of time, every sample of a kept page belongs to the partition. |
| Recover.OutputIsClean | internal/engine/recover.go:127-169 | Recovering a recovered file keeps all of it, page by page. |
| Recover.RecoveredAlwaysRecompacts | internal/engine/recompact.go:215-249 | The recovered file can always be rewritten, and the rewrite holds exactly the recovered samples. |
| Recover.CleanFileIsIdentity | internal/engine/recover.go:127-169 | A clean accepted file is returned byte for byte, with nothing rejected or skipped. |
| Recover.DamageIsIsolated | internal/engine/recover.go:127-169 | Damage in the middle of a clean file costs exactly the damaged stretch: every frame before and after it is recovered, in order, byte for byte. |
| MetricPlan.FindTimeSliceOffset | internal/engine/metricfile_v2.go:729-747 | Returns the first offset at which the vector occurs as a contiguous slice; None exactly when it is empty or occurs nowhere. |
| MetricPlan.PlanSharesMaximally | internal/engine/metricfile_v2.go:638-727 | Whatever the order of the inputs, the time frames are exactly the distinct timestamp vectors that are not contiguous slices of a longer input vector, and every input's vector is a slice of one of them. |
| MetricPlan.IdsAreDistinct | internal/engine/metricfile_v2.go:691-704 | Up to 65535 inputs, the 16-bit frame ids count up from one without wrapping. |
| MetricPlan.PlanMetricFrames | internal/engine/metricfile_v2.go:638-727 | The planning loops return the specified frames, and per input, in id order, a frame and offset at which its own times lie; inputs without times or with values in the wrong slice are refused. |
| StableSort.SortIsStable | internal/engine/metricfile_v2.go:649-654 | Sorting orders by key, keeps every element as often as it occurs, and keeps equal keys in their order. |
| StableSort.StableSortIsUnique | internal/engine/metricfile_build.go:353-414 | There is one stable sort: whatever sorts a list stably is the result. |
| MetricRecords.HeaderRoundTrip | internal/engine/metricfile_v2.go:225-271 | Decoding the 64-byte file header gives the header back, for all values its fields can hold. |
| MetricRecords.TimeHeaderRoundTrip | internal/engine/metricfile_v2.go:273-315 | The same for the time frame header. |
| MetricRecords.MetricHeaderRoundTrip | internal/engine/metricfile_v2.go:317-361 | The same for the metric frame header. |
| MetricRecords.TimeEntryRoundTrip | internal/engine/metricfile_v2.go:387-415 | The same for the time index entry. |
| MetricRecords.MetricEntryRoundTrip | internal/engine/metricfile_v2.go:417-449 | The same for the metric index entry. |
| MetricRecords.FooterRoundTrip | internal/engine/metricfile_v2.go:451-476 | The written footer passes its checks. |
| MetricFileProofs.WalkOfFile | internal/engine/metricfile_reader.go:182-250 | Reading back a written file, header, index offsets, tables and frames included, yields exactly the samples of its metric frames in order, for all frames within the cap and the fields' sizes. |
| MetricFileProofs.PlannedFileReadsBack | internal/engine/metricfile_v2.go:478-727 | A file written from planned inputs reads back as the inputs' samples in metric-id order: sharing time frames as slices loses nothing. |
| MetricFileWriter.WriteFile | internal/engine/metricfile_v2.go:478-636 | The loops over frames and tables, with running offsets and bounds and the header written over last, produce the specified file. |
| MetricFileWriter.WriteMetricFile | internal/engine/metricfile_v2.go:478-636 | Refuses exactly a bad partition kind, no inputs, or inputs that cannot be planned; what it writes within the format's limits reads back as the inputs' samples in metric-id order. |
| MetricFileWriter.WalkMetricFileSamples | internal/engine/metricfile_reader.go:182-250 | The loops over tables and entries return the walk's samples or its error, on any bytes. |
| MetricBuild.BuildInputs | internal/engine/metricfile_build.go:97-219 | Succeeds exactly when every sample's metric is known with a 32-bit type: the count-then-fill passes never over- or underfill, and each input is the unique stable time sort of its metric's samples in file order. |
| MetricBuild.FillPage | internal/engine/metricfile_build.go:179-219 | After a correct count, filling one more page cannot be refused and leaves every vector filled with its metric's samples so far. |
| MetricBuild.NormalizeOrder | internal/engine/metricfile_build.go:353-395 | Puts an input in stable time order, values moving with their times. |
| MetricCompare.CollectRawSamples | internal/engine/metricfile_build.go:416-443 | Per metric, the samples of the data file in stable time order; it fails exactly on an unknown metric. |
| MetricCompare.CompareSucceedsIff | internal/engine/metricfile_v2.go:1547-1648 | On any bytes, the comparison succeeds if and only if the file can be read, holds only expected metrics, and yields per metric exactly the expected samples in the expected order. |
| MetricCompare.BuildThenCompareSucceeds | internal/engine/metricfile_v2.go:1547-1648 | Comparing a file built from a data file with that data file always succeeds. |
| MetricCompare.ComparePartition | internal/engine/metricfile_v2.go:1547-1648 | The entry loop with its positions, checking sample by sample, returns the specification's verdict on any bytes. |
| MetricFileBuild.BuildMetricFile | internal/engine/metricfile_v2.go:1516-1545 | Succeeds exactly for a partition with samples, all of known 32-bit types; within the format's limits it writes a file for which the query and comparison theorems hold. |
| MetricFileBuild.BuildAndCompare | internal/engine/metricfile_v2.go:1485-1514 | A file just built, within the format's limits, passes the comparison with its own pages. |
| MetricFileBuild.CompareDataAndMetricPartition | internal/engine/metricfile_v1.go:332-365 | On any file, success is reported exactly when the file holds, metric by metric, the samples of the data in stable time order and no other metric. |
| MetricQuery.FileAnswers | internal/engine/metricfile_v2.go:1342-1410 | For every metric, range, stride and running count, the built file asked with the metric's own type answers with its samples in stable time order, so index pruning drops no match; asked with another type it refuses exactly when the metric's frame overlaps the range. |
| MetricQuery.SameAnswersIff | internal/engine/metricfile_v2.go:1342-1410 | A metric's queries on the built file and on the data file give the same sequence for every range, stride and count if and only if its samples are in time order in the data file. |
| MetricQuery.CollectFromPages | internal/engine/engine.go:1989-2021 | Scanning pages with header pruning takes from the metric's samples exactly what an unpruned scan takes, count included. |
| MetricQuery.CollectFromPage | internal/engine/engine.go:2192-2254 | Takes every stride-th match of the metric's samples in the range, counting on from earlier pages. |
| MetricSetQuery.CollectSetFromPages | internal/engine/engine.go:2023-2055 | One pass for a set of targets gives each target, in order, exactly what a scan of its own would give, its count included, and nothing to anyone else. |
| MetricSetQuery.CollectSetFromPage | internal/engine/engine.go:2256-2294 | The same for one page. |
| MetricSetQuery.QuerySet | internal/engine/metricfile_v2.go:1412-1481 | Through the caches, the callback gets what the pass delivers, in order, up to the first sample it fails on. When it fails on none, each target gets what a query of its own on the file would give it, a frame of another type than the registry's being refused, and the pass fails only with an error some target's own query fails with. |
| MetricSetQuery.TraceSetFileAnswers | internal/engine/metricfile_v2.go:1412-1481 | What a pass delivers before it ends is, target by target, what queries of their own answer; an error it ends with is one that a target's own query ends with. |
| MetricSetQuery.SameSetAnswers | internal/engine/metricfile_v2.go:1412-1481 | For a target whose samples are in time order in the data file, the built file gives what the one-pass scan of the data file gives it, for every range, stride and counts. |
| LruCaches.LruCache.Get | internal/engine/metricfile_v2.go:1024-1035 | A hit returns the stored value and makes the entry the most recently used; a miss changes nothing but its counter. |
| LruCaches.LruCache.Put | internal/engine/metricfile_v2.go:1060-1079 | Afterwards the byte counter is the sum of the entries and both limits hold; what is kept is the longest most-recently-used prefix within the limits. |
| LruCaches.LruCache.Configure | internal/engine/metricfile_v2.go:1037-1045 | The same after a change of the entry limit; a setting below one falls back to the default. |
| LruCaches.LruCache.Evict | internal/engine/metricfile_v2.go:1081-1097 | Terminates, removes least-recently-used entries first and no more than the limits ask for, and keeps the counters exact. |
| MetricCachedQuery.MetricFileReader.Query | internal/engine/metricfile_v2.go:1342-1410 | While the file behind a key is unchanged, the callback gets through both caches what reading the file delivers, in order, up to the first sample it fails on, whatever was cached, evicted or reconfigured before; the result is the callback's error, the file's error or the count. |
| MetricQuery.TraceFileAnswers | internal/engine/metricfile_v2.go:1342-1410 | What a query delivers and how it ends is its answer, or the error it answers with. |
| Prelude.CallsAre | internal/engine/metricfile_v2.go:1309-1322 | A callback is called on the items in order, on all of them when it fails on none, and otherwise up to the first it fails on. |
| MetricCachedQuery.MetricFileReader.ResolveTimes | internal/engine/metricfile_v2.go:1005-1022 | The query's own map, the shared cache and the file give the same timestamps. |
| MetricCachedQuery.MetricFileReader.ResolveIndexes | internal/engine/metricfile_v2.go:988-1003 | The cached index tables are those of the file. |
| Aggregates.RunsPartition | internal/engine/query_aggregates.go:91-209 | The buckets cut the sample stream into consecutive non-empty runs of equal bucket start, neighbours differing, losing and repeating nothing; so counts add up to the number of samples. |
| Aggregates.StreamingEqualsBatchIff | internal/engine/query_aggregates.go:43-89 | Streaming sum, average and count equal the batch ones on every run over exact arithmetic; the minimum does if and only if some point is at most the largest finite float32, and the maximum if and only if some point is at least its negative. |
| Aggregates.StreamedIsExtreme | internal/engine/query_aggregates.go:43-89 | The streaming minimum and maximum are the least and greatest point of the run. |
| Aggregates.BatchCompute | internal/engine/aggregates.go:35-96 | Each batch loop returns the fold of its points, and refuses an empty list. |
| Aggregates.QueryAggregateRange | internal/engine/query_aggregates.go:91-209 | Refuses an inverted range, a window that is not positive, an aggregate that is not supported and a list that asks for none; otherwise the callback gets, in order, one answer per run of the stream for each aggregate asked for, up to the first it fails on, and without the run being gathered when the range query fails. |
| Aggregates.ResolveAggregators | internal/engine/query_aggregates.go:211-233 | Returns the aggregates of the list, trimmed, each once and in order of first mention; refuses an unsupported one and a list without any. |
| Aggregates.WantedIsExact | internal/engine/query_aggregates.go:211-233 | The aggregates taken from a list are exactly those it mentions once trimmed, blanks aside, each once. |

## Left out

- MetricRuns.CrashTakes: above the watermark it bounds the loss from one side, because an unlogged sample survives when a refused duplicate of it is in the log; the exact count is MetricReadable.ReopenCountsRead.
- EventsDatabase.Database.AddEvent: asks for pages of fewer than 2^32 - 1 records, the range of the frame's record count.
- MetricFileWriter.WriteMetricFile: the read-back is stated for inputs whose ids, sizes and offsets fit the fields of the format and for frames within the cap, as the reader enforces.
- EventsQuery.QueryEvents: an error of the callback, which ends the query, is not modelled.
- Aggregates.StreamingEqualsBatchIff: exact arithmetic; float32 rounding, NaN and the order of additions are not modelled.
- The bytes of the metric log: it is an append-only sequence of records with a reset. Its file is not part of this model.
- The JSON syntax of events.json and catalog.json: each is a list of entries, whose names have been through JSON, validated and loaded as the code does. Files that are not JSON, or hold numbers out of range, are not part of this model.
- Metric names over 255 bytes, which rollups can form from long names and a suffix: they pass no ingest check, and the log refuses them.
- Rollups, the automatic metric-file build on sealing, retention, archiving, renaming or deleting raw files after a metric build, and V1 metric files.
- Locks and goroutines: operations are serialized, as the engine's write lock does. Statistics other than the caches' counters, logging, and the internal-events emitter.
- The HTTP server, command-line tools, MQTT, configuration files and scripts.
- fsync timing and reordering of writes at power loss.
- Percentile and trimmed-average aggregates: they are arbitrary functions of the run's points. The 64-bit wrap of a bucket's end time.
- The extra reset of a disabled metric log by an explicit flush, and the save of events.json that goes with a metric page or a metric log reset: the events layer's own saves may come at any moment.
- The last-value cache of the registry beyond the last time, and QueryLast.
- sort.SliceStable and sort.Strings: they are the specification's stable sort and an ascending order. The insertion sort the engine writes itself is verified.
