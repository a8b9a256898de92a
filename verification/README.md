# Seat-vacancy tracker: dispatch and reconciliation core, in Dafny

This project models the two decision pipelines of a web scraper that tracks
vacant seats for ticketed performances:

- **Crawl dispatcher** (`BatchAssignCrawlingController.execute`). It walks a
  worklist of (performance code, koenKi) items in order. For each item it
  opens a crawling session and asks for the year-month tokens the performance
  can be crawled by. It then puts one `AssignCrawling` event per token on the
  event bus. Any error ends the run, and the handler logs it and swallows it.
- **Vacancy reconciler** (`PersistVacantSeatController.execute`). It reads a
  batch of change-stream records and skips the REMOVE ones. For each other
  record it checks four required fields and looks up the crawl result and
  the already-known vacant seats for the record's (code, date,
  matinee-or-soiree) key. It then saves one `Seat` for every vacant seat of
  the crawl that the snapshot does not already hold. Each seat is stamped
  with the record's commit time.
- **`VacantSeatInfoList`**: the ordered list of vacant seats a crawl reports,
  with duplicates kept.

Modules:

| file | module | content |
|---|---|---|
| `wrappers.dfy` | `Wrappers` | `Option`, `Result` |
| `values.dfy` | `PerformanceValue`, `SeatValue` | value objects; `VacantSeatInfoList` |
| `domain_model.dfy` | `DomainModel` | `Seat`, `CrawlingResult`, the lookup `Key`, `Seat.create` |
| `persist_vacant_seat.dfy` | `PersistVacantSeat` | the reconciler: validation, snapshot difference, one record, the batch fold |
| `persist_vacant_seat_properties.dfy` | `PersistVacantSeatProperties` | retry, idempotence, isolation, REMOVE immunity, worked example |
| `batch_assign_crawling.dfy` | `BatchAssignCrawling` | the dispatcher: one item, and the abort-on-failure loop |
| `batch_assign_crawling_properties.dfy` | `BatchAssignCrawlingProperties` | fan-out bijection, order, abort, worked example |

How the model stands in for the I/O:

- **Repositories.** The crawl-result repository is a `map<Key, CrawlingResult>`.
  The seat repository is a `map<Key, seq<Seat>>`, and an absent key stands for
  an empty `Optional`. Whether a save succeeds is an oracle
  `saveOk: (nat, Seat) -> bool`, asked with the position of the save among
  the saves one record task issues, so that every call has its own outcome.
- **Crawling invoker and event bus.** These are the oracles in
  `Collaborators`. `getSession` is indexed by how many sessions the run has
  already asked for. `getYearAndMonthList` is a function of its arguments.
  `putEvents` says which put calls succeed. It is asked with the item's
  number and the put's position within the item, so every call has its own
  outcome, even for equal events.
- **Outputs.** A run is described by what it does. For the reconciler that is
  each record's lookups in order, records in batch order (the sequential
  fold below), the seats handed to `save`, and whether an
  error was logged. For the dispatcher it is the collaborator calls in order
  and the logged failure.
- **Concurrency.** The concurrent fan-outs (`Promise.all` over records, seats
  and puts) are sequential folds. Every task in a fan-out is started before
  any of them is awaited, so a rejected sibling never prevents one from being
  issued. For the same reason, an item's puts are all issued even when one
  of them fails.

Error handling and ordering, as the code does them:

- Errors are not caught per record. A record's rejection reaches the single
  outer `try` around `Promise.all`, which logs it. Sibling records still run,
  because each was already started. The model therefore records only whether
  an error was logged (`errorLogged`), not one log entry per failing record.
- The dispatcher builds an item's events in token order and puts them
  concurrently. The model issues them in token order; the set of puts is the
  same either way.
- A saved seat takes its performance fields (id, code, name, date, slot,
  start time) from the crawl result, not from the change-stream record.

## Model

| member | source | states |
|---|---|---|
| SeatValue.VacantSeatInfoList.Create | src/main/domain/value/seat/VacantSeatInfoList.ts:13-17 | `create(list)` holds exactly the given list, in its order and with its duplicates |
| SeatValue.IsEmptyIffNoElements | src/main/domain/value/seat/VacantSeatInfoList.ts:23-25 | `isEmpty()` holds iff the list is empty, that is iff no seat is in it |
| SeatValue.CreateIsEmptyIffEmptyArgs | src/main/domain/value/seat/VacantSeatInfoList.ts:13-25 | `create([])` is empty; `create(list)` is empty iff `list` is |
| PersistVacantSeat.Validate | src/main/controller/seat/PersistVacantSeatController.ts:43-47 | a record is rejected iff one of the four required fields is missing, and then with the error of the first missing one in the order code, date, slot, commit time (checked against a table-driven reference); an accepted record carries exactly those field values as its key and time |
| PersistVacantSeat.NewlyVacant | src/main/controller/seat/PersistVacantSeatController.ts:60-67 | the crawl's seats not `equals` to any snapshot seat: a seat is kept iff the snapshot lacks it, each kept seat keeps its multiplicity, and the count is N - K |
| PersistVacantSeat.BuildSeats | src/main/controller/seat/PersistVacantSeatController.ts:69-78 | one seat per vacant-seat entry, in order, with that entry as its seat identity and the crawl result's performance fields and the given detection time |
| PersistVacantSeat.SeatsToSave | src/main/controller/seat/PersistVacantSeatController.ts:59-81 | exactly N - K seats are saved; a seat identity is saved iff it is in the crawl and not in the snapshot; every saved seat is stamped from the crawl result and `fromUnixTime` of the commit time; each seat identity is saved exactly as many times as it occurs in the crawl when the snapshot lacks it, and never when the snapshot holds it |
| PersistVacantSeat.BuildSeatsKeepsInfos | src/main/controller/seat/PersistVacantSeatController.ts:69-78 | the seats built for a list of vacant-seat entries carry exactly those entries as their identities, in order |
| PersistVacantSeat.ProcessRecord | src/main/controller/seat/PersistVacantSeatController.ts:42-83 | a record with a missing field makes no lookup and no save and fails with the first missing field's error; without a crawl result it makes one lookup, no save and fails with CRAWLER_RESULT_NOT_FOUND; without a seat list it makes both lookups, no save and fails with `SeatListNotFound`; whenever both lookups answer, the record makes exactly one crawl-result lookup and then one snapshot lookup for its key, whether or not anything is saved; the saves are the snapshot difference (N - K of them, iff-membership, per-identity multiplicity, stamped); the record succeeds iff both lookups answer and every save succeeds, and a rejected save fails it with `SaveFailed` |
| PersistVacantSeat.RecordContribution | src/main/controller/seat/PersistVacantSeatController.ts:40-42 | a REMOVE record contributes no lookup, no save and no logged error |
| PersistVacantSeat.Execute | src/main/controller/seat/PersistVacantSeatController.ts:37-88 | `execute` returns normally; it logs an error iff some record other than a REMOVE fails; a batch of REMOVE records makes no lookup, no save and logs nothing |
| PersistVacantSeatProperties.RemoveRecordIgnored | src/main/controller/seat/PersistVacantSeatController.ts:40-41 | inserting a REMOVE record anywhere in a batch changes nothing: no lookup, no save, no logged error |
| PersistVacantSeatProperties.ExecuteAppend | src/main/controller/seat/PersistVacantSeatController.ts:39-85 | the outcome of a batch is the outcome of its two parts combined: lookups and saves concatenated, errors or-ed |
| PersistVacantSeatProperties.RecordIsolation | src/main/controller/seat/PersistVacantSeatController.ts:39-88 | the saves of the record at any position appear in the batch's saves exactly as that record alone produces them, whatever its siblings do |
| PersistVacantSeatProperties.InvalidRecordDoesNotAffectSiblings | src/main/controller/seat/PersistVacantSeatController.ts:42-46 | a record missing a required field leaves its siblings' lookups and saves as they are without it, and an error is logged |
| PersistVacantSeatProperties.PersistedIdentities | src/main/controller/seat/PersistVacantSeatController.ts:79-82 | a seat identity reaches the seat store through a task's saves iff at least one save call of a seat with that identity succeeds |
| PersistVacantSeatProperties.ReprocessRetriesOnlyUnsavedSeats | src/main/controller/seat/PersistVacantSeatController.ts:54-81 | after the successful saves of a record reach the seat store, processing the same record again attempts a seat identity iff the first pass attempted it and none of its save calls succeeded, and then once per crawl entry of that identity |
| PersistVacantSeatProperties.SeatSavedOnceIsNotRetried | src/main/controller/seat/PersistVacantSeatController.ts:54-81 | a crawl listing A1 twice against an empty store saves A1 twice; when only the first save succeeds the record fails, and the redelivered record saves nothing |
| PersistVacantSeatProperties.NothingNewWhenAllKnown | src/main/controller/seat/PersistVacantSeatController.ts:60-67 | when the snapshot already holds every seat of the crawl, no seat is new |
| PersistVacantSeatProperties.ReprocessingIsIdempotent | src/main/controller/seat/PersistVacantSeatController.ts:54-67 | for any later seat store that holds every seat identity of the earlier snapshot and of the first pass's saves, processing the same record again saves nothing |
| PersistVacantSeatProperties.TwoOfThreeSeatsSaved | src/main/controller/seat/PersistVacantSeatController.ts:48-79 | crawl {A1, A2, B3} with A1 already known saves exactly A2 then B3, both detected at the record's commit time |
| BatchAssignCrawling.EventsFor | src/main/controller/crawling/BatchAssignCrawlingController.ts:39-48 | one event per token, in token order: detail type AssignCrawling, payload (code string, that token, koenKi) |
| BatchAssignCrawling.DispatchItem | src/main/controller/crawling/BatchAssignCrawlingController.ts:36-49 | the session call comes first and the year-month list call second, asked with the item's code and koenKi; every put comes after both; a rejected session or list stops the item there; with a list there are exactly as many puts as tokens (none for an empty list); the item succeeds iff the session, the list and every put succeed |
| BatchAssignCrawlingProperties.EventsCarryEveryToken | src/main/controller/crawling/BatchAssignCrawlingController.ts:39-48 | reading the tokens back off the events gives the year-month list itself, duplicates included |
| BatchAssignCrawling.LoopSucceedsIffEveryStepDoes | src/main/controller/crawling/BatchAssignCrawlingController.ts:35-50 | the worklist loop ends without a failure iff every item's step goes through |
| BatchAssignCrawling.Execute | src/main/controller/crawling/BatchAssignCrawlingController.ts:24-54 | the run ends without a logged error iff every item gets its session, its list and all its puts; an empty worklist makes no call |
| BatchAssignCrawlingProperties.DispatchAppend | src/main/controller/crawling/BatchAssignCrawlingController.ts:35-50 | running a worklist is running its first part and then, only if that part did not fail, the rest, whose calls all come after |
| BatchAssignCrawlingProperties.LoopRunsInOrder | src/main/controller/crawling/BatchAssignCrawlingController.ts:35-50 | for any step, once the steps before offset k went through, step k's calls directly follow theirs |
| BatchAssignCrawlingProperties.ItemsRunInOrder | src/main/controller/crawling/BatchAssignCrawlingController.ts:35-50 | once every earlier item succeeded, item k's calls directly follow all of theirs |
| BatchAssignCrawlingProperties.FailureStopsLaterItems | src/main/controller/crawling/BatchAssignCrawlingController.ts:35-54 | when item k is the first to fail, no later item makes any call, and the run logs item k's failure and returns normally |
| BatchAssignCrawlingProperties.OneItemTwoMonths | src/main/controller/crawling/BatchAssignCrawlingController.ts:25-48 | item (1011, 6) with tokens 2024-05 and 2024-06 makes exactly: session, list, put (1011, 2024-05, 6), put (1011, 2024-06, 6) |
| BatchAssignCrawlingProperties.EqualPutsFailApart | src/main/controller/crawling/BatchAssignCrawlingController.ts:35-50 | two identical items that put the same event: when the first item's put resolves and the second's rejects, the first item goes through, the second fails, and the run logs the put failure after all six calls |

## Left out

- AWS types and transport: the Lambda event wrappers, EventBridge `putEvents` and the crawling HTTP invoker are I/O. They are replaced by the oracles above.
- Logging: `console.log` and `console.error` carry nothing beyond "an error was logged", which is the `errorLogged` flag or the `failure` field.
- Which error is logged: `Promise.all` rejects with whichever record fails first in time. The model records only that one was logged.
- Lambda freezing after the handler returns: the model assumes every started task runs to completion, as the tasks are never cancelled.
- Interleaving across records: each record task issues its crawl-result lookup before the loop starts the next task, so in the running program every valid record's crawl-result lookup precedes any seat lookup. The model lists lookups record by record instead; within a record the order is the program's.
- Records sharing a key within one batch: every lookup sees the store as it was before the batch. In the running program, a sibling's save may already be visible to a later snapshot read.
- Value-object factories: `PerformanceCode.create`, `PerformanceDate.create`, `Seat.create` and `DetectionDatetime.fromUnixTime` are modelled as plain constructors that keep their arguments, and `VacantSeatInfo.equals` as value equality. Any validation these factories do, and any error they raise, is not modelled. `PerformanceCode.toString()` is taken to return the code string it was created from.
- `execute` casts `matineeOrSoiree` without checking it, so any string is accepted as a slot.
- Timestamp arithmetic: `fromUnixTime` is an injective wrapper around the commit time. The commit time is a whole number of seconds.
- The hardcoded dispatcher worklist is a parameter. The dispatcher's `execute` never reads its `event` argument, so it is not modelled.
- Absent seat list: `Optional.get()` rejects when the seat repository returns no list. Its exact error is not modelled, so the model uses one generic record failure, `SeatListNotFound`.
- Seat saves: a rejected save only makes its record fail. Which seats reach the store is `Persisted`, so no partial write is modelled.
- Save outcomes across processings: `saveOk` is indexed by the position of a save within one processing of a record. Two processings (siblings in one batch, or a redelivery) that issue a save at the same position with the same seat get the same outcome. The retry lemmas compare only which saves are attempted, not whether the retried saves succeed.
