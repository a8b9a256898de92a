/** The vacancy reconciler (`PersistVacantSeatController.execute`): for each
    change-stream record it looks up the crawl result and the already-known
    vacant seats for the record's key, and saves one seat for every vacant seat
    of the crawl that the snapshot does not already hold.

    The repositories are maps read at the start of the batch; saving is an
    oracle saying which saves succeed. The concurrent fan-out over records and
    seats is a sequential fold: every task only reads the same snapshot. */
module PersistVacantSeat {
  import opened Wrappers
  import opened PerformanceValue
  import opened SeatValue
  import opened DomainModel

  // ---------------------------------------------------------------------
  // The change-stream record, in the nested optional shape it arrives in
  // ---------------------------------------------------------------------

  datatype EventName = Insert | Modify | Remove

  /** A string attribute of the new image (`{ S: ... }`). */
  datatype AttributeValue = AttributeValue(s: Option<string>)

  datatype StreamRecord = StreamRecord(
    newImage: Option<map<string, AttributeValue>>,
    approximateCreationDateTime: Option<int>
  )

  datatype DynamoDBRecord = DynamoDBRecord(
    eventName: Option<EventName>,
    dynamodb: Option<StreamRecord>
  )

  predicate IsRemove(rec: DynamoDBRecord)
  {
    rec.eventName == Some(Remove)
  }

  /** `record.dynamodb?.NewImage?.[name]?.S`: undefined as soon as any step of
      the chain is. */
  function ImageString(rec: DynamoDBRecord, name: string): Option<string>
  {
    match rec.dynamodb
    case None => None
    case Some(d) =>
      match d.newImage
      case None => None
      case Some(image) => if name in image then image[name].s else None
  }

  /** `record.dynamodb?.ApproximateCreationDateTime`, in unix seconds. */
  function CreationTime(rec: DynamoDBRecord): Option<int>
  {
    match rec.dynamodb
    case None => None
    case Some(d) => d.approximateCreationDateTime
  }

  // ---------------------------------------------------------------------
  // Errors of one record: the `BusinessError` constants, plus the failures
  // raised outside the controller (`Optional.get()`, `seatRepository.save`)
  // ---------------------------------------------------------------------

  datatype RecordError =
    | PerformanceCodeNotGiven    // PERFORMANCE_CODE_NOT_GIVEN
    | PerformanceDateNotGiven    // PERFORMANCE_DATE_NOT_GIVEN
    | MatineeOrSoireeNotGiven    // MATINEE_OR_SOIREE_NOT_GIVEN
    | InvalidDateFormat          // INVALID_DATE_FORMAT
    | CrawlerResultNotFound      // CRAWLER_RESULT_NOT_FOUND
    | SeatListNotFound           // the rejection of `Optional.get()` on an absent seat list; its exact error is not modelled
    | SaveFailed                 // a rejected `seatRepository.save`

  // ---------------------------------------------------------------------
  // Field validation
  // ---------------------------------------------------------------------

  /** A field a record must carry, with the error its absence raises, listed
      in the order `execute` checks them. */
  datatype RequiredField = ImageAttribute(name: string) | CreationDateTime

  predicate Given(rec: DynamoDBRecord, field: RequiredField)
  {
    match field
    case ImageAttribute(name) => ImageString(rec, name).Some?
    case CreationDateTime => CreationTime(rec).Some?
  }

  function RequiredFields(): seq<(RequiredField, RecordError)>
  {
    [ (ImageAttribute("performanceCode"), PerformanceCodeNotGiven),
      (ImageAttribute("performanceDate"), PerformanceDateNotGiven),
      (ImageAttribute("matineeOrSoiree"), MatineeOrSoireeNotGiven),
      (CreationDateTime, InvalidDateFormat) ]
  }

  /** Reference definition: the error of the first field in `fields` that the
      record lacks, if any. */
  function FirstMissing(rec: DynamoDBRecord, fields: seq<(RequiredField, RecordError)>): Option<RecordError>
  {
    if fields == [] then None
    else if !Given(rec, fields[0].0) then Some(fields[0].1)
    else FirstMissing(rec, fields[1..])
  }

  /** What a record that passes validation carries on. */
  datatype ValidRecord = ValidRecord(key: Key, unixTime: int)

  /** The four checks at the head of each record task, in the order
      `execute` makes them. */
  function Validate(rec: DynamoDBRecord): (r: Result<ValidRecord, RecordError>)
    ensures r.Err? <==> FirstMissing(rec, RequiredFields()).Some?
    ensures r.Err? ==> FirstMissing(rec, RequiredFields()) == Some(r.error)
    ensures r.Ok? ==>
      && Some(r.value.key.performanceCode.value) == ImageString(rec, "performanceCode")
      && Some(r.value.key.performanceDate.value) == ImageString(rec, "performanceDate")
      && Some(r.value.key.matineeOrSoiree.value) == ImageString(rec, "matineeOrSoiree")
      && Some(r.value.unixTime) == CreationTime(rec)
  {
    var fields := RequiredFields();
    assert FirstMissing(rec, fields[1..][1..][1..][1..]) == None;
    assert FirstMissing(rec, fields[1..][1..]) ==
      if ImageString(rec, "matineeOrSoiree").None? then Some(MatineeOrSoireeNotGiven)
      else FirstMissing(rec, fields[1..][1..][1..]);
    if ImageString(rec, "performanceCode").None? then Err(PerformanceCodeNotGiven)
    else if ImageString(rec, "performanceDate").None? then Err(PerformanceDateNotGiven)
    else if ImageString(rec, "matineeOrSoiree").None? then Err(MatineeOrSoireeNotGiven)
    else if CreationTime(rec).None? then Err(InvalidDateFormat)
    else
      Ok(ValidRecord(
        Key(PerformanceCode(ImageString(rec, "performanceCode").value),
            PerformanceDate(ImageString(rec, "performanceDate").value),
            MatineeOrSoiree(ImageString(rec, "matineeOrSoiree").value)),
        CreationTime(rec).value))
  }

  // ---------------------------------------------------------------------
  // The snapshot difference
  // ---------------------------------------------------------------------

  /** `alreadyVacantSeatList.some(s => info.equals(s.seatInfo))`. */
  predicate AlreadyVacant(info: VacantSeatInfo, snapshot: seq<Seat>)
  {
    exists i :: 0 <= i < |snapshot| && SameSeat(info, snapshot[i].seatInfo)
  }

  /** K: how many entries of `infos` the snapshot already holds (counted with
      multiplicity). */
  function CountAlreadyVacant(infos: seq<VacantSeatInfo>, snapshot: seq<Seat>): (k: nat)
    ensures k <= |infos|
  {
    if infos == [] then 0
    else (if AlreadyVacant(infos[0], snapshot) then 1 else 0) + CountAlreadyVacant(infos[1..], snapshot)
  }

  /** The entries of `infos` the snapshot does not hold, in crawl order and
      with their duplicates. */
  function NewlyVacant(infos: seq<VacantSeatInfo>, snapshot: seq<Seat>): (r: seq<VacantSeatInfo>)
    ensures |r| == |infos| - CountAlreadyVacant(infos, snapshot)
    ensures forall x :: x in r <==> x in infos && !AlreadyVacant(x, snapshot)
    ensures forall x :: multiset(r)[x] == if AlreadyVacant(x, snapshot) then 0 else multiset(infos)[x]
  {
    if infos == [] then []
    else
      var rest := NewlyVacant(infos[1..], snapshot);
      assert infos == [infos[0]] + infos[1..];
      if AlreadyVacant(infos[0], snapshot) then rest else [infos[0]] + rest
  }

  /** The seat identity of each seat, in order. */
  function SeatInfos(seats: seq<Seat>): (infos: seq<VacantSeatInfo>)
    ensures |infos| == |seats|
    ensures forall i :: 0 <= i < |seats| ==> infos[i] == seats[i].seatInfo
  {
    if seats == [] then [] else [seats[0].seatInfo] + SeatInfos(seats[1..])
  }

  /** One seat per entry of `infos`, stamped from the crawl result and the
      detection time. */
  function BuildSeats(result: CrawlingResult, infos: seq<VacantSeatInfo>, detection: DetectionDatetime): (seats: seq<Seat>)
    ensures |seats| == |infos|
    ensures forall i :: 0 <= i < |infos| ==> seats[i].seatInfo == infos[i] && StampedFrom(seats[i], result, detection)
  {
    if infos == [] then []
    else [BuildSeat(result, infos[0], detection)] + BuildSeats(result, infos[1..], detection)
  }

  /** The seats one record saves, given its crawl result, the snapshot and the
      record's commit time. */
  function SeatsToSave(result: CrawlingResult, snapshot: seq<Seat>, unixTime: int): (seats: seq<Seat>)
    ensures |seats| == |result.vacantSeatInfoList.list| - CountAlreadyVacant(result.vacantSeatInfoList.list, snapshot)
    ensures forall i :: 0 <= i < |seats| ==> StampedFrom(seats[i], result, FromUnixTime(unixTime))
    ensures forall x :: AlreadyVacant(x, seats) <==> x in result.vacantSeatInfoList.list && !AlreadyVacant(x, snapshot)
    // each identity is saved once per crawl entry the snapshot lacks, and never if the snapshot holds it
    ensures forall x :: multiset(SeatInfos(seats))[x] == (if AlreadyVacant(x, snapshot) then 0 else multiset(result.vacantSeatInfoList.list)[x])
  {
    var infos := NewlyVacant(result.vacantSeatInfoList.list, snapshot);
    var seats := BuildSeats(result, infos, FromUnixTime(unixTime));
    BuildSeatsKeepsInfos(result, infos, FromUnixTime(unixTime));
    seats
  }

  /** The built seats carry exactly `infos`, in order. */
  lemma BuildSeatsKeepsInfos(result: CrawlingResult, infos: seq<VacantSeatInfo>, detection: DetectionDatetime)
    ensures SeatInfos(BuildSeats(result, infos, detection)) == infos
    ensures forall x :: AlreadyVacant(x, BuildSeats(result, infos, detection)) <==> x in infos
  {
    var seats := BuildSeats(result, infos, detection);
    assert SeatInfos(seats) == infos;
    forall x ensures AlreadyVacant(x, seats) <==> x in infos {
      if x in infos {
        var i :| 0 <= i < |infos| && infos[i] == x;
        assert seats[i].seatInfo == x;
      }
    }
  }

  // ---------------------------------------------------------------------
  // Saves and their outcome
  // ---------------------------------------------------------------------

  /** Which `seatRepository.save` calls succeed: `saveOk(i, seat)` is the
      outcome of the `i`-th save one record task issues, of `seat`. Every call
      has an outcome of its own, so two saves of equal seats may differ. */
  type SaveOracle = (nat, Seat) -> bool

  /** The seats whose save succeeds, in order, the first of `seats` being
      save number `n`. */
  function PersistedFrom(seats: seq<Seat>, n: nat, saveOk: SaveOracle): (r: seq<Seat>)
    ensures |r| <= |seats|
    ensures forall s :: s in r ==> s in seats
  {
    if seats == [] then []
    else (if saveOk(n, seats[0]) then [seats[0]] else []) + PersistedFrom(seats[1..], n + 1, saveOk)
  }

  /** The seats a record task's saves leave in the seat store. */
  function Persisted(seats: seq<Seat>, saveOk: SaveOracle): seq<Seat>
  {
    PersistedFrom(seats, 0, saveOk)
  }

  /** Some save of a seat with identity `x` succeeds, the first of `seats`
      being save number `n`. */
  predicate SavedIdentityFrom(x: VacantSeatInfo, seats: seq<Seat>, n: nat, saveOk: SaveOracle)
  {
    exists i :: 0 <= i < |seats| && SameSeat(x, seats[i].seatInfo) && saveOk(n + i, seats[i])
  }

  predicate SavedIdentity(x: VacantSeatInfo, seats: seq<Seat>, saveOk: SaveOracle)
  {
    SavedIdentityFrom(x, seats, 0, saveOk)
  }

  /** Every save call of a record task succeeds. */
  predicate AllSaved(seats: seq<Seat>, saveOk: SaveOracle)
  {
    forall i :: 0 <= i < |seats| ==> saveOk(i, seats[i])
  }

  // ---------------------------------------------------------------------
  // One record
  // ---------------------------------------------------------------------

  /** A repository lookup the reconciler issues. */
  datatype Lookup = FindCrawlingResult(key: Key) | FindSeats(key: Key)

  /** What one record task does: the lookups it issues (in order), the seats it
      hands to `save`, and the error its promise rejects with, if any. */
  datatype RecordOutcome = RecordOutcome(lookups: seq<Lookup>, saves: seq<Seat>, error: Option<RecordError>)

  /** The record validates and both lookups for its key answer. */
  predicate Reconcilable(rec: DynamoDBRecord, results: map<Key, CrawlingResult>, seats: map<Key, seq<Seat>>)
  {
    Validate(rec).Ok? && Validate(rec).value.key in results && Validate(rec).value.key in seats
  }

  /** The task `execute` starts for one record that is not a REMOVE. */
  function ProcessRecord(rec: DynamoDBRecord, results: map<Key, CrawlingResult>, seats: map<Key, seq<Seat>>, saveOk: SaveOracle): (out: RecordOutcome)
    // a missing field stops the record before any read, with the first missing field's error
    ensures Validate(rec).Err? ==> out.lookups == [] && out.saves == [] && out.error == FirstMissing(rec, RequiredFields())
    // no crawl result: one read, no save
    ensures Validate(rec).Ok? && Validate(rec).value.key !in results ==>
      out.lookups == [FindCrawlingResult(Validate(rec).value.key)] && out.saves == [] && out.error == Some(CrawlerResultNotFound)
    // no seat list: both lookups, no save
    ensures Validate(rec).Ok? && Validate(rec).value.key in results && Validate(rec).value.key !in seats ==>
      && out.lookups == [FindCrawlingResult(Validate(rec).value.key), FindSeats(Validate(rec).value.key)]
      && out.saves == [] && out.error == Some(SeatListNotFound)
    // both lookups answer: the snapshot is read exactly once, after the crawl result and
    // before any save; N - K saves; an entry is saved iff the snapshot lacks it, as often as
    // the crawl lists it; every save is stamped
    ensures Reconcilable(rec, results, seats) ==>
      var key := Validate(rec).value.key;
      var list := results[key].vacantSeatInfoList.list;
      && out.lookups == [FindCrawlingResult(key), FindSeats(key)]
      && |out.saves| == |list| - CountAlreadyVacant(list, seats[key])
      && (forall x :: AlreadyVacant(x, out.saves) <==> x in list && !AlreadyVacant(x, seats[key]))
      && (forall x :: multiset(SeatInfos(out.saves))[x] == (if AlreadyVacant(x, seats[key]) then 0 else multiset(list)[x]))
      && (forall i :: 0 <= i < |out.saves| ==> StampedFrom(out.saves[i], results[key], FromUnixTime(Validate(rec).value.unixTime)))
    // the record succeeds iff it is reconcilable and every save succeeds; a rejected save fails it with SaveFailed
    ensures out.error.None? <==> Reconcilable(rec, results, seats) && AllSaved(out.saves, saveOk)
    ensures Reconcilable(rec, results, seats) && !AllSaved(out.saves, saveOk) ==> out.error == Some(SaveFailed)
  {
    match Validate(rec)
    case Err(e) => RecordOutcome([], [], Some(e))
    case Ok(v) =>
      if v.key !in results then
        RecordOutcome([FindCrawlingResult(v.key)], [], Some(CrawlerResultNotFound))
      else if v.key !in seats then
        RecordOutcome([FindCrawlingResult(v.key), FindSeats(v.key)], [], Some(SeatListNotFound))
      else
        var attempted := SeatsToSave(results[v.key], seats[v.key], v.unixTime);
        RecordOutcome([FindCrawlingResult(v.key), FindSeats(v.key)], attempted,
                      if AllSaved(attempted, saveOk) then None else Some(SaveFailed))
  }

  // ---------------------------------------------------------------------
  // The batch
  // ---------------------------------------------------------------------

  /** Everything one `execute` call does: all repository lookups, all attempted saves, and
      whether the outer handler logged an error. `execute` itself never throws. */
  datatype BatchOutcome = BatchOutcome(lookups: seq<Lookup>, saves: seq<Seat>, errorLogged: bool)

  function Combine(a: BatchOutcome, b: BatchOutcome): BatchOutcome
  {
    BatchOutcome(a.lookups + b.lookups, a.saves + b.saves, a.errorLogged || b.errorLogged)
  }

  /** What one record adds to the batch: nothing for a REMOVE, otherwise its
      task's lookups and saves, and a logged error if the task fails. */
  function RecordContribution(rec: DynamoDBRecord, results: map<Key, CrawlingResult>, seats: map<Key, seq<Seat>>, saveOk: SaveOracle): (c: BatchOutcome)
    ensures IsRemove(rec) ==> c.lookups == [] && c.saves == [] && !c.errorLogged
  {
    if IsRemove(rec) then BatchOutcome([], [], false)
    else
      var out := ProcessRecord(rec, results, seats, saveOk);
      BatchOutcome(out.lookups, out.saves, out.error.Some?)
  }

  /** The record is not a REMOVE and its task fails. */
  predicate RecordFails(rec: DynamoDBRecord, results: map<Key, CrawlingResult>, seats: map<Key, seq<Seat>>, saveOk: SaveOracle)
  {
    !IsRemove(rec) && ProcessRecord(rec, results, seats, saveOk).error.Some?
  }

  function ContributionOf(results: map<Key, CrawlingResult>, seats: map<Key, seq<Seat>>, saveOk: SaveOracle): DynamoDBRecord -> BatchOutcome
  {
    rec => RecordContribution(rec, results, seats, saveOk)
  }

  /** The records' contributions, combined in batch order. */
  function Fold(batch: seq<DynamoDBRecord>, contribution: DynamoDBRecord -> BatchOutcome): BatchOutcome
  {
    if batch == [] then BatchOutcome([], [], false)
    else Combine(contribution(batch[0]), Fold(batch[1..], contribution))
  }

  /** A fold logs an error iff some record's contribution does, and does
      nothing at all when no record contributes anything. */
  lemma {:induction false} FoldLogsIffSomeRecordLogs(batch: seq<DynamoDBRecord>, contribution: DynamoDBRecord -> BatchOutcome)
    ensures Fold(batch, contribution).errorLogged <==> exists i :: 0 <= i < |batch| && contribution(batch[i]).errorLogged
    ensures (forall i :: 0 <= i < |batch| ==> contribution(batch[i]) == BatchOutcome([], [], false)) ==>
      Fold(batch, contribution) == BatchOutcome([], [], false)
  {
    if batch != [] {
      FoldLogsIffSomeRecordLogs(batch[1..], contribution);
      assert forall i :: 1 <= i < |batch| ==> batch[i] == batch[1..][i - 1];
      if exists i :: 0 <= i < |batch[1..]| && contribution(batch[1..][i]).errorLogged {
        var i :| 0 <= i < |batch[1..]| && contribution(batch[1..][i]).errorLogged;
        assert contribution(batch[i + 1]).errorLogged;
      }
      if forall i :: 0 <= i < |batch| ==> contribution(batch[i]) == BatchOutcome([], [], false) {
        assert forall i :: 0 <= i < |batch[1..]| ==> contribution(batch[1..][i]) == BatchOutcome([], [], false);
      }
    }
  }

  /** `execute`: every record that is not a REMOVE runs its task; the outer
      handler logs the first rejection and swallows it, so `execute` never
      fails. An error is logged iff some record that is not a REMOVE fails,
      and a batch of REMOVE records reads and writes nothing. */
  function Execute(batch: seq<DynamoDBRecord>, results: map<Key, CrawlingResult>, seats: map<Key, seq<Seat>>, saveOk: SaveOracle): (out: BatchOutcome)
    ensures out.errorLogged <==> exists i {:trigger RecordFails(batch[i], results, seats, saveOk)} ::
      0 <= i < |batch| && RecordFails(batch[i], results, seats, saveOk)
    ensures (forall i :: 0 <= i < |batch| ==> IsRemove(batch[i])) ==> out.lookups == [] && out.saves == [] && !out.errorLogged
  {
    var f := ContributionOf(results, seats, saveOk);
    FoldLogsIffSomeRecordLogs(batch, f);
    assert forall i :: 0 <= i < |batch| ==> f(batch[i]) == RecordContribution(batch[i], results, seats, saveOk);
    assert forall i :: 0 <= i < |batch| ==> (f(batch[i]).errorLogged <==> RecordFails(batch[i], results, seats, saveOk));
    Fold(batch, f)
  }
}
