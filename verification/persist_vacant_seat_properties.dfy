/** Properties of the vacancy reconciler that relate several calls: retrying
    a record, composing batches, and how one record's failure or removal
    bears on the others. */
module PersistVacantSeatProperties {
  import opened Wrappers
  import opened PerformanceValue
  import opened SeatValue
  import opened DomainModel
  import opened PersistVacantSeat

  /** A seat identity is in a concatenated snapshot iff it is in one part. */
  lemma AlreadyVacantAppend(x: VacantSeatInfo, a: seq<Seat>, b: seq<Seat>)
    ensures AlreadyVacant(x, a + b) <==> AlreadyVacant(x, a) || AlreadyVacant(x, b)
  {
    if AlreadyVacant(x, a + b) {
      var i :| 0 <= i < |a + b| && SameSeat(x, (a + b)[i].seatInfo);
      if i < |a| {
        assert SameSeat(x, a[i].seatInfo);
      } else {
        assert SameSeat(x, b[i - |a|].seatInfo);
      }
    }
    if AlreadyVacant(x, a) {
      var i :| 0 <= i < |a| && SameSeat(x, a[i].seatInfo);
      assert (a + b)[i] == a[i];
    }
    if AlreadyVacant(x, b) {
      var i :| 0 <= i < |b| && SameSeat(x, b[i].seatInfo);
      assert (a + b)[|a| + i] == b[i];
    }
  }

  /** A save of identity `x` succeeds among `seats` iff the first one is
      such a save or one of the rest is. */
  lemma SavedIdentityUnfold(x: VacantSeatInfo, seats: seq<Seat>, n: nat, saveOk: SaveOracle)
    requires seats != []
    ensures SavedIdentityFrom(x, seats, n, saveOk)
        <==> (SameSeat(x, seats[0].seatInfo) && saveOk(n, seats[0])) || SavedIdentityFrom(x, seats[1..], n + 1, saveOk)
  {
    if SavedIdentityFrom(x, seats[1..], n + 1, saveOk) {
      var j :| 0 <= j < |seats[1..]| && SameSeat(x, seats[1..][j].seatInfo) && saveOk(n + 1 + j, seats[1..][j]);
      assert seats[j + 1] == seats[1..][j];
      assert SameSeat(x, seats[j + 1].seatInfo) && saveOk(n + (j + 1), seats[j + 1]);
    }
    if SavedIdentityFrom(x, seats, n, saveOk) {
      var i :| 0 <= i < |seats| && SameSeat(x, seats[i].seatInfo) && saveOk(n + i, seats[i]);
      if i != 0 {
        assert seats[1..][i - 1] == seats[i];
        assert SameSeat(x, seats[1..][i - 1].seatInfo) && saveOk((n + 1) + (i - 1), seats[1..][i - 1]);
      }
    }
  }

  /** A seat identity is in the store after a task's saves iff some save of a
      seat with that identity succeeded. */
  lemma {:induction false} PersistedIdentities(x: VacantSeatInfo, seats: seq<Seat>, n: nat, saveOk: SaveOracle)
    ensures AlreadyVacant(x, PersistedFrom(seats, n, saveOk)) <==> SavedIdentityFrom(x, seats, n, saveOk)
  {
    if seats != [] {
      var head := seats[0];
      var kept := if saveOk(n, head) then [head] else [];
      var rest := PersistedFrom(seats[1..], n + 1, saveOk);
      assert PersistedFrom(seats, n, saveOk) == kept + rest;
      AlreadyVacantAppend(x, kept, rest);
      PersistedIdentities(x, seats[1..], n + 1, saveOk);
      SavedIdentityUnfold(x, seats, n, saveOk);
      assert AlreadyVacant(x, kept) <==> SameSeat(x, head.seatInfo) && saveOk(n, head) by {
        if saveOk(n, head) {
          assert kept[0] == head;
        }
      }
    }
  }

  /** Retrying a record (the change stream redelivers it) after its successful
      saves reached the seat store attempts a seat identity iff the first pass
      attempted it and none of its saves succeeded, and then once per crawl
      entry. A seat listed twice whose first save succeeds and second fails is
      therefore not retried. */
  lemma ReprocessRetriesOnlyUnsavedSeats(
    rec: DynamoDBRecord, results: map<Key, CrawlingResult>, seats: map<Key, seq<Seat>>, saveOk: SaveOracle)
    requires Reconcilable(rec, results, seats)
    ensures
      var key := Validate(rec).value.key;
      var list := results[key].vacantSeatInfoList.list;
      var first := ProcessRecord(rec, results, seats, saveOk);
      var second := ProcessRecord(rec, results, seats[key := seats[key] + Persisted(first.saves, saveOk)], saveOk);
      && (forall x :: AlreadyVacant(x, second.saves) <==> AlreadyVacant(x, first.saves) && !SavedIdentity(x, first.saves, saveOk))
      && (forall x :: multiset(SeatInfos(second.saves))[x] ==
            (if AlreadyVacant(x, first.saves) && !SavedIdentity(x, first.saves, saveOk) then multiset(list)[x] else 0))
  {
    var key := Validate(rec).value.key;
    var first := ProcessRecord(rec, results, seats, saveOk);
    var persisted := Persisted(first.saves, saveOk);
    assert Reconcilable(rec, results, seats[key := seats[key] + persisted]);
    forall x
      ensures AlreadyVacant(x, seats[key] + persisted) <==> AlreadyVacant(x, seats[key]) || SavedIdentity(x, first.saves, saveOk)
    {
      AlreadyVacantAppend(x, seats[key], persisted);
      PersistedIdentities(x, first.saves, 0, saveOk);
    }
  }

  /** Nothing is new against a snapshot that already knows every entry. */
  lemma {:induction false} NothingNewWhenAllKnown(infos: seq<VacantSeatInfo>, snapshot: seq<Seat>)
    requires forall x :: x in infos ==> AlreadyVacant(x, snapshot)
    ensures NewlyVacant(infos, snapshot) == []
  {
    if infos != [] {
      assert infos[0] in infos;
      NothingNewWhenAllKnown(infos[1..], snapshot);
    }
  }

  /** Idempotence: processing the same record again saves nothing once the
      seat store knows every identity that was known before or that the first
      pass attempted, whatever else the store now holds. */
  lemma ReprocessingIsIdempotent(
    rec: DynamoDBRecord, results: map<Key, CrawlingResult>, seats: map<Key, seq<Seat>>, saveOk: SaveOracle,
    next: seq<Seat>)
    requires Reconcilable(rec, results, seats)
    requires forall x ::
      (AlreadyVacant(x, seats[Validate(rec).value.key]) || AlreadyVacant(x, ProcessRecord(rec, results, seats, saveOk).saves))
      ==> AlreadyVacant(x, next)
    ensures ProcessRecord(rec, results, seats[Validate(rec).value.key := next], saveOk).saves == []
  {
    var v := Validate(rec).value;
    var list := results[v.key].vacantSeatInfoList.list;
    var first := ProcessRecord(rec, results, seats, saveOk);
    forall x | x in list
      ensures AlreadyVacant(x, next)
    {
      if !AlreadyVacant(x, seats[v.key]) {
        assert AlreadyVacant(x, first.saves);
      }
    }
    NothingNewWhenAllKnown(list, next);
    assert ProcessRecord(rec, results, seats[v.key := next], saveOk).saves
        == BuildSeats(results[v.key], NewlyVacant(list, next), FromUnixTime(v.unixTime));
  }

  lemma {:induction false} FoldAppend(a: seq<DynamoDBRecord>, b: seq<DynamoDBRecord>, contribution: DynamoDBRecord -> BatchOutcome)
    ensures Fold(a + b, contribution) == Combine(Fold(a, contribution), Fold(b, contribution))
  {
    if a == [] {
      assert a + b == b;
    } else {
      assert (a + b)[0] == a[0];
      assert (a + b)[1..] == a[1..] + b;
      FoldAppend(a[1..], b, contribution);
      var head, left, right := contribution(a[0]), Fold(a[1..], contribution), Fold(b, contribution);
      assert head.lookups + (left.lookups + right.lookups) == (head.lookups + left.lookups) + right.lookups;
      assert head.saves + (left.saves + right.saves) == (head.saves + left.saves) + right.saves;
    }
  }

  /** A batch of one record is that record's contribution. */
  lemma ExecuteSingle(rec: DynamoDBRecord, results: map<Key, CrawlingResult>, seats: map<Key, seq<Seat>>, saveOk: SaveOracle)
    ensures Execute([rec], results, seats, saveOk) == RecordContribution(rec, results, seats, saveOk)
  {
    var f := ContributionOf(results, seats, saveOk);
    var c := RecordContribution(rec, results, seats, saveOk);
    assert [rec][1..] == [];
    assert f(rec) == c;
    assert Fold([rec], f) == Combine(c, BatchOutcome([], [], false));
    assert c.lookups + [] == c.lookups && c.saves + [] == c.saves;
  }

  /** A batch's effects are those of its parts, in order: records do not
      influence one another. */
  lemma ExecuteAppend(
    a: seq<DynamoDBRecord>, b: seq<DynamoDBRecord>,
    results: map<Key, CrawlingResult>, seats: map<Key, seq<Seat>>, saveOk: SaveOracle)
    ensures Execute(a + b, results, seats, saveOk)
         == Combine(Execute(a, results, seats, saveOk), Execute(b, results, seats, saveOk))
  {
    FoldAppend(a, b, ContributionOf(results, seats, saveOk));
  }

  /** A REMOVE record changes nothing: no lookup, no save, no logged error,
      wherever it sits in the batch. */
  lemma RemoveRecordIgnored(
    a: seq<DynamoDBRecord>, rec: DynamoDBRecord, b: seq<DynamoDBRecord>,
    results: map<Key, CrawlingResult>, seats: map<Key, seq<Seat>>, saveOk: SaveOracle)
    requires IsRemove(rec)
    ensures Execute(a + [rec] + b, results, seats, saveOk) == Execute(a + b, results, seats, saveOk)
  {
    assert a + [rec] + b == a + ([rec] + b);
    ExecuteAppend(a, [rec] + b, results, seats, saveOk);
    RemoveAtFrontIgnored(rec, b, results, seats, saveOk);
    ExecuteAppend(a, b, results, seats, saveOk);
  }

  lemma RemoveAtFrontIgnored(
    rec: DynamoDBRecord, b: seq<DynamoDBRecord>,
    results: map<Key, CrawlingResult>, seats: map<Key, seq<Seat>>, saveOk: SaveOracle)
    requires IsRemove(rec)
    ensures Execute([rec] + b, results, seats, saveOk) == Execute(b, results, seats, saveOk)
  {
    ExecuteAppend([rec], b, results, seats, saveOk);
    ExecuteSingle(rec, results, seats, saveOk);
    var rest := Execute(b, results, seats, saveOk);
    assert [] + rest.lookups == rest.lookups && [] + rest.saves == rest.saves;
  }

  /** Isolation: the saves of the record at position `i` appear in the batch's
      saves exactly as that record alone produces them, whatever its siblings
      are and whether or not they fail. This rests on the model's reading that
      every task already started runs to completion: `execute` itself resolves
      as soon as `Promise.all` sees the first rejection, and the tasks still
      running then finish unobserved. */
  lemma RecordIsolation(
    batch: seq<DynamoDBRecord>, i: nat,
    results: map<Key, CrawlingResult>, seats: map<Key, seq<Seat>>, saveOk: SaveOracle)
    requires i < |batch| && !IsRemove(batch[i])
    ensures Execute(batch, results, seats, saveOk).saves
         == Execute(batch[..i], results, seats, saveOk).saves
          + ProcessRecord(batch[i], results, seats, saveOk).saves
          + Execute(batch[i + 1..], results, seats, saveOk).saves
  {
    assert batch == batch[..i] + [batch[i]] + batch[i + 1..];
    ExecuteAppend(batch[..i] + [batch[i]], batch[i + 1..], results, seats, saveOk);
    ExecuteAppend(batch[..i], [batch[i]], results, seats, saveOk);
    ExecuteSingle(batch[i], results, seats, saveOk);
  }

  /** A record missing a required field contributes nothing to the batch but
      a logged error: its siblings' lookups and saves are those they make
      without it. As for `RecordIsolation`, the siblings' tasks are taken to
      run to completion after `execute` has logged the rejection and
      resolved. */
  lemma InvalidRecordDoesNotAffectSiblings(
    bad: DynamoDBRecord, rest: seq<DynamoDBRecord>,
    results: map<Key, CrawlingResult>, seats: map<Key, seq<Seat>>, saveOk: SaveOracle)
    requires Validate(bad).Err?
    ensures var out := Execute([bad] + rest, results, seats, saveOk);
      && out.lookups == Execute(rest, results, seats, saveOk).lookups
      && out.saves == Execute(rest, results, seats, saveOk).saves
      && (!IsRemove(bad) ==> out.errorLogged)
  {
    ExecuteAppend([bad], rest, results, seats, saveOk);
    ExecuteSingle(bad, results, seats, saveOk);
  }

  // A worked batch: seats A1, A2 and B3 crawled for one session, A1 already known.

  function ScenarioKey(): Key
  {
    Key(PerformanceCode("1011"), PerformanceDate("2024-05-01"), MatineeOrSoiree("matinee"))
  }

  function ScenarioResult(): CrawlingResult
  {
    CrawlingResult(PerformanceId("p"), PerformanceCode("1011"), PerformanceName("n"),
                   PerformanceDate("2024-05-01"), MatineeOrSoiree("matinee"), PerformanceStartTime("13:00"),
                   VacantSeatInfoList.Create([VacantSeatInfo("A1"), VacantSeatInfo("A2"), VacantSeatInfo("B3")]))
  }

  function ScenarioSnapshot(): seq<Seat>
  {
    [BuildSeat(ScenarioResult(), VacantSeatInfo("A1"), FromUnixTime(1000))]
  }

  function ScenarioRecord(): DynamoDBRecord
  {
    DynamoDBRecord(Some(Insert), Some(StreamRecord(
      Some(map["performanceCode" := AttributeValue(Some("1011")),
               "performanceDate" := AttributeValue(Some("2024-05-01")),
               "matineeOrSoiree" := AttributeValue(Some("matinee"))]),
      Some(1714500000))))
  }

  lemma ScenarioDiff()
    ensures NewlyVacant(ScenarioResult().vacantSeatInfoList.list, ScenarioSnapshot())
         == [VacantSeatInfo("A2"), VacantSeatInfo("B3")]
  {
    var a1, a2, b3 := VacantSeatInfo("A1"), VacantSeatInfo("A2"), VacantSeatInfo("B3");
    var snapshot := ScenarioSnapshot();
    assert snapshot[0].seatInfo == a1;
    assert AlreadyVacant(a1, snapshot);
    assert !AlreadyVacant(a2, snapshot);
    assert !AlreadyVacant(b3, snapshot);
    assert [a1, a2, b3][1..] == [a2, b3];
    assert [a2, b3][1..] == [b3];
    assert NewlyVacant([b3], snapshot) == [b3] by {
      assert [b3][1..] == [];
    }
    assert NewlyVacant([a2, b3], snapshot) == [a2, b3];
  }

  lemma ScenarioValidates()
    ensures Validate(ScenarioRecord()) == Ok(ValidRecord(ScenarioKey(), 1714500000))
  {
  }

  lemma ScenarioBuild()
    ensures BuildSeats(ScenarioResult(), [VacantSeatInfo("A2"), VacantSeatInfo("B3")], FromUnixTime(1714500000))
         == [BuildSeat(ScenarioResult(), VacantSeatInfo("A2"), FromUnixTime(1714500000)),
             BuildSeat(ScenarioResult(), VacantSeatInfo("B3"), FromUnixTime(1714500000))]
  {
    assert [VacantSeatInfo("A2"), VacantSeatInfo("B3")][1..] == [VacantSeatInfo("B3")];
    assert [VacantSeatInfo("B3")][1..] == [];
  }

  lemma ScenarioToSave()
    ensures SeatsToSave(ScenarioResult(), ScenarioSnapshot(), 1714500000)
         == [BuildSeat(ScenarioResult(), VacantSeatInfo("A2"), FromUnixTime(1714500000)),
             BuildSeat(ScenarioResult(), VacantSeatInfo("B3"), FromUnixTime(1714500000))]
  {
    ScenarioDiff();
    ScenarioBuild();
  }

  lemma ScenarioRecordSaves(saveOk: SaveOracle)
    ensures
      var detected := FromUnixTime(1714500000);
      ProcessRecord(ScenarioRecord(), map[ScenarioKey() := ScenarioResult()], map[ScenarioKey() := ScenarioSnapshot()], saveOk).saves
        == [BuildSeat(ScenarioResult(), VacantSeatInfo("A2"), detected), BuildSeat(ScenarioResult(), VacantSeatInfo("B3"), detected)]
  {
    ScenarioValidates();
    ScenarioToSave();
  }

  /** Exactly A2 and B3 are saved, in crawl order, both detected at the
      record's commit time. */
  lemma TwoOfThreeSeatsSaved(saveOk: SaveOracle)
    ensures
      var result := ScenarioResult();
      var detected := FromUnixTime(1714500000);
      Execute([ScenarioRecord()], map[ScenarioKey() := result], map[ScenarioKey() := ScenarioSnapshot()], saveOk).saves
        == [BuildSeat(result, VacantSeatInfo("A2"), detected), BuildSeat(result, VacantSeatInfo("B3"), detected)]
  {
    var results := map[ScenarioKey() := ScenarioResult()];
    var seats := map[ScenarioKey() := ScenarioSnapshot()];
    var rec := ScenarioRecord();
    ScenarioRecordSaves(saveOk);
    ExecuteSingle(rec, results, seats, saveOk);
  }

  // A crawl that lists A1 twice against an empty snapshot, where only the
  // first save call succeeds.

  function DuplicateResult(): CrawlingResult
  {
    CrawlingResult(PerformanceId("p"), PerformanceCode("1011"), PerformanceName("n"),
                   PerformanceDate("2024-05-01"), MatineeOrSoiree("matinee"), PerformanceStartTime("13:00"),
                   VacantSeatInfoList.Create([VacantSeatInfo("A1"), VacantSeatInfo("A1")]))
  }

  function FirstSaveOnly(): SaveOracle
  {
    (i: nat, seat: Seat) => i == 0
  }

  function DuplicateSeat(): Seat
  {
    BuildSeat(DuplicateResult(), VacantSeatInfo("A1"), FromUnixTime(1714500000))
  }

  /** First pass: both entries are new, so A1 is saved twice. */
  lemma DuplicateFirstSaves()
    ensures ProcessRecord(ScenarioRecord(), map[ScenarioKey() := DuplicateResult()], map[ScenarioKey() := []], FirstSaveOnly()).saves
         == [DuplicateSeat(), DuplicateSeat()]
  {
    var a1 := VacantSeatInfo("A1");
    var list := DuplicateResult().vacantSeatInfoList.list;
    assert list == [a1, a1];
    assert !AlreadyVacant(a1, []);
    assert list[1..] == [a1] && list[1..][1..] == [];
    assert NewlyVacant(list, []) == list;
    assert BuildSeats(DuplicateResult(), list, FromUnixTime(1714500000)) == [DuplicateSeat(), DuplicateSeat()];
    ScenarioValidates();
  }

  /** Second pass, with the one stored A1: nothing is new. */
  lemma DuplicateSecondSaves()
    ensures ProcessRecord(ScenarioRecord(), map[ScenarioKey() := DuplicateResult()],
                          map[ScenarioKey() := []][ScenarioKey() := [DuplicateSeat()]], FirstSaveOnly()).saves
         == []
  {
    assert map[ScenarioKey() := []][ScenarioKey() := [DuplicateSeat()]] == map[ScenarioKey() := [DuplicateSeat()]];
    var a1 := VacantSeatInfo("A1");
    var list := DuplicateResult().vacantSeatInfoList.list;
    assert list == [a1, a1];
    assert SameSeat(a1, [DuplicateSeat()][0].seatInfo);
    NothingNewWhenAllKnown(list, [DuplicateSeat()]);
    ScenarioValidates();
  }

  /** The second save call fails, so the first pass fails. */
  lemma DuplicateFirstFails()
    ensures ProcessRecord(ScenarioRecord(), map[ScenarioKey() := DuplicateResult()], map[ScenarioKey() := []], FirstSaveOnly()).error.Some?
  {
    var first := ProcessRecord(ScenarioRecord(), map[ScenarioKey() := DuplicateResult()], map[ScenarioKey() := []], FirstSaveOnly());
    DuplicateFirstSaves();
    assert !FirstSaveOnly()(1, first.saves[1]);
  }

  /** Only the first of the two saves reaches the store. */
  lemma DuplicatePersisted()
    ensures Persisted([DuplicateSeat(), DuplicateSeat()], FirstSaveOnly()) == [DuplicateSeat()]
  {
    var seat := DuplicateSeat();
    assert [seat, seat][1..] == [seat] && [seat][1..] == [];
    assert PersistedFrom([seat], 1, FirstSaveOnly()) == [];
  }

  /** Both entries are saved and the second save fails the record, yet the
      redelivered record attempts nothing: the successful save already put A1
      in the store. */
  lemma SeatSavedOnceIsNotRetried()
    ensures
      var results := map[ScenarioKey() := DuplicateResult()];
      var seats := map[ScenarioKey() := []];
      var first := ProcessRecord(ScenarioRecord(), results, seats, FirstSaveOnly());
      && first.saves == [DuplicateSeat(), DuplicateSeat()]
      && first.error.Some?
      && ProcessRecord(ScenarioRecord(), results, seats[ScenarioKey() := Persisted(first.saves, FirstSaveOnly())], FirstSaveOnly()).saves == []
  {
    DuplicateFirstSaves();
    DuplicateFirstFails();
    DuplicatePersisted();
    DuplicateSecondSaves();
  }
}
