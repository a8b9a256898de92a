/** Value objects of the performance domain. Their `create` factories'
    validation is not part of this model: each value wraps the string it was
    created from and is compared structurally. */
module PerformanceValue {

  datatype PerformanceCode = PerformanceCode(value: string) {
    /** `toString()` gives back the code the value was created from. */
    function ToString(): string { value }
  }

  datatype PerformanceDate = PerformanceDate(value: string)

  /** `execute` casts the raw attribute to this type without checking it, so
      every string is a possible slot. */
  datatype MatineeOrSoiree = MatineeOrSoiree(value: string)

  datatype PerformanceId = PerformanceId(value: string)

  datatype PerformanceName = PerformanceName(value: string)

  datatype PerformanceStartTime = PerformanceStartTime(value: string)
}

/** Value objects of the seat domain: the identity of a vacant seat, the
    detection timestamp, and the ordered list of vacant seats a crawl reports. */
module SeatValue {

  /** The seat's identity (row, number, section in the crawled page), kept as
      one string. */
  datatype VacantSeatInfo = VacantSeatInfo(value: string)

  /** `VacantSeatInfo.equals`: value equality of the seat identity. */
  predicate SameSeat(a: VacantSeatInfo, b: VacantSeatInfo)
  {
    a == b
  }

  /** A detection timestamp, identified by the unix seconds it was made from. */
  datatype DetectionDatetime = DetectionDatetime(unixTime: int)

  /** `DetectionDatetime.fromUnixTime`. */
  function FromUnixTime(unixTime: int): DetectionDatetime
  {
    DetectionDatetime(unixTime)
  }

  /** The list of vacant seats of one crawl result, in crawl order. */
  datatype VacantSeatInfoList = VacantSeatInfoList(list: seq<VacantSeatInfo>) {

    /** `VacantSeatInfoList.create`: wraps the given list as it is, so
        duplicates are neither dropped nor merged and the order is kept. */
    static function Create(list: seq<VacantSeatInfo>): (r: VacantSeatInfoList)
      ensures r.list == list
    {
      VacantSeatInfoList(list)
    }

    predicate IsEmpty()
    {
      |list| == 0
    }
  }

  /** `isEmpty()` holds exactly when the list has no element. */
  lemma IsEmptyIffNoElements(l: VacantSeatInfoList)
    ensures l.IsEmpty() <==> l.list == []
    ensures l.IsEmpty() <==> forall x :: x !in l.list
  {
    if !l.IsEmpty() {
      assert l.list[0] in l.list;
    }
  }

  /** `create` of the empty list is empty, and `create` of any non-empty list
      is not, whatever its elements (duplicates included). */
  lemma CreateIsEmptyIffEmptyArgs(list: seq<VacantSeatInfo>)
    ensures VacantSeatInfoList.Create([]).IsEmpty()
    ensures VacantSeatInfoList.Create(list).IsEmpty() <==> list == []
  {
  }
}
