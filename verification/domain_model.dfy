/** The entities the reconciler reads and writes. */
module DomainModel {
  import opened PerformanceValue
  import opened SeatValue

  /** A persisted vacant seat: the performance it belongs to, the seat's
      identity and the time its vacancy was first detected. */
  datatype Seat = Seat(
    performanceId: PerformanceId,
    performanceCode: PerformanceCode,
    performanceName: PerformanceName,
    performanceDate: PerformanceDate,
    matineeOrSoiree: MatineeOrSoiree,
    performanceStartTime: PerformanceStartTime,
    seatInfo: VacantSeatInfo,
    detectionDatetime: DetectionDatetime
  )

  /** The outcome of one crawl run for one performance session. */
  datatype CrawlingResult = CrawlingResult(
    performanceId: PerformanceId,
    performanceCode: PerformanceCode,
    performanceName: PerformanceName,
    performanceDate: PerformanceDate,
    matineeOrSoiree: MatineeOrSoiree,
    performanceStartTime: PerformanceStartTime,
    vacantSeatInfoList: VacantSeatInfoList
  )

  /** The (code, date, matinee-or-soiree) key both repositories are queried by. */
  datatype Key = Key(
    performanceCode: PerformanceCode,
    performanceDate: PerformanceDate,
    matineeOrSoiree: MatineeOrSoiree
  )

  /** `Seat.create`: the seat for one vacant seat of a crawl result. */
  function BuildSeat(result: CrawlingResult, info: VacantSeatInfo, detection: DetectionDatetime): Seat
  {
    Seat(result.performanceId, result.performanceCode, result.performanceName,
         result.performanceDate, result.matineeOrSoiree, result.performanceStartTime,
         info, detection)
  }

  /** The seat carries the crawl result's performance fields and the given
      detection time; only its seat identity is left free. */
  predicate StampedFrom(seat: Seat, result: CrawlingResult, detection: DetectionDatetime)
  {
    && seat.performanceId == result.performanceId
    && seat.performanceCode == result.performanceCode
    && seat.performanceName == result.performanceName
    && seat.performanceDate == result.performanceDate
    && seat.matineeOrSoiree == result.matineeOrSoiree
    && seat.performanceStartTime == result.performanceStartTime
    && seat.detectionDatetime == detection
  }
}
