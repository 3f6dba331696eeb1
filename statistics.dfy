/** Per-status counts over a list of attendance records, shared by the
    student-detail and date-detail screens. */
module Statistics {
  import opened StatusModel
  import opened RecordModel
  import opened Sorting

  function HasStatus(status: AttendanceStatus): AttendanceRecord -> bool {
    (r: AttendanceRecord) => r.status == status
  }

  /** `records.count { it.status == status }` */
  function StatusCount(records: seq<AttendanceRecord>, status: AttendanceStatus): nat {
    CountWhere(records, HasStatus(status))
  }

  /** Every record has exactly one of the four statuses, so the four counts
      add up to the number of records. */
  lemma {:induction false} StatusCountsPartition(records: seq<AttendanceRecord>)
    ensures StatusCount(records, Present) + StatusCount(records, Absent)
            + StatusCount(records, Holiday) + StatusCount(records, NotMarked) == |records|
  {
    if records != [] {
      StatusCountsPartition(records[1..]);
    }
  }

  /** Appending a record raises exactly its own status's count. */
  lemma StatusCountAppend(records: seq<AttendanceRecord>, r: AttendanceRecord, status: AttendanceStatus)
    ensures StatusCount(records + [r], status) == StatusCount(records, status) + (if r.status == status then 1 else 0)
  {
    CountWhereAppend(records, [r], HasStatus(status));
  }

  /** The counts do not depend on the order the records are listed in. */
  lemma StatusCountSorted(records: seq<AttendanceRecord>, key: AttendanceRecord -> string, descending: bool,
                          status: AttendanceStatus)
    ensures StatusCount(SortBy(records, key, descending), status) == StatusCount(records, status)
  {
    CountWhereSortBy(records, key, descending, HasStatus(status));
  }
}
