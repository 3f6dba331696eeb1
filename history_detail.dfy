/** The date-detail screen: every record of one date, with per-status
    counts. */
module HistoryDetailScreen {
  import opened Wrappers
  import opened StatusModel
  import opened RecordModel
  import opened Sorting
  import opened Statistics
  import opened Repository
  import HistoryScreen

  datatype HistoryDetailUiState = HistoryDetailUiState(
    date: string,
    records: seq<AttendanceRecord>,
    presentCount: nat,
    absentCount: nat,
    holidayCount: nat,
    notMarkedCount: nat,
    isLoading: bool,
    error: Option<string>)

  const InitialState: HistoryDetailUiState := HistoryDetailUiState("", [], 0, 0, 0, 0, true, None)

  /** The state after one emission: the records by student name, and the
      counts taken on the records as delivered. */
  function Detail(s: HistoryDetailUiState, records: seq<AttendanceRecord>): HistoryDetailUiState {
    s.(records := SortBy(records, HistoryScreen.RecordStudentName, false),
       presentCount := StatusCount(records, Present),
       absentCount := StatusCount(records, Absent),
       holidayCount := StatusCount(records, Holiday),
       notMarkedCount := StatusCount(records, NotMarked),
       isLoading := false)
  }

  /** The counts cover every record once, and they agree with the counts of
      the sorted list on screen, which is a permutation of the delivery. */
  lemma DetailCorrect(s: HistoryDetailUiState, records: seq<AttendanceRecord>)
    ensures var t := Detail(s, records);
            && t.presentCount + t.absentCount + t.holidayCount + t.notMarkedCount == |records| == |t.records|
            && t.presentCount == StatusCount(t.records, Present)
            && t.absentCount == StatusCount(t.records, Absent)
            && t.holidayCount == StatusCount(t.records, Holiday)
            && t.notMarkedCount == StatusCount(t.records, NotMarked)
            && SortedBy(t.records, HistoryScreen.RecordStudentName, false)
            && multiset(t.records) == multiset(records)
            && t.date == s.date && !t.isLoading
  {
    StatusCountsPartition(records);
    SortByCorrect(records, HistoryScreen.RecordStudentName, false);
    var t := Detail(s, records);
    assert |t.records| == |records| by {
      assert |multiset(t.records)| == |multiset(records)|;
    }
    StatusCountSorted(records, HistoryScreen.RecordStudentName, false, Present);
    StatusCountSorted(records, HistoryScreen.RecordStudentName, false, Absent);
    StatusCountSorted(records, HistoryScreen.RecordStudentName, false, Holiday);
    StatusCountSorted(records, HistoryScreen.RecordStudentName, false, NotMarked);
  }

  class HistoryDetailViewModel {
    const repository: AttendanceRepository
    var uiState: HistoryDetailUiState

    constructor (repository: AttendanceRepository)
      ensures this.repository == repository && uiState == InitialState
    {
      this.repository := repository;
      uiState := InitialState;
    }

    /** `loadDateDetails`: the requested date is shown, and loading starts. */
    method LoadDateDetails(date: string)
      modifies this
      ensures uiState == old(uiState).(date := date, isLoading := true)
    {
      uiState := uiState.(date := date, isLoading := true);
    }

    /** One emission of the listener that `loadDateDetails(date)` started. */
    method OnDateRecords(date: string, snap: Snapshot)
      modifies this
      ensures uiState == Detail(old(uiState), RecordsWhere(snap, "date", date))
    {
      var records := RecordsWhere(snap, "date", date);
      var sortedRecords := SortBy(records, HistoryScreen.RecordStudentName, false);
      uiState := uiState.(records := sortedRecords,
                          presentCount := StatusCount(records, Present),
                          absentCount := StatusCount(records, Absent),
                          holidayCount := StatusCount(records, Holiday),
                          notMarkedCount := StatusCount(records, NotMarked),
                          isLoading := false);
    }

    method ClearError()
      modifies this
      ensures uiState == old(uiState).(error := None)
    {
      uiState := uiState.(error := None);
    }
  }
}
