/** The history screen: the list of dates that have records, and the records
    of the date the user selects. */
module HistoryScreen {
  import opened Wrappers
  import opened RecordModel
  import opened Sorting
  import opened Repository

  datatype HistoryUiState = HistoryUiState(
    dates: seq<string>,
    selectedDate: Option<string>,
    attendanceRecords: seq<AttendanceRecord>,
    isLoading: bool,
    error: Option<string>)

  const InitialState: HistoryUiState := HistoryUiState([], None, [], true, None)

  function RecordStudentName(r: AttendanceRecord): string { r.studentName }

  /** `selectDate`: the selected date is deselected (and its records
      cleared); any other date becomes the selection and starts loading. */
  function Select(s: HistoryUiState, date: string): HistoryUiState {
    if s.selectedDate == Some(date) then s.(selectedDate := None, attendanceRecords := [])
    else s.(selectedDate := Some(date), isLoading := true)
  }

  /** Selecting is a toggle: from any state that does not have `date`
      selected, selecting it twice ends with nothing selected and no records
      shown, and the first selection selects it. */
  lemma SelectToggles(s: HistoryUiState, date: string)
    requires s.selectedDate != Some(date)
    ensures Select(s, date).selectedDate == Some(date) && Select(s, date).isLoading
    ensures Select(Select(s, date), date).selectedDate == None
    ensures Select(Select(s, date), date).attendanceRecords == []
    ensures Select(Select(s, date), date).dates == s.dates
  {
  }

  /** Selecting never touches the dates list or the error. */
  lemma SelectKeepsDates(s: HistoryUiState, date: string)
    ensures Select(s, date).dates == s.dates && Select(s, date).error == s.error
    ensures Select(s, date).selectedDate.Some? <==> s.selectedDate != Some(date)
  {
  }

  /** The records one emission for `date` shows: that date's records, by
      student name. */
  function DateRecords(snap: Snapshot, date: string): seq<AttendanceRecord> {
    SortBy(RecordsWhere(snap, "date", date), RecordStudentName, false)
  }

  /** The shown records are exactly the delivered records of that date, sorted
      by student name. */
  lemma DateRecordsCorrect(snap: Snapshot, date: string)
    ensures SortedBy(DateRecords(snap, date), RecordStudentName, false)
    ensures multiset(DateRecords(snap, date)) == multiset(RecordsWhere(snap, "date", date))
    ensures forall r :: r in DateRecords(snap, date) ==> r.date == date
  {
    var records := RecordsWhere(snap, "date", date);
    SortByCorrect(records, RecordStudentName, false);
    RecordsWhereFieldValue(snap, date);
    forall r | r in DateRecords(snap, date) ensures r.date == date {
      assert r in multiset(DateRecords(snap, date));
    }
  }

  class HistoryViewModel {
    const repository: AttendanceRepository
    var uiState: HistoryUiState

    constructor (repository: AttendanceRepository)
      ensures this.repository == repository && uiState == InitialState
    {
      this.repository := repository;
      uiState := InitialState;
    }

    /** One emission of the dates listener. */
    method OnDates(snap: Snapshot)
      modifies this
      ensures uiState == old(uiState).(dates := AttendanceDates(snap), isLoading := false)
    {
      uiState := uiState.(dates := AttendanceDates(snap), isLoading := false);
    }

    method SelectDate(date: string)
      modifies this
      ensures uiState == Select(old(uiState), date)
    {
      if uiState.selectedDate == Some(date) {
        uiState := uiState.(selectedDate := None, attendanceRecords := []);
        return;
      }
      uiState := uiState.(selectedDate := Some(date), isLoading := true);
    }

    /** One emission of the listener a selection of `date` started. */
    method OnDateRecords(date: string, snap: Snapshot)
      modifies this
      ensures uiState == old(uiState).(attendanceRecords := DateRecords(snap, date), isLoading := false)
    {
      uiState := uiState.(attendanceRecords := DateRecords(snap, date), isLoading := false);
    }

    method ClearError()
      modifies this
      ensures uiState == old(uiState).(error := None)
    {
      uiState := uiState.(error := None);
    }
  }
}
