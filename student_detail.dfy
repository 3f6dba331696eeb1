/** The student-detail screen: one student's full history with its summary
    statistics. */
module StudentDetailScreen {
  import opened Wrappers
  import opened StatusModel
  import opened StudentModel
  import opened RecordModel
  import opened Sorting
  import opened Statistics
  import opened Repository

  datatype StudentDetailUiState = StudentDetailUiState(
    student: Option<Student>,
    attendanceRecords: seq<AttendanceRecord>,
    isLoading: bool,
    error: Option<string>,
    totalDays: nat,
    presentDays: nat,
    absentDays: nat,
    holidayDays: nat,
    notMarkedDays: nat,
    attendancePercentage: real)

  const InitialState: StudentDetailUiState :=
    StudentDetailUiState(None, [], true, None, 0, 0, 0, 0, 0, 0.0)

  const LoadFailedText: string := "Failed to load student details"

  /** Present days as a share of the days that count (present or absent), in
      percent; 0 when no day counts. */
  function Percentage(present: nat, absent: nat): real {
    if present + absent > 0 then (present as real / (present + absent) as real) * 100.0 else 0.0
  }

  /** The share is a percentage: it is 0 exactly when no day was present, and
      100 exactly when every counted day was present. */
  lemma PercentageBounds(present: nat, absent: nat)
    ensures 0.0 <= Percentage(present, absent) <= 100.0
    ensures Percentage(present, absent) == 0.0 <==> present == 0
    ensures Percentage(present, absent) == 100.0 <==> present > 0 && absent == 0
  {
    if present + absent > 0 {
      var d := (present + absent) as real;
      assert present as real <= d;
      assert present as real / d <= 1.0;
      if Percentage(present, absent) == 100.0 {
        assert present as real / d == 1.0;
        assert present as real == d;
      }
    }
  }

  function RecordDate(r: AttendanceRecord): string { r.date }

  /** The state one emission of the history listener produces: the counts,
      the percentage and the records newest date first. */
  function Summary(student: Option<Student>, records: seq<AttendanceRecord>): StudentDetailUiState {
    var present := StatusCount(records, Present);
    var absent := StatusCount(records, Absent);
    StudentDetailUiState(student, SortBy(records, RecordDate, true), false, None, |records|,
                         present, absent, StatusCount(records, Holiday), StatusCount(records, NotMarked),
                         Percentage(present, absent))
  }

  /** Each day count is the number of records of its status, and together
      they partition the history; the percentage is the share of present days
      among the counted ones; the list is the history sorted by date with the
      newest first. */
  lemma SummaryCorrect(student: Option<Student>, records: seq<AttendanceRecord>)
    ensures var s := Summary(student, records);
            && s.student == student
            && s.presentDays == StatusCount(records, Present) && s.absentDays == StatusCount(records, Absent)
            && s.holidayDays == StatusCount(records, Holiday) && s.notMarkedDays == StatusCount(records, NotMarked)
            && s.presentDays + s.absentDays + s.holidayDays + s.notMarkedDays == s.totalDays == |records|
            && s.attendancePercentage == Percentage(s.presentDays, s.absentDays)
            && (s.attendancePercentage == 0.0 <==> s.presentDays == 0)
            && SortedBy(s.attendanceRecords, RecordDate, true)
            && multiset(s.attendanceRecords) == multiset(records)
            && 0.0 <= s.attendancePercentage <= 100.0
            && !s.isLoading && s.error.None?
  {
    StatusCountsPartition(records);
    SortByCorrect(records, RecordDate, true);
    PercentageBounds(StatusCount(records, Present), StatusCount(records, Absent));
  }

  /** A holiday or an unmarked day changes the day counts but never the
      percentage. */
  lemma UncountedDaysKeepPercentage(student: Option<Student>, records: seq<AttendanceRecord>, r: AttendanceRecord)
    requires r.status == Holiday || r.status == NotMarked
    ensures Summary(student, records + [r]).attendancePercentage == Summary(student, records).attendancePercentage
    ensures Summary(student, records + [r]).totalDays == Summary(student, records).totalDays + 1
  {
    StatusCountAppend(records, r, Present);
    StatusCountAppend(records, r, Absent);
  }

  /** Eight present, two absent and any number of uncounted days give 80%. */
  lemma EightOfTenIsEighty(student: Option<Student>, records: seq<AttendanceRecord>)
    requires StatusCount(records, Present) == 8 && StatusCount(records, Absent) == 2
    ensures Summary(student, records).attendancePercentage == 80.0
  {
  }

  /** How one history subscription ends: it delivers a snapshot of the
      student's records, or the listener fails. */
  datatype HistoryDelivery = Emitted(snap: Snapshot) | ListenerFailed(message: Option<string>)

  class StudentDetailViewModel {
    const repository: AttendanceRepository
    var uiState: StudentDetailUiState

    constructor (repository: AttendanceRepository)
      ensures this.repository == repository && uiState == InitialState
    {
      this.repository := repository;
      uiState := InitialState;
    }

    /** `loadStudentDetails`: look the student up (absent when the read
        fails), then summarise the delivered history, or report the
        listener's failure. */
    method LoadStudentDetails(studentId: string, lookupFault: Fault, delivery: HistoryDelivery)
      modifies this
      ensures delivery.Emitted? ==>
                uiState == Summary(StudentById(repository.students, studentId, lookupFault),
                                   RecordsWhere(delivery.snap, "studentId", studentId))
      ensures delivery.ListenerFailed? ==>
                uiState == old(uiState).(isLoading := false, error := Some(delivery.message.GetOr(LoadFailedText)))
    {
      uiState := uiState.(isLoading := true);
      var student := StudentById(repository.students, studentId, lookupFault);
      match delivery {
        case Emitted(snap) =>
          var records := RecordsWhere(snap, "studentId", studentId);
          uiState := Summary(student, records);
        case ListenerFailed(message) =>
          uiState := uiState.(isLoading := false, error := Some(message.GetOr(LoadFailedText)));
      }
    }
  }

  /** Every record the detail screen lists is the student's own. */
  lemma HistoryIsTheStudents(studentId: string, student: Option<Student>, snap: Snapshot)
    ensures forall r :: r in Summary(student, RecordsWhere(snap, "studentId", studentId)).attendanceRecords ==>
              r.studentId == studentId
  {
    var records := RecordsWhere(snap, "studentId", studentId);
    RecordsWhereFieldValue(snap, studentId);
    SortByCorrect(records, RecordDate, true);
    forall r | r in Summary(student, records).attendanceRecords ensures r.studentId == studentId {
      assert r in multiset(SortBy(records, RecordDate, true));
    }
  }
}
