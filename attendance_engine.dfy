/** The attendance screen's engine: the two-tap confirmation protocol, the
    notify-then-write confirmation, the once-per-session daily
    initialisation, and the projection that joins the roster with today's
    records and the pending taps. */
module AttendanceEngine {
  import opened Wrappers
  import opened Documents
  import opened StatusModel
  import opened StudentModel
  import opened RecordModel
  import opened Sequences
  import opened Repository

  // ==================== NOTIFICATION GATEWAY ====================

  /** What the environment does with a notification attempt. */
  datatype GatewayOutcome = Delivered | Failed | Denied

  /** The gateway's answer, as the view-model matches on it. */
  datatype SmsResult = SmsSuccess(studentName: string) | SmsError | SmsPermissionDenied

  datatype OutgoingSms = OutgoingSms(phoneNumber: string, message: string)

  /** The fixed text of an absence notification. */
  function AbsenceMessage(studentName: string): string {
    "Your child " + studentName + " was marked absent today."
  }

  /** The notification gateway as an injected collaborator: it records every
      attempt and answers with the outcome the environment chose. An attempt
      is a call of the gateway, not a sent message: a `Denied` attempt is
      refused before anything is handed to the SMS service. */
  class NotificationGateway {
    var attempts: seq<OutgoingSms>

    constructor ()
      ensures attempts == []
    {
      attempts := [];
    }

    method SendAbsenceSms(phoneNumber: string, studentName: string, outcome: GatewayOutcome)
      returns (r: SmsResult)
      modifies this
      ensures attempts == old(attempts) + [OutgoingSms(phoneNumber, AbsenceMessage(studentName))]
      ensures r == GatewayAnswer(outcome, studentName)
    {
      attempts := attempts + [OutgoingSms(phoneNumber, AbsenceMessage(studentName))];
      r := GatewayAnswer(outcome, studentName);
    }
  }

  function GatewayAnswer(outcome: GatewayOutcome, studentName: string): (r: SmsResult)
    ensures r.SmsSuccess? <==> outcome == Delivered
    ensures r.SmsSuccess? ==> r.studentName == studentName
  {
    match outcome
    case Delivered => SmsSuccess(studentName)
    case Failed => SmsError
    case Denied => SmsPermissionDenied
  }

  // ==================== SCREEN STATE ====================

  datatype SnackbarMessage = SnackbarSuccess(message: string) | SnackbarError(message: string)

  datatype SmsErrorInfo = SmsErrorInfo(studentName: string, parentPhone: string, errorMessage: string)

  /** One row of the attendance list. */
  datatype StudentAttendanceItem = StudentAttendanceItem(
    student: Student,
    attendanceRecord: Option<AttendanceRecord>,
    status: AttendanceStatus,
    isSelected: bool,
    pendingStatus: Option<AttendanceStatus>)

  datatype AttendanceUiState = AttendanceUiState(
    students: seq<StudentAttendanceItem>,
    isLoading: bool,
    error: Option<string>,
    todayDate: string,
    smsError: Option<SmsErrorInfo>,
    snackbarMessage: Option<SnackbarMessage>)

  function SmsFailureText(parentPhone: string): string {
    "Failed to send absence notification SMS to " + parentPhone + ". Attendance not marked."
  }

  const PermissionDeniedText: string := "SMS permission not granted"
  const UpdateFailedText: string := "Failed to update attendance"

  function SmsSentText(studentName: string): string {
    "SMS sent to parent of " + studentName
  }

  // ==================== READ-SIDE PROJECTION ====================

  function StudentIdOf(s: Student): string { s.id }
  function RecordStudentIdOf(r: AttendanceRecord): string { r.studentId }

  /** One row: the student joined with their record (if any), the
      selection and the pending map. */
  function Row(student: Student, byStudent: map<string, AttendanceRecord>,
               selectedId: Option<string>, pending: map<string, AttendanceStatus>): (item: StudentAttendanceItem)
    ensures item.student == student
    ensures item.attendanceRecord.Some? <==> student.id in byStudent
    ensures item.status == if student.id in byStudent then byStudent[student.id].status else NotMarked
    ensures item.isSelected <==> selectedId == Some(student.id)
    ensures item.pendingStatus.Some? <==> student.id in pending
  {
    var record := if student.id in byStudent then Some(byStudent[student.id]) else None;
    StudentAttendanceItem(student, record,
                          if record.Some? then record.value.status else NotMarked,
                          selectedId == Some(student.id),
                          if student.id in pending then Some(pending[student.id]) else None)
  }

  /** The `combine` projection: one row per distinct student id (the first
      such student, in roster order), joined with the last of today's
      records for that id, the selection and the pending map. */
  function Project(students: seq<Student>, attendance: seq<AttendanceRecord>,
                   selectedId: Option<string>, pending: map<string, AttendanceStatus>)
    : (items: seq<StudentAttendanceItem>)
    ensures |items| == |DistinctBy(students, StudentIdOf, {})|
    ensures forall i :: 0 <= i < |items| ==> items[i].student == DistinctBy(students, StudentIdOf, {})[i]
  {
    var byStudent := AssociateBy(attendance, RecordStudentIdOf);
    var roster := DistinctBy(students, StudentIdOf, {});
    seq(|roster|, i requires 0 <= i < |roster| => Row(roster[i], byStudent, selectedId, pending))
  }

  /** Each row shows the last of today's records for its student (or
      NOT_MARKED when there is none), and the selection and pending status. */
  lemma ProjectJoin(students: seq<Student>, attendance: seq<AttendanceRecord>,
                    selectedId: Option<string>, pending: map<string, AttendanceStatus>, i: int)
    requires 0 <= i < |Project(students, attendance, selectedId, pending)|
    ensures var item := Project(students, attendance, selectedId, pending)[i];
            var id := item.student.id;
            && (item.isSelected <==> selectedId == Some(id))
            && item.pendingStatus == (if id in pending then Some(pending[id]) else None)
            && (item.attendanceRecord.None? <==> forall j :: 0 <= j < |attendance| ==> attendance[j].studentId != id)
            && (item.attendanceRecord.None? ==> item.status == NotMarked)
            && (item.attendanceRecord.Some? ==>
                  && item.status == item.attendanceRecord.value.status
                  && exists j :: 0 <= j < |attendance| && attendance[j] == item.attendanceRecord.value
                                 && attendance[j].studentId == id
                                 && forall j' :: j < j' < |attendance| ==> attendance[j'].studentId != id)
  {
    var byStudent := AssociateBy(attendance, RecordStudentIdOf);
    var item := Project(students, attendance, selectedId, pending)[i];
    var id := item.student.id;
    assert item == Row(DistinctBy(students, StudentIdOf, {})[i], byStudent, selectedId, pending);
    if id in byStudent {
      assert item.attendanceRecord == Some(byStudent[id]);
    } else {
      forall j | 0 <= j < |attendance| ensures attendance[j].studentId != id {
        assert RecordStudentIdOf(attendance[j]) in byStudent;
      }
    }
  }

  /** The projection lists each student id of the roster exactly once, in
      roster order. */
  lemma ProjectRows(students: seq<Student>, attendance: seq<AttendanceRecord>,
                    selectedId: Option<string>, pending: map<string, AttendanceStatus>)
    ensures var items := Project(students, attendance, selectedId, pending);
            && (forall i, j :: 0 <= i < j < |items| ==> items[i].student.id != items[j].student.id)
            && (forall s :: s in students ==> exists i :: 0 <= i < |items| && items[i].student.id == s.id)
            && IsSubsequence(seq(|items|, i requires 0 <= i < |items| => items[i].student), students)
            && (forall i :: 0 <= i < |items| ==> items[i].isSelected ==> selectedId == Some(items[i].student.id))
  {
    var items := Project(students, attendance, selectedId, pending);
    var roster := DistinctBy(students, StudentIdOf, {});
    assert seq(|items|, i requires 0 <= i < |items| => items[i].student) == roster;
    forall s | s in students ensures exists i :: 0 <= i < |items| && items[i].student.id == s.id {
      var y :| y in roster && StudentIdOf(y) == StudentIdOf(s);
      var i :| 0 <= i < |roster| && roster[i] == y;
    }
  }

  // ==================== ENGINE STATE AND TRANSITIONS ====================

  /** Everything a tap can change: the attendance collection, the gateway's
      attempts, the selection, the pending map and the screen state. */
  datatype EngineState = EngineState(
    attendance: map<string, Document>,
    attempts: seq<OutgoingSms>,
    selected: Option<string>,
    pending: map<string, AttendanceStatus>,
    ui: AttendanceUiState)

  /** The inputs a confirmation draws from its environment: the date and
      clock, and the outcome of each store call and of the gateway. */
  datatype ConfirmEnv = ConfirmEnv(
    today: string,
    now: int,
    precheckFault: Fault,
    gateway: GatewayOutcome,
    updateFault: Fault,
    markFault: Fault)

  /** A tap confirms exactly when it repeats the pending status of the
      selected student. */
  predicate TapConfirms(selected: Option<string>, pending: map<string, AttendanceStatus>,
                        studentId: string, status: AttendanceStatus) {
    selected == Some(studentId) && studentId in pending && pending[studentId] == status
  }

  /** Does confirming this status consult the gateway? */
  predicate NotifiesFirst(s: EngineState, student: Student, status: AttendanceStatus, env: ConfirmEnv) {
    status == Absent && ShouldSendSms(s.attendance, student.id, env.today, env.precheckFault)
  }

  /** The attendance write and what follows it. */
  function Persist(s: EngineState, student: Student, status: AttendanceStatus, env: ConfirmEnv): EngineState {
    if env.updateFault.Fault? then
      s.(ui := s.ui.(error := Some(env.updateFault.message.GetOr(UpdateFailedText))))
    else
      var due := SmsDue(StoredRecord(s.attendance, RecordKey(student.id, env.today)), status);
      var written := Upsert(s.attendance, student.id, student.name, status, env.today, env.now);
      var marked := if status == Absent && due then MarkSent(written, student.id, env.today, env.markFault) else written;
      s.(attendance := marked, selected := None, pending := s.pending - {student.id})
  }

  /** `confirmAttendance`: for an absence that still needs a notification the
      gateway is called first, and a failed or refused notification aborts the
      write; otherwise the record is written. */
  function Confirm(s: EngineState, student: Student, status: AttendanceStatus, env: ConfirmEnv): EngineState {
    if NotifiesFirst(s, student, status, env) then
      var attempted := s.(attempts := s.attempts + [OutgoingSms(student.parentPhone, AbsenceMessage(student.name))]);
      match env.gateway
      case Delivered =>
        Persist(attempted.(ui := attempted.ui.(snackbarMessage := Some(SnackbarSuccess(SmsSentText(student.name))))),
                student, status, env)
      case Failed =>
        attempted.(ui := attempted.ui.(smsError := Some(SmsErrorInfo(student.name, student.parentPhone,
                                                                     SmsFailureText(student.parentPhone)))),
                   selected := None, pending := s.pending - {student.id})
      case Denied =>
        attempted.(ui := attempted.ui.(snackbarMessage := Some(SnackbarError(PermissionDeniedText))),
                   selected := None, pending := s.pending - {student.id})
    else
      Persist(s, student, status, env)
  }

  /** `onAttendanceTap`: confirm, or (re-)arm this student's pending status. */
  function Tap(s: EngineState, student: Student, status: AttendanceStatus, env: ConfirmEnv): EngineState {
    if TapConfirms(s.selected, s.pending, student.id, status) then Confirm(s, student, status, env)
    else s.(selected := Some(student.id), pending := s.pending[student.id := status])
  }

  // ==================== PROPERTIES OF THE PROTOCOL ====================

  /** A tap that does not confirm writes nothing and calls no gateway: it only
      selects the student and sets this student's pending entry. */
  lemma ArmingTapWritesNothing(s: EngineState, student: Student, status: AttendanceStatus, env: ConfirmEnv)
    requires !TapConfirms(s.selected, s.pending, student.id, status)
    ensures var t := Tap(s, student, status, env);
            && t.attendance == s.attendance && t.attempts == s.attempts && t.ui == s.ui
            && t.selected == Some(student.id)
            && student.id in t.pending && t.pending[student.id] == status
            && t.pending.Keys == s.pending.Keys + {student.id}
            && (forall id :: id in s.pending && id != student.id ==> t.pending[id] == s.pending[id])
  {
  }

  /** One tap never confirms from a state where another student (or none) is
      selected; a second tap of the same status then does, and a tap of a
      different status only re-arms. */
  lemma TwoMatchingTapsConfirm(s: EngineState, student: Student, status: AttendanceStatus, other: AttendanceStatus,
                               env: ConfirmEnv)
    requires s.selected != Some(student.id)
    ensures !TapConfirms(s.selected, s.pending, student.id, status)
    ensures var t := Tap(s, student, status, env);
            && TapConfirms(t.selected, t.pending, student.id, status)
            && (other != status ==> !TapConfirms(t.selected, t.pending, student.id, other))
            && Tap(t, student, status, env) == Confirm(t, student, status, env)
  {
  }

  /** Confirming anything but ABSENT never consults the gateway and goes
      straight to the write. */
  lemma NonAbsentSkipsGateway(s: EngineState, student: Student, status: AttendanceStatus, env: ConfirmEnv)
    requires status != Absent
    ensures Confirm(s, student, status, env) == Persist(s, student, status, env)
    ensures Confirm(s, student, status, env).attempts == s.attempts
  {
  }

  /** A confirmation makes at most one notification attempt, to the
      student's parent, and only for an ABSENT that the pre-check says was
      not yet notified. */
  lemma AtMostOneAttempt(s: EngineState, student: Student, status: AttendanceStatus, env: ConfirmEnv)
    ensures var t := Confirm(s, student, status, env);
            t.attempts == s.attempts + (if NotifiesFirst(s, student, status, env)
                                        then [OutgoingSms(student.parentPhone, AbsenceMessage(student.name))] else [])
  {
  }

  /** A failed or refused notification aborts the confirmation: the
      attendance collection is unchanged, the selection is cleared and only
      this student's pending entry is removed, and the failure is reported. */
  lemma FailedNotificationBlocksWrite(s: EngineState, student: Student, env: ConfirmEnv)
    requires NotifiesFirst(s, student, Absent, env) && env.gateway != Delivered
    ensures var t := Confirm(s, student, Absent, env);
            && t.attendance == s.attendance
            && t.selected == None && t.pending == s.pending - {student.id}
            && (env.gateway == Failed ==> t.ui.smsError.Some? && t.ui.smsError.value.parentPhone == student.parentPhone)
            && (env.gateway == Denied ==> t.ui.snackbarMessage == Some(SnackbarError(PermissionDeniedText)))
  {
  }

  /** ABSENT is only ever written after the pre-check said the parent was
      already notified, or after the gateway delivered the notification. */
  lemma AbsentWriteImpliesNotified(s: EngineState, student: Student, env: ConfirmEnv)
    requires Confirm(s, student, Absent, env).attendance != s.attendance
    ensures !ShouldSendSms(s.attendance, student.id, env.today, env.precheckFault) || env.gateway == Delivered
  {
  }

  /** A write that succeeds stores the status, clears the selection and this
      student's pending entry, and never clears `smsSent`. */
  lemma SuccessfulWrite(s: EngineState, student: Student, status: AttendanceStatus, env: ConfirmEnv)
    requires env.updateFault.NoFault?
    requires !(NotifiesFirst(s, student, status, env) && env.gateway != Delivered)
    ensures var t := Confirm(s, student, status, env);
            var key := RecordKey(student.id, env.today);
            && t.selected == None && t.pending == s.pending - {student.id}
            && StoredRecord(t.attendance, key).Some?
            && StoredRecord(t.attendance, key).value.status == status
            && StoredRecord(t.attendance, key).value.studentName == student.name
            && (AlreadyNotified(StoredRecord(s.attendance, key)) ==> StoredRecord(t.attendance, key).value.smsSent)
            && (status == Absent ==> StoredRecord(t.attendance, key).value.smsSent)
            && (forall k :: k in s.attendance && k != key ==> k in t.attendance && t.attendance[k] == s.attendance[k])
  {
    var key := RecordKey(student.id, env.today);
    var s1 := if NotifiesFirst(s, student, status, env)
              then s.(attempts := s.attempts + [OutgoingSms(student.parentPhone, AbsenceMessage(student.name))],
                      ui := s.ui.(snackbarMessage := Some(SnackbarSuccess(SmsSentText(student.name)))))
              else s;
    assert Confirm(s, student, status, env) == Persist(s1, student, status, env);
    UpsertDecodes(s.attendance, student.id, student.name, status, env.today, env.now);
    var written := Upsert(s.attendance, student.id, student.name, status, env.today, env.now);
    if status == Absent && SmsDue(StoredRecord(s.attendance, key), status) && env.markFault.NoFault? {
      MarkSentDecodes(written, student.id, env.today);
    }
  }

  /** A write that fails leaves the collection, the selection and the pending
      map as they were and reports the error. */
  lemma FailedWriteKeepsPending(s: EngineState, student: Student, status: AttendanceStatus, env: ConfirmEnv)
    requires env.updateFault.Fault?
    requires !(NotifiesFirst(s, student, status, env) && env.gateway != Delivered)
    ensures var t := Confirm(s, student, status, env);
            && t.attendance == s.attendance && t.selected == s.selected && t.pending == s.pending
            && t.ui.error == Some(env.updateFault.message.GetOr(UpdateFailedText))
  {
  }

  /** Once today's record says the parent was notified, confirming ABSENT
      again (after any status changes) calls no gateway, as long as the
      pre-check read succeeds. */
  lemma NoSecondNotification(s: EngineState, student: Student, env: ConfirmEnv)
    requires env.precheckFault.NoFault?
    requires AlreadyNotified(StoredRecord(s.attendance, RecordKey(student.id, env.today)))
    ensures Confirm(s, student, Absent, env).attempts == s.attempts
  {
  }

  /** A whole day for a one-student roster: initialisation creates a NOT_MARKED
      record, the first ABSENT tap changes nothing and notifies no one, and
      the second, with the notification delivered, stores ABSENT with
      `smsSent` set after exactly one notification. */
  lemma EndToEndAbsence(student: Student, today: string, now: int, later: int, ui: AttendanceUiState)
    ensures var key := RecordKey(student.id, today);
            var initialised := InitBatch([student], map[], today, now);
            var env := ConfirmEnv(today, later, NoFault, Delivered, NoFault, NoFault);
            var s0 := EngineState(initialised, [], None, map[], ui);
            var s1 := Tap(s0, student, Absent, env);
            var s2 := Tap(s1, student, Absent, env);
            && StoredRecord(initialised, key) == Some(NewDayRecord(student, today, now))
            && s1.attendance == initialised && s1.attempts == []
            && StoredRecord(s2.attendance, key).Some?
            && StoredRecord(s2.attendance, key).value.status == Absent
            && StoredRecord(s2.attendance, key).value.smsSent
            && s2.attempts == [OutgoingSms(student.parentPhone, AbsenceMessage(student.name))]
  {
    var key := RecordKey(student.id, today);
    var initialised := InitBatch([student], map[], today, now);
    assert [student][..0] == [];
    assert InitBatch([student][..0], map[], today, now) == map[];
    assert initialised == map[][key := NewDayDocument(student, today, now)];
    RecordModel.RoundTrip(NewDayRecord(student, today, now));
    var env := ConfirmEnv(today, later, NoFault, Delivered, NoFault, NoFault);
    var s0 := EngineState(initialised, [], None, map[], ui);
    ArmingTapWritesNothing(s0, student, Absent, env);
    var s1 := Tap(s0, student, Absent, env);
    assert NotifiesFirst(s1, student, Absent, env);
    SuccessfulWrite(s1, student, Absent, env);
    AtMostOneAttempt(s1, student, Absent, env);
  }

  // ==================== THE VIEW-MODEL ====================

  /** The inputs of one emission of the combined flows that concern the
      initialisation guard. */
  datatype SnapshotEnv = SnapshotEnv(today: string, now: int, checkFault: Fault, initFault: Fault)

  class AttendanceViewModel {
    const repository: AttendanceRepository
    const gateway: NotificationGateway
    var uiState: AttendanceUiState
    var selectedStudentId: Option<string>
    var pendingStatus: map<string, AttendanceStatus>
    var hasInitializedToday: bool

    function State(): EngineState
      reads this, repository, gateway
    {
      EngineState(repository.attendance, gateway.attempts, selectedStudentId, pendingStatus, uiState)
    }

    /** A new view-model starts loading, with nothing selected or pending. */
    constructor (repository: AttendanceRepository, gateway: NotificationGateway, today: string)
      ensures this.repository == repository && this.gateway == gateway
      ensures uiState == AttendanceUiState([], true, None, today, None, None)
      ensures selectedStudentId == None && pendingStatus == map[] && !hasInitializedToday
    {
      this.repository := repository;
      this.gateway := gateway;
      uiState := AttendanceUiState([], true, None, today, None, None);
      selectedStudentId := None;
      pendingStatus := map[];
      hasInitializedToday := false;
    }

    /** One emission of `combine(students, todayRecords, selection, pending)`:
        the first non-empty roster of the view-model's lifetime triggers the
        guarded daily initialisation, then the rows are rebuilt. */
    method OnSnapshot(students: seq<Student>, todayRecords: seq<AttendanceRecord>, env: SnapshotEnv)
      modifies this, repository
      ensures hasInitializedToday == (old(hasInitializedToday) || |students| > 0)
      ensures repository.students == old(repository.students)
      ensures var attempt := |students| > 0 && !old(hasInitializedToday)
                             && !IsTodayInitialized(old(repository.attendance), env.today, env.checkFault)
                             && env.initFault.NoFault?;
              repository.attendance == if attempt then old(repository.attendance)
                                                       + InitBatch(students, old(repository.attendance), env.today, env.now)
                                       else old(repository.attendance)
      ensures selectedStudentId == old(selectedStudentId) && pendingStatus == old(pendingStatus)
      ensures uiState == old(uiState).(students := Project(students, todayRecords, selectedStudentId, pendingStatus),
                                       isLoading := false)
    {
      if |students| > 0 && !hasInitializedToday {
        hasInitializedToday := true;
        InitializeDailyAttendance(students, env);
      }
      var items := Project(students, todayRecords, selectedStudentId, pendingStatus);
      uiState := uiState.(students := items, isLoading := false);
    }

    /** Initialises today only when no record is dated today yet. */
    method InitializeDailyAttendance(students: seq<Student>, env: SnapshotEnv)
      modifies repository
      ensures repository.students == old(repository.students)
      ensures var attempt := !IsTodayInitialized(old(repository.attendance), env.today, env.checkFault)
                             && env.initFault.NoFault?;
              repository.attendance == if attempt then old(repository.attendance)
                                                       + InitBatch(students, old(repository.attendance), env.today, env.now)
                                       else old(repository.attendance)
    {
      if !IsTodayInitialized(repository.attendance, env.today, env.checkFault) {
        var _ := repository.InitializeDailyAttendance(students, env.today, env.now, env.initFault);
      }
    }

    method OnAttendanceTap(student: Student, status: AttendanceStatus, env: ConfirmEnv)
      modifies this, repository, gateway
      ensures State() == Tap(old(State()), student, status, env)
      ensures repository.students == old(repository.students) && hasInitializedToday == old(hasInitializedToday)
    {
      var selectedId := selectedStudentId;
      var pendingMap := pendingStatus;
      var currentPending := if student.id in pendingMap then Some(pendingMap[student.id]) else None;
      if selectedId == Some(student.id) && currentPending == Some(status) {
        ConfirmAttendance(student, status, env);
      } else {
        selectedStudentId := Some(student.id);
        pendingStatus := pendingMap[student.id := status];
      }
    }

    method ConfirmAttendance(student: Student, status: AttendanceStatus, env: ConfirmEnv)
      modifies this, repository, gateway
      ensures State() == Confirm(old(State()), student, status, env)
      ensures repository.students == old(repository.students) && hasInitializedToday == old(hasInitializedToday)
    {
      if status == Absent {
        var shouldSendSms := ShouldSendSms(repository.attendance, student.id, env.today, env.precheckFault);
        if shouldSendSms {
          var smsResult := gateway.SendAbsenceSms(student.parentPhone, student.name, env.gateway);
          match smsResult {
            case SmsSuccess(name) =>
              uiState := uiState.(snackbarMessage := Some(SnackbarSuccess(SmsSentText(name))));
            case SmsError =>
              uiState := uiState.(smsError := Some(SmsErrorInfo(student.name, student.parentPhone,
                                                                SmsFailureText(student.parentPhone))));
              selectedStudentId := None;
              pendingStatus := pendingStatus - {student.id};
              return;
            case SmsPermissionDenied =>
              uiState := uiState.(snackbarMessage := Some(SnackbarError(PermissionDeniedText)));
              selectedStudentId := None;
              pendingStatus := pendingStatus - {student.id};
              return;
          }
        }
      }
      var result := repository.UpdateAttendance(student.id, student.name, status, env.today, env.now, env.updateFault);
      match result {
        case Success(shouldSendSms) =>
          selectedStudentId := None;
          pendingStatus := pendingStatus - {student.id};
          if status == Absent && shouldSendSms {
            var _ := repository.MarkSmsSent(student.id, env.today, env.markFault);
          }
        case Failure(message) =>
          uiState := uiState.(error := Some(message.GetOr(UpdateFailedText)));
      }
    }

    method ClearSmsError()
      modifies this
      ensures uiState == old(uiState).(smsError := None)
      ensures selectedStudentId == old(selectedStudentId) && pendingStatus == old(pendingStatus)
      ensures hasInitializedToday == old(hasInitializedToday)
    {
      uiState := uiState.(smsError := None);
    }

    method ClearSnackbarMessage()
      modifies this
      ensures uiState == old(uiState).(snackbarMessage := None)
      ensures selectedStudentId == old(selectedStudentId) && pendingStatus == old(pendingStatus)
      ensures hasInitializedToday == old(hasInitializedToday)
    {
      uiState := uiState.(snackbarMessage := None);
    }

    /** Tapping elsewhere: nothing is selected and no tap is pending. */
    method ClearSelection()
      modifies this
      ensures selectedStudentId == None && pendingStatus == map[]
      ensures uiState == old(uiState) && hasInitializedToday == old(hasInitializedToday)
    {
      selectedStudentId := None;
      pendingStatus := map[];
    }

    method ClearError()
      modifies this
      ensures uiState == old(uiState).(error := None)
      ensures selectedStudentId == old(selectedStudentId) && pendingStatus == old(pendingStatus)
      ensures hasInitializedToday == old(hasInitializedToday)
    {
      uiState := uiState.(error := None);
    }
  }
}
