# Attendance app core in Dafny

A model of the core of a small Android attendance app, written in Kotlin. The
app keeps a roster of students and one attendance record per student per day
in a document store with two collections, "students" and "attendance". Each
record has one of four statuses: NOT_MARKED, PRESENT, ABSENT and HOLIDAY.

Marking works in two taps: the first tap on a status only arms it, and a
second tap of the same status confirms it. Confirming ABSENT sends the parent
an SMS *before* the record is written. A failed or refused SMS aborts the
write. Before sending, the app reads today's record: once its `smsSent` flag
is set and that read succeeds, no further SMS is sent for that absence-day. A
failed read answers "send", and an SMS delivered just before a failed write
leaves no flag, so in those two cases a parent can be notified again. When a
session first sees a non-empty roster and no record at all carries today's
date, a NOT_MARKED record is created for every student who has none for
today; a single record for today, such as one marked in an earlier session,
means none are created.

The app also has screens to add, edit and soft-remove students, to show one
student's history with a summary, to list the dates that have records, and to
show one date's records with per-status counts.

The model is organised by source file:

- `status.dfy`, `student.dfy`, `record.dfy` and `documents.dfy`: the entities
  and their document encoding (`toMap` / `fromMap` with per-field defaults).
- `repository.dfy`: the store as a class, `AttendanceRepository`, whose fields
  are the two collections (`map<string, Document>`). Its methods are the
  repository's write operations. Its reads and its listener queries are
  functions over the collections or over one delivered snapshot.
- `attendance_engine.dfy`: the attendance view-model.
  - The tap/confirm protocol is a set of pure transition functions over an
    `EngineState`: `Tap`, `Confirm` and `Persist`. The
    `AttendanceViewModel` class methods are proved to follow them, and the
    protocol's guarantees are lemmas about them.
  - The SMS gateway is an injected `NotificationGateway` object. It logs every
    attempt and returns the outcome chosen by the environment.
- `add_student.dfy`, `student_management.dfy`, `student_detail.dfy`,
  `history.dfy` and `history_detail.dfy`: the other view-models, one class
  each. Each class has pure functions that specify what its methods do.
- `text.dfy`, `sorting.dfy`, `sequences.dfy` and `statistics.dfy` model the
  Kotlin standard-library behaviour the core relies on:
  - `trim`, `isBlank`, `isDigit` and `filter`;
  - the stable `sortedBy` / `sortedByDescending` with `String.compareTo`;
  - `distinctBy`, which keeps the first element per key;
  - `associateBy`, which keeps the last;
  - `distinct` and `count`.

Environment inputs are parameters. Today's date, the clock, a fresh UUID, the
outcome of each store call (`Fault`) and the SMS outcome (`GatewayOutcome`)
are all supplied by the caller. A listener's emission is a `Snapshot`, the
list of documents delivered. `IsSnapshotOf` ties a snapshot to the collection
it was taken from.

The view-model matches the SMS helper's answer against
`SmsResult.Success(studentName)`, `Error` and `PermissionDenied`
(AttendanceViewModel.kt:157-189). The `SmsHelper.sendAbsenceSms` that is shown
returns a `Boolean` (SmsHelper.kt:20), and the `SmsResult` type it would need
is not part of this model. The model follows the view-model: the gateway
answers with one of three results.

## Model

| member | source | states |
|---|---|---|
| StatusModel.ValueOfName | app/src/main/java/com/abdur/rahman/attendanceapp/data/model/AttendanceRecord.kt:21-35 | a status stored by its enum name is read back as the same status |
| StatusModel.ValueOfOnlyNames | app/src/main/java/com/abdur/rahman/attendanceapp/data/model/AttendanceRecord.kt:34-38 | `valueOf` succeeds exactly on the four enum names |
| StatusModel.ValueOf | app/src/main/java/com/abdur/rahman/attendanceapp/data/model/AttendanceRecord.kt:35 | a status found for a string has that string as its name |
| StudentModel.RoundTrip | app/src/main/java/com/abdur/rahman/attendanceapp/data/model/Student.kt:13-32 | decoding an encoded student under its own id gives it back |
| StudentModel.ToMapKeys | app/src/main/java/com/abdur/rahman/attendanceapp/data/model/Student.kt:13-21 | the encoding has exactly the five fields |
| StudentModel.EmptyDecodesToDefault | app/src/main/java/com/abdur/rahman/attendanceapp/data/model/Student.kt:24-32 | an empty document decodes to the no-argument student with the given id |
| StudentModel.IdFromArgument | app/src/main/java/com/abdur/rahman/attendanceapp/data/model/Student.kt:26 | the stored `id` field never affects decoding |
| RecordModel.RoundTrip | app/src/main/java/com/abdur/rahman/attendanceapp/data/model/AttendanceRecord.kt:15-42 | decoding an encoded record under its own id gives it back |
| RecordModel.ToMapKeys | app/src/main/java/com/abdur/rahman/attendanceapp/data/model/AttendanceRecord.kt:15-25 | the encoding has exactly the seven fields |
| RecordModel.UnknownStatusIsNotMarked | app/src/main/java/com/abdur/rahman/attendanceapp/data/model/AttendanceRecord.kt:34-38 | a status string that names no status decodes to NOT_MARKED |
| RecordModel.EmptyDecodesToDefault | app/src/main/java/com/abdur/rahman/attendanceapp/data/model/AttendanceRecord.kt:28-42 | an empty document decodes to the no-argument record with the given id |
| RecordModel.IdFromArgument | app/src/main/java/com/abdur/rahman/attendanceapp/data/model/AttendanceRecord.kt:30 | the stored `id` field never affects decoding |
| Repository.RecordKeyInjective | app/src/main/java/com/abdur/rahman/attendanceapp/data/repository/AttendanceRepository.kt:222 | with fixed-length dates, the key `studentId_date` determines student and date: at most one record per student per day |
| Repository.UpsertedRecord | app/src/main/java/com/abdur/rahman/attendanceapp/data/repository/AttendanceRepository.kt:234-243 | the written record has the key, student, name, date, status and time given, and `smsSent` is set iff it was set before or the status is ABSENT |
| Repository.UpsertKeepsSmsSent | app/src/main/java/com/abdur/rahman/attendanceapp/data/repository/AttendanceRepository.kt:231-241 | an upsert never clears `smsSent`; it is set iff it was set or a notification was due |
| Repository.StudentByIdFindsWritten | app/src/main/java/com/abdur/rahman/attendanceapp/data/repository/AttendanceRepository.kt:109-116 | a student written under its id is read back unchanged by `getStudentById`, and any student it returns carries the requested id |
| Repository.ShouldSendSms | app/src/main/java/com/abdur/rahman/attendanceapp/data/repository/AttendanceRepository.kt:273-285 | true on a failed read; otherwise true iff today's record is missing or not marked as notified |
| Repository.IsTodayInitialized | app/src/main/java/com/abdur/rahman/attendanceapp/data/repository/AttendanceRepository.kt:326-339 | true iff the query succeeds and some document carries today's date |
| Repository.Upsert | app/src/main/java/com/abdur/rahman/attendanceapp/data/repository/AttendanceRepository.kt:245 | the whole-document write adds or replaces only today's key of the student |
| Repository.MarkSent | app/src/main/java/com/abdur/rahman/attendanceapp/data/repository/AttendanceRepository.kt:255-268 | a field update keeps the key set and every other document |
| Repository.UpsertDecodes | app/src/main/java/com/abdur/rahman/attendanceapp/data/repository/AttendanceRepository.kt:215-250 | after the upsert, today's record reads back with the new status, name, date and time, and `smsSent` = old flag or due |
| Repository.MarkSentDecodes | app/src/main/java/com/abdur/rahman/attendanceapp/data/repository/AttendanceRepository.kt:260-262 | after marking, the record reads back as before with `smsSent` true |
| Repository.InitBatchRecords | app/src/main/java/com/abdur/rahman/attendanceapp/data/repository/AttendanceRepository.kt:296-313 | every record the batch creates is new, NOT_MARKED, not notified, dated today, for a roster student under that student's key |
| Repository.InitCoversRoster | app/src/main/java/com/abdur/rahman/attendanceapp/data/repository/AttendanceRepository.kt:291-321 | after a committed batch every roster student has today's record and existing records are untouched |
| Repository.InitIdempotent | app/src/main/java/com/abdur/rahman/attendanceapp/data/repository/AttendanceRepository.kt:300-302 | running initialisation again, at any later time, creates nothing |
| Repository.AttendanceRepository.AddStudent | app/src/main/java/com/abdur/rahman/attendanceapp/data/repository/AttendanceRepository.kt:54-70 | on success a new active student with the fresh id and time is stored and returned; on failure nothing changes |
| Repository.AttendanceRepository.RemoveStudent | app/src/main/java/com/abdur/rahman/attendanceapp/data/repository/AttendanceRepository.kt:76-85 | soft delete: only `isActive` becomes false; no attendance record changes; a missing document fails |
| Repository.AttendanceRepository.UpdateStudent | app/src/main/java/com/abdur/rahman/attendanceapp/data/repository/AttendanceRepository.kt:90-104 | only `name` and `parentPhone` change; a missing document fails; attendance is untouched |
| Repository.AttendanceRepository.UpdateAttendance | app/src/main/java/com/abdur/rahman/attendanceapp/data/repository/AttendanceRepository.kt:215-250 | returns whether a notification is due (ABSENT and not yet notified) and stores the upserted record; a failure writes nothing |
| Repository.AttendanceRepository.MarkSmsSent | app/src/main/java/com/abdur/rahman/attendanceapp/data/repository/AttendanceRepository.kt:255-268 | succeeds iff today's record exists, and sets only its `smsSent` |
| Repository.AttendanceRepository.InitializeDailyAttendance | app/src/main/java/com/abdur/rahman/attendanceapp/data/repository/AttendanceRepository.kt:291-321 | the loop's batch is exactly `InitBatch`, committed at once; a failure writes nothing |
| Repository.ActiveFilter | app/src/main/java/com/abdur/rahman/attendanceapp/data/repository/AttendanceRepository.kt:33-42 | holds exactly the decoded documents with `isActive == true` |
| Repository.ActiveStudentsCorrect | app/src/main/java/com/abdur/rahman/attendanceapp/data/repository/AttendanceRepository.kt:32-49 | the roster is sorted by name, a permutation of the active documents, and holds exactly the active students |
| Repository.RemovedNotActive | app/src/main/java/com/abdur/rahman/attendanceapp/data/repository/AttendanceRepository.kt:76-85 | after a soft delete the student is in no later delivery of the active roster |
| Repository.RecordsWhere | app/src/main/java/com/abdur/rahman/attendanceapp/data/repository/AttendanceRepository.kt:121-186 | a query result holds exactly the decoded documents whose field equals the value |
| Repository.RecordsWhereFieldValue | app/src/main/java/com/abdur/rahman/attendanceapp/data/repository/AttendanceRepository.kt:169-186 | every record of a date query has that date; every history record is the student's |
| Repository.DatesOf | app/src/main/java/com/abdur/rahman/attendanceapp/data/repository/AttendanceRepository.kt:200-201 | holds exactly the string dates of the delivered documents |
| Repository.AttendanceDatesCorrect | app/src/main/java/com/abdur/rahman/attendanceapp/data/repository/AttendanceRepository.kt:191-209 | every date of the collection appears exactly once, and in strictly descending order when delivered by descending date |
| AttendanceEngine.NotificationGateway.SendAbsenceSms | app/src/main/java/com/abdur/rahman/attendanceapp/util/SmsHelper.kt:31-40 | the attempt to the parent's number with the absence text is logged, and the answer follows the outcome |
| AttendanceEngine.ProjectJoin | app/src/main/java/com/abdur/rahman/attendanceapp/ui/viewmodel/AttendanceViewModel.kt:86-98 | each row shows the last of today's records for its student, or none and NOT_MARKED when there is none, plus selection and pending status |
| AttendanceEngine.ProjectRows | app/src/main/java/com/abdur/rahman/attendanceapp/ui/viewmodel/AttendanceViewModel.kt:88-89 | every roster student id appears exactly once, in roster order, and only the selected student is marked selected |
| AttendanceEngine.ArmingTapWritesNothing | app/src/main/java/com/abdur/rahman/attendanceapp/ui/viewmodel/AttendanceViewModel.kt:132-136 | a non-confirming tap writes nothing, sends nothing, selects the student and sets only their pending status |
| AttendanceEngine.TwoMatchingTapsConfirm | app/src/main/java/com/abdur/rahman/attendanceapp/ui/viewmodel/AttendanceViewModel.kt:125-136 | one tap never confirms; a second tap of the same status confirms; a different status only re-arms |
| AttendanceEngine.NonAbsentSkipsGateway | app/src/main/java/com/abdur/rahman/attendanceapp/ui/viewmodel/AttendanceViewModel.kt:145-146 | a status other than ABSENT goes straight to the write without an SMS |
| AttendanceEngine.AtMostOneAttempt | app/src/main/java/com/abdur/rahman/attendanceapp/ui/viewmodel/AttendanceViewModel.kt:146-155 | a confirmation sends at most one SMS, to the parent, and only for an ABSENT not yet notified |
| AttendanceEngine.FailedNotificationBlocksWrite | app/src/main/java/com/abdur/rahman/attendanceapp/ui/viewmodel/AttendanceViewModel.kt:166-188 | a failed or refused SMS leaves the store unchanged, clears selection and this student's pending status, and reports it |
| AttendanceEngine.AbsentWriteImpliesNotified | app/src/main/java/com/abdur/rahman/attendanceapp/ui/viewmodel/AttendanceViewModel.kt:145-198 | ABSENT reaches the store only when the parent was already notified or the SMS was delivered |
| AttendanceEngine.SuccessfulWrite | app/src/main/java/com/abdur/rahman/attendanceapp/ui/viewmodel/AttendanceViewModel.kt:194-208 | a successful write stores status and name, clears selection and pending status, keeps other records, and leaves ABSENT marked as notified |
| AttendanceEngine.FailedWriteKeepsPending | app/src/main/java/com/abdur/rahman/attendanceapp/ui/viewmodel/AttendanceViewModel.kt:209-213 | a failed write changes no record, keeps selection and pending status, and shows the error or its default text |
| AttendanceEngine.NoSecondNotification | app/src/main/java/com/abdur/rahman/attendanceapp/ui/viewmodel/AttendanceViewModel.kt:146-150 | once today's record is marked notified, confirming ABSENT again sends no SMS |
| AttendanceEngine.EndToEndAbsence | app/src/main/java/com/abdur/rahman/attendanceapp/ui/viewmodel/AttendanceViewModel.kt:108-214 | initialise, tap ABSENT, tap ABSENT again: exactly one SMS, and the record is ABSENT and notified |
| AttendanceEngine.AttendanceViewModel.OnSnapshot | app/src/main/java/com/abdur/rahman/attendanceapp/ui/viewmodel/AttendanceViewModel.kt:73-104 | the first non-empty roster triggers the guarded initialisation once; the rows become the projection and loading ends |
| AttendanceEngine.AttendanceViewModel.InitializeDailyAttendance | app/src/main/java/com/abdur/rahman/attendanceapp/ui/viewmodel/AttendanceViewModel.kt:108-112 | the batch is committed only when no record is dated today yet |
| AttendanceEngine.AttendanceViewModel.OnAttendanceTap | app/src/main/java/com/abdur/rahman/attendanceapp/ui/viewmodel/AttendanceViewModel.kt:119-137 | the new store, SMS log, selection, pending map and screen state are `Tap` of the old ones |
| AttendanceEngine.AttendanceViewModel.ConfirmAttendance | app/src/main/java/com/abdur/rahman/attendanceapp/ui/viewmodel/AttendanceViewModel.kt:140-214 | the new state is `Confirm` of the old one |
| AttendanceEngine.AttendanceViewModel.ClearSmsError | app/src/main/java/com/abdur/rahman/attendanceapp/ui/viewmodel/AttendanceViewModel.kt:219-221 | only the SMS error dialog closes |
| AttendanceEngine.AttendanceViewModel.ClearSnackbarMessage | app/src/main/java/com/abdur/rahman/attendanceapp/ui/viewmodel/AttendanceViewModel.kt:226-228 | only the snackbar message clears |
| AttendanceEngine.AttendanceViewModel.ClearSelection | app/src/main/java/com/abdur/rahman/attendanceapp/ui/viewmodel/AttendanceViewModel.kt:233-236 | nothing is selected and no tap is pending |
| AttendanceEngine.AttendanceViewModel.ClearError | app/src/main/java/com/abdur/rahman/attendanceapp/ui/viewmodel/AttendanceViewModel.kt:238-240 | only the error clears |
| AddStudentScreen.NameError | app/src/main/java/com/abdur/rahman/attendanceapp/ui/viewmodel/AddStudentViewModel.kt:48-51 | the name is rejected, with "Name is required", iff trimming leaves nothing |
| AddStudentScreen.PhoneError | app/src/main/java/com/abdur/rahman/attendanceapp/ui/viewmodel/AddStudentViewModel.kt:53-59 | no error iff at least ten digits; "required" iff blank; "invalid" iff not blank and too few digits |
| AddStudentScreen.SubmittedStudentWellFormed | app/src/main/java/com/abdur/rahman/attendanceapp/ui/viewmodel/AddStudentViewModel.kt:66-69 | an accepted form writes an active student with a trimmed non-blank name and a trimmed number of at least ten digits |
| AddStudentScreen.RejectedFormReportsErrors | app/src/main/java/com/abdur/rahman/attendanceapp/ui/viewmodel/AddStudentViewModel.kt:46-61 | a rejected form keeps the typed fields, the loading and success flags and the error; each failed check sets its message |
| AddStudentScreen.ShortPhoneRejected | app/src/main/java/com/abdur/rahman/attendanceapp/ui/viewmodel/AddStudentViewModel.kt:85-89 | a number shorter than ten characters is always rejected |
| AddStudentScreen.RejectionExamples | app/src/main/java/com/abdur/rahman/attendanceapp/ui/viewmodel/AddStudentViewModel.kt:48-59 | an empty name is rejected whatever the number; a three-digit number is invalid |
| AddStudentScreen.AddStudentViewModel.OnNameChange | app/src/main/java/com/abdur/rahman/attendanceapp/ui/viewmodel/AddStudentViewModel.kt:28-33 | the name is replaced and its error cleared |
| AddStudentScreen.AddStudentViewModel.OnPhoneChange | app/src/main/java/com/abdur/rahman/attendanceapp/ui/viewmodel/AddStudentViewModel.kt:35-40 | the number is replaced and its error cleared |
| AddStudentScreen.AddStudentViewModel.AddStudent | app/src/main/java/com/abdur/rahman/attendanceapp/ui/viewmodel/AddStudentViewModel.kt:42-83 | the form becomes `AfterSubmit`; a student is stored only when both checks pass and the write succeeds |
| AddStudentScreen.AddStudentViewModel.ClearError | app/src/main/java/com/abdur/rahman/attendanceapp/ui/viewmodel/AddStudentViewModel.kt:91-93 | only the error clears |
| AddStudentScreen.AddStudentViewModel.ResetState | app/src/main/java/com/abdur/rahman/attendanceapp/ui/viewmodel/AddStudentViewModel.kt:95-97 | the form returns to its initial state |
| StudentManagementScreen.EditNameAcceptance | app/src/main/java/com/abdur/rahman/attendanceapp/ui/viewmodel/StudentManagementViewModel.kt:108-122 | a trimmed name is accepted iff it has at least two characters |
| StudentManagementScreen.EditPhoneDigits | app/src/main/java/com/abdur/rahman/attendanceapp/ui/viewmodel/StudentManagementViewModel.kt:127 | an accepted number has 10 to 15 digits and at most 16 characters |
| StudentManagementScreen.EditRuleStricterThanAdd | app/src/main/java/com/abdur/rahman/attendanceapp/ui/viewmodel/StudentManagementViewModel.kt:124-130 | every number the edit dialog accepts, the add form accepts too |
| StudentManagementScreen.AddRuleAcceptsSeparators | app/src/main/java/com/abdur/rahman/attendanceapp/ui/viewmodel/StudentManagementViewModel.kt:127 | a ten-digit number with a dash passes the add form and fails the edit dialog |
| StudentManagementScreen.AcceptedEditStored | app/src/main/java/com/abdur/rahman/attendanceapp/ui/viewmodel/StudentManagementViewModel.kt:105-151 | an accepted edit of a stored student stores the trimmed name and number, keeps the other fields and students, and closes and empties the dialog |
| StudentManagementScreen.RejectedEditKeepsDialog | app/src/main/java/com/abdur/rahman/attendanceapp/ui/viewmodel/StudentManagementViewModel.kt:132-138 | a rejected edit keeps the dialog open with what was typed and writes nothing |
| StudentManagementScreen.StudentManagementViewModel.OnStudents | app/src/main/java/com/abdur/rahman/attendanceapp/ui/viewmodel/StudentManagementViewModel.kt:36-45 | the list becomes the active roster, all of whose students are active, and loading ends |
| StudentManagementScreen.StudentManagementViewModel.ShowDeleteConfirmation | app/src/main/java/com/abdur/rahman/attendanceapp/ui/viewmodel/StudentManagementViewModel.kt:47-49 | the confirmation shows that student |
| StudentManagementScreen.StudentManagementViewModel.HideDeleteConfirmation | app/src/main/java/com/abdur/rahman/attendanceapp/ui/viewmodel/StudentManagementViewModel.kt:51-53 | the confirmation closes |
| StudentManagementScreen.StudentManagementViewModel.RemoveStudent | app/src/main/java/com/abdur/rahman/attendanceapp/ui/viewmodel/StudentManagementViewModel.kt:55-67 | the confirmation closes, the student is soft-deleted, attendance is untouched, and a failure is reported |
| StudentManagementScreen.StudentManagementViewModel.ShowEditDialog | app/src/main/java/com/abdur/rahman/attendanceapp/ui/viewmodel/StudentManagementViewModel.kt:71-79 | the dialog opens on the student's current name and number with no errors |
| StudentManagementScreen.StudentManagementViewModel.HideEditDialog | app/src/main/java/com/abdur/rahman/attendanceapp/ui/viewmodel/StudentManagementViewModel.kt:81-89 | the dialog closes and its fields are emptied |
| StudentManagementScreen.StudentManagementViewModel.OnEditNameChange | app/src/main/java/com/abdur/rahman/attendanceapp/ui/viewmodel/StudentManagementViewModel.kt:91-96 | the name is replaced and its error cleared |
| StudentManagementScreen.StudentManagementViewModel.OnEditPhoneChange | app/src/main/java/com/abdur/rahman/attendanceapp/ui/viewmodel/StudentManagementViewModel.kt:98-103 | the number is replaced and its error cleared |
| StudentManagementScreen.StudentManagementViewModel.UpdateStudent | app/src/main/java/com/abdur/rahman/attendanceapp/ui/viewmodel/StudentManagementViewModel.kt:105-159 | the screen becomes `AfterUpdate` and the collection becomes `StoreAfterUpdate`; attendance is untouched |
| StudentManagementScreen.StudentManagementViewModel.SaveEdit | app/src/main/java/com/abdur/rahman/attendanceapp/ui/viewmodel/StudentManagementViewModel.kt:140-158 | on success the dialog closes and only name and number change; on failure the error is shown and the store is kept |
| StudentManagementScreen.StudentManagementViewModel.ClearError | app/src/main/java/com/abdur/rahman/attendanceapp/ui/viewmodel/StudentManagementViewModel.kt:161-163 | only the error clears |
| Statistics.StatusCountsPartition | app/src/main/java/com/abdur/rahman/attendanceapp/ui/viewmodel/StudentDetailViewModel.kt:46-50 | the four status counts add up to the number of records |
| Statistics.StatusCountAppend | app/src/main/java/com/abdur/rahman/attendanceapp/ui/viewmodel/StudentDetailViewModel.kt:46-49 | one more record raises only its own status's count |
| Statistics.StatusCountSorted | app/src/main/java/com/abdur/rahman/attendanceapp/ui/viewmodel/HistoryDetailViewModel.kt:39-46 | the counts do not depend on the order of the records |
| StudentDetailScreen.PercentageBounds | app/src/main/java/com/abdur/rahman/attendanceapp/ui/viewmodel/StudentDetailViewModel.kt:53-58 | the share lies in [0, 100]; it is 0 iff no day was present, and 100 iff some day was present and none absent |
| StudentDetailScreen.SummaryCorrect | app/src/main/java/com/abdur/rahman/attendanceapp/ui/viewmodel/StudentDetailViewModel.kt:45-70 | each day count is the number of records of its status and together they partition the history; the share is `Percentage` of the present and absent counts, 0 exactly when no day was present; the list is the history sorted by descending date, as a permutation |
| StudentDetailScreen.UncountedDaysKeepPercentage | app/src/main/java/com/abdur/rahman/attendanceapp/ui/viewmodel/StudentDetailViewModel.kt:52-58 | a holiday or unmarked day adds a day without changing the share |
| StudentDetailScreen.EightOfTenIsEighty | app/src/main/java/com/abdur/rahman/attendanceapp/ui/viewmodel/StudentDetailViewModel.kt:53-58 | eight present and two absent days give 80% |
| StudentDetailScreen.StudentDetailViewModel.LoadStudentDetails | app/src/main/java/com/abdur/rahman/attendanceapp/ui/viewmodel/StudentDetailViewModel.kt:36-79 | an emission gives the summary of the student's own records with the looked-up student; a listener failure keeps the state and shows the error |
| StudentDetailScreen.HistoryIsTheStudents | app/src/main/java/com/abdur/rahman/attendanceapp/ui/viewmodel/StudentDetailViewModel.kt:45-62 | every listed record belongs to the student |
| HistoryScreen.SelectToggles | app/src/main/java/com/abdur/rahman/attendanceapp/ui/viewmodel/HistoryViewModel.kt:44-58 | selecting a date selects it and starts loading; selecting it again deselects it and empties the records |
| HistoryScreen.SelectKeepsDates | app/src/main/java/com/abdur/rahman/attendanceapp/ui/viewmodel/HistoryViewModel.kt:44-58 | selecting keeps the dates and the error, and the date ends up selected iff it was not |
| HistoryScreen.DateRecordsCorrect | app/src/main/java/com/abdur/rahman/attendanceapp/ui/viewmodel/HistoryViewModel.kt:60-64 | the shown records are that date's records, sorted by student name, as a permutation |
| HistoryScreen.HistoryViewModel.OnDates | app/src/main/java/com/abdur/rahman/attendanceapp/ui/viewmodel/HistoryViewModel.kt:31-42 | the dates become the distinct stored dates and loading ends |
| HistoryScreen.HistoryViewModel.SelectDate | app/src/main/java/com/abdur/rahman/attendanceapp/ui/viewmodel/HistoryViewModel.kt:44-58 | the state becomes `Select` of the old one |
| HistoryScreen.HistoryViewModel.OnDateRecords | app/src/main/java/com/abdur/rahman/attendanceapp/ui/viewmodel/HistoryViewModel.kt:60-65 | the records become that date's records by name and loading ends |
| HistoryScreen.HistoryViewModel.ClearError | app/src/main/java/com/abdur/rahman/attendanceapp/ui/viewmodel/HistoryViewModel.kt:69-71 | only the error clears |
| HistoryDetailScreen.DetailCorrect | app/src/main/java/com/abdur/rahman/attendanceapp/ui/viewmodel/HistoryDetailViewModel.kt:38-48 | the counts partition the records and match the sorted list; the list is sorted by name, a permutation, and the date is kept |
| HistoryDetailScreen.HistoryDetailViewModel.LoadDateDetails | app/src/main/java/com/abdur/rahman/attendanceapp/ui/viewmodel/HistoryDetailViewModel.kt:31-36 | the date is shown and loading starts |
| HistoryDetailScreen.HistoryDetailViewModel.OnDateRecords | app/src/main/java/com/abdur/rahman/attendanceapp/ui/viewmodel/HistoryDetailViewModel.kt:38-49 | the screen becomes `Detail` of the records delivered for that date |
| HistoryDetailScreen.HistoryDetailViewModel.ClearError | app/src/main/java/com/abdur/rahman/attendanceapp/ui/viewmodel/HistoryDetailViewModel.kt:53-55 | only the error clears |
| Text.BlankIffTrimEmpty | app/src/main/java/com/abdur/rahman/attendanceapp/ui/viewmodel/StudentManagementViewModel.kt:108-124 | a string is blank iff trimming leaves nothing |
| Text.TrimIsSlice | app/src/main/java/com/abdur/rahman/attendanceapp/ui/viewmodel/AddStudentViewModel.kt:67-68 | `trim` returns a slice of its input with no whitespace at either end |
| Text.DigitsOnlyOfTrim | app/src/main/java/com/abdur/rahman/attendanceapp/ui/viewmodel/AddStudentViewModel.kt:67-68 | trimming keeps every digit, so a trimmed valid number is still valid |
| Text.LexLeTransitive | app/src/main/java/com/abdur/rahman/attendanceapp/ui/viewmodel/HistoryViewModel.kt:62 | `String.compareTo` is transitive, as sorting needs |
| Text.LexLeAntisymmetric | app/src/main/java/com/abdur/rahman/attendanceapp/ui/viewmodel/HistoryViewModel.kt:62 | strings that compare both ways are equal |
| Sorting.SortByCorrect | app/src/main/java/com/abdur/rahman/attendanceapp/ui/viewmodel/StudentDetailViewModel.kt:62 | `sortedBy` / `sortedByDescending` return a sorted permutation |
| Sorting.SortByStable | app/src/main/java/com/abdur/rahman/attendanceapp/ui/viewmodel/HistoryViewModel.kt:62 | `sortedBy` is stable: the elements with any one key keep their input order |
| Sorting.CountWhereSortBy | app/src/main/java/com/abdur/rahman/attendanceapp/ui/viewmodel/HistoryDetailViewModel.kt:39-46 | sorting keeps every count |
| Sequences.DistinctBy | app/src/main/java/com/abdur/rahman/attendanceapp/ui/viewmodel/AttendanceViewModel.kt:89 | `distinctBy` keeps a subsequence with pairwise distinct keys that covers every key |
| Sequences.DistinctByKeepsFirst | app/src/main/java/com/abdur/rahman/attendanceapp/ui/viewmodel/AttendanceViewModel.kt:89 | the kept element for each key is the first one |
| Sequences.DistinctCorrect | app/src/main/java/com/abdur/rahman/attendanceapp/data/repository/AttendanceRepository.kt:202 | `distinct` keeps each value once, in first-occurrence order |
| Sequences.AssociateBy | app/src/main/java/com/abdur/rahman/attendanceapp/ui/viewmodel/AttendanceViewModel.kt:86 | `associateBy` maps each key to the last element with that key |

## Left out

- User interface: Compose screens, navigation, theming and toasts are not modelled. Only the view-models' state is.
- Concurrency: every coroutine runs to completion as one step.
  - The `StateFlow` interleavings are not modelled.
  - The read-then-write race between `shouldSendSms` and `updateAttendance` is not modelled.
  - HistoryViewModel never cancels the collector of an earlier selection, so an emission for a deselected date would still fill the records. This is not modelled.
- Listener mechanics: `close(error)`, `awaitClose`, `distinctUntilChanged` and the order of deliveries are not modelled. Each emission is one call with its snapshot.
- A listener error on the roster, dates and date-records screens is not modelled. Only the student-detail screen shows one.
- Store delivery order: the model does not assume the order of any query result. Descending date order is a hypothesis of `Repository.AttendanceDatesCorrect`.
- `getString("date")` throws on a non-string field; the model skips such a document.
- The wording of the store's not-found failure is a placeholder.
- `AttendanceStatus.valueOf` throwing is modelled as `None`.
- The SMS transport and Android permissions (`SmsManager`, `ContextCompat`) are the `GatewayOutcome` parameter. The gateway's log records attempts, including refused ones, not messages actually sent. `SmsResult` is not part of this model and is taken as three-valued.
- Sender-number and theme preferences, `MainActivity`, and `DailyAttendance.kt`, which nothing in the core uses, are not modelled.
- The clock, UUID generation and `yyyy-MM-dd` formatting are parameters.
- Repository.InitBatch: the whole batch is stamped with one `now`, while the source reads `System.currentTimeMillis()` once per created record, so records of one batch may differ in `timestamp` by a few milliseconds.
- Widths and characters:
  - `Long` timestamps and `Int` counts are unbounded integers.
  - `Char.isDigit` is ASCII `0`-`9` only.
  - String length counts characters, not UTF-16 units.
- Text.LexLe: strings are ordered by Unicode code point, while Kotlin's `String.compareTo` compares UTF-16 code units, so names with characters above U+FFFF can sort differently from the app (by `studentName` and by `date`).
- StudentDetailScreen.Percentage: exact `real` arithmetic replaces 32-bit `Float` rounding, so "80%" here is exact.
- StudentManagementScreen.StudentManagementViewModel.OnStudents: requires that the snapshot lists the current students collection, standing for the listener's consistency.
