/** The attendance store: a "students" and an "attendance" collection of
    documents, the operations that write them, and the projections that the
    live listeners compute from each snapshot they deliver. */
module Repository {
  import opened Wrappers
  import opened Documents
  import opened StatusModel
  import opened StudentModel
  import opened RecordModel
  import opened Text
  import opened Sorting
  import opened Sequences

  /** Message of the failure the store reports when `update` targets a missing
      document (the store's exact wording is not modelled). */
  const NotFound: string := "NOT_FOUND: no document to update"

  // ==================== RECORD KEY ====================

  /** Document id of a student's record for a date. */
  function RecordKey(studentId: string, date: string): string {
    studentId + "_" + date
  }

  /** With dates of one fixed length (the `yyyy-MM-dd` format), a record key
      determines both the student and the date: at most one record exists per
      student and date. */
  lemma RecordKeyInjective(a: string, b: string, d1: string, d2: string)
    requires |d1| == |d2| && RecordKey(a, d1) == RecordKey(b, d2)
    ensures a == b && d1 == d2
  {
    var k := RecordKey(a, d1);
    assert |a| == |b|;
    assert a == k[..|a|] && b == k[..|b|];
    assert d1 == k[|a| + 1..] && d2 == k[|b| + 1..];
  }

  // ==================== ATTENDANCE UPSERT ====================

  /** The record stored under `key`, decoded, or `None` if there is none. */
  function StoredRecord(att: map<string, Document>, key: string): (r: Option<AttendanceRecord>)
    ensures r.Some? <==> key in att
    ensures r.Some? ==> r.value.id == key
  {
    if key in att then Some(RecordModel.FromMap(att[key], key)) else None
  }

  /** `existingRecord?.smsSent == true` */
  predicate AlreadyNotified(existing: Option<AttendanceRecord>) {
    existing.Some? && existing.value.smsSent
  }

  /** The flag `updateAttendance` returns: a notification is due. */
  predicate SmsDue(existing: Option<AttendanceRecord>, status: AttendanceStatus) {
    status == Absent && !AlreadyNotified(existing)
  }

  /** The whole document `updateAttendance` writes. */
  function UpsertedRecord(existing: Option<AttendanceRecord>, studentId: string, studentName: string,
                          status: AttendanceStatus, today: string, now: int): (r: AttendanceRecord)
    ensures r.id == RecordKey(studentId, today) && r.studentId == studentId
    ensures r.studentName == studentName && r.date == today && r.status == status && r.timestamp == now
    ensures r.smsSent <==> AlreadyNotified(existing) || status == Absent
  {
    AttendanceRecord(RecordKey(studentId, today), studentId, studentName, today, status,
                     AlreadyNotified(existing) || (status == Absent && SmsDue(existing, status)), now)
  }

  /** `smsSent` is monotonic: an upsert never clears it, whatever the new
      status, and it is set exactly when it was set or the flag was returned. */
  lemma UpsertKeepsSmsSent(existing: Option<AttendanceRecord>, studentId: string, studentName: string,
                           status: AttendanceStatus, today: string, now: int)
    ensures AlreadyNotified(existing) ==> UpsertedRecord(existing, studentId, studentName, status, today, now).smsSent
    ensures UpsertedRecord(existing, studentId, studentName, status, today, now).smsSent
            == (AlreadyNotified(existing) || SmsDue(existing, status))
  {
  }

  // ==================== READS ====================

  /** `getStudentById`: `None` when the document is missing or the read fails. */
  function StudentById(students: map<string, Document>, studentId: string, fault: Fault): (r: Option<Student>)
    ensures r.Some? <==> fault.NoFault? && studentId in students
    ensures r.Some? ==> r.value == StudentModel.FromMap(students[studentId], studentId)
  {
    if fault.NoFault? && studentId in students then Some(StudentModel.FromMap(students[studentId], studentId))
    else None
  }

  /** A student found by id is the one stored under that id, and a student
      just written under its own id is found again unchanged. */
  lemma StudentByIdFindsWritten(students: map<string, Document>, s: Student, studentId: string, fault: Fault)
    ensures StudentById(students[s.id := StudentModel.ToMap(s)], s.id, NoFault) == Some(s)
    ensures StudentById(students, studentId, fault).Some? ==> StudentById(students, studentId, fault).value.id == studentId
  {
    StudentModel.RoundTrip(s);
  }

  /** `shouldSendSms`: no notification has been recorded on today's record.
      A missing record, a missing or non-boolean field and a failed read all
      answer true. */
  function ShouldSendSms(att: map<string, Document>, studentId: string, today: string, fault: Fault): (r: bool)
    ensures fault.Fault? ==> r
    ensures fault.NoFault? ==> (r <==> !AlreadyNotified(StoredRecord(att, RecordKey(studentId, today))))
  {
    if fault.Fault? then true
    else
      var recordId := RecordKey(studentId, today);
      var smsSent := if recordId in att then BoolField(att[recordId], "smsSent").GetOr(false) else false;
      !smsSent
  }

  /** `isTodayInitialized`: some attendance document is dated today; false
      when the query fails. */
  function IsTodayInitialized(att: map<string, Document>, today: string, fault: Fault): (r: bool)
    ensures r <==> fault.NoFault? && exists k :: k in att && RecordModel.FromMap(att[k], k).date == today && StringField(att[k], "date").Some?
  {
    fault.NoFault? && exists k :: k in att && StringField(att[k], "date") == Some(today)
  }

  // ==================== WRITES, AS FUNCTIONS OF THE COLLECTION ====================

  /** The attendance collection after `updateAttendance` succeeds. */
  function Upsert(att: map<string, Document>, studentId: string, studentName: string,
                  status: AttendanceStatus, today: string, now: int): (r: map<string, Document>)
    ensures r.Keys == att.Keys + {RecordKey(studentId, today)}
    ensures forall k :: k in att && k != RecordKey(studentId, today) ==> r[k] == att[k]
  {
    var key := RecordKey(studentId, today);
    att[key := RecordModel.ToMap(UpsertedRecord(StoredRecord(att, key), studentId, studentName, status, today, now))]
  }

  /** The attendance collection after `markSmsSent`: only the `smsSent` field
      of an existing record changes; a missing record or a failure changes nothing. */
  function MarkSent(att: map<string, Document>, studentId: string, today: string, fault: Fault): (r: map<string, Document>)
    ensures r.Keys == att.Keys
    ensures forall k :: k in att && k != RecordKey(studentId, today) ==> r[k] == att[k]
  {
    var key := RecordKey(studentId, today);
    if fault.NoFault? && key in att then att[key := att[key]["smsSent" := Bool(true)]] else att
  }

  /** The record `updateAttendance` writes decodes to the given status and
      name, and its `smsSent` is the old one or-ed with the returned flag, so
      it never goes from true to false. */
  lemma UpsertDecodes(att: map<string, Document>, studentId: string, studentName: string,
                      status: AttendanceStatus, today: string, now: int)
    ensures var key := RecordKey(studentId, today);
            var r := StoredRecord(Upsert(att, studentId, studentName, status, today, now), key);
            && r.Some? && r.value.status == status && r.value.studentName == studentName
            && r.value.studentId == studentId && r.value.date == today && r.value.timestamp == now
            && (r.value.smsSent <==> AlreadyNotified(StoredRecord(att, key)) || SmsDue(StoredRecord(att, key), status))
  {
    var key := RecordKey(studentId, today);
    RecordModel.RoundTrip(UpsertedRecord(StoredRecord(att, key), studentId, studentName, status, today, now));
  }

  /** After `markSmsSent` on an existing record, that record decodes with
      `smsSent` true and is otherwise unchanged. */
  lemma MarkSentDecodes(att: map<string, Document>, studentId: string, today: string)
    requires RecordKey(studentId, today) in att
    ensures var key := RecordKey(studentId, today);
            StoredRecord(MarkSent(att, studentId, today, NoFault), key)
              == Some(StoredRecord(att, key).value.(smsSent := true))
  {
  }

  // ==================== DAILY INITIALISATION ====================

  /** The NOT_MARKED record a new day starts with. */
  function NewDayRecord(s: Student, today: string, now: int): AttendanceRecord {
    AttendanceRecord(RecordKey(s.id, today), s.id, s.name, today, NotMarked, false, now)
  }

  /** The document a batch entry holds. */
  function NewDayDocument(s: Student, today: string, now: int): Document {
    RecordModel.ToMap(NewDayRecord(s, today, now))
  }

  /** The batch `initializeDailyAttendance` commits: one fresh record for each
      roster student whose key is absent from `existing`; a later roster
      entry with the same key overwrites an earlier one in the batch. One
      `now` stamps the whole batch, where the app reads its clock once per
      record. */
  function InitBatch(roster: seq<Student>, existing: map<string, Document>, today: string, now: int)
    : map<string, Document>
  {
    if roster == [] then map[]
    else
      var last := roster[|roster| - 1];
      var key := RecordKey(last.id, today);
      var rest := InitBatch(roster[..|roster| - 1], existing, today, now);
      if key in existing then rest
      else rest[key := NewDayDocument(last, today, now)]
  }

  /** The batch adds only keys that did not exist. */
  lemma {:induction false} InitBatchFresh(roster: seq<Student>, existing: map<string, Document>, today: string, now: int)
    ensures forall k :: k in InitBatch(roster, existing, today, now) ==> k !in existing
  {
    if roster != [] {
      InitBatchFresh(roster[..|roster| - 1], existing, today, now);
    }
  }

  /** Each batch entry is the new-day record of a roster student. */
  lemma {:induction false} InitBatchEntries(roster: seq<Student>, existing: map<string, Document>, today: string, now: int)
    ensures forall k :: k in InitBatch(roster, existing, today, now) ==>
              exists i :: 0 <= i < |roster| && k == RecordKey(roster[i].id, today)
                          && InitBatch(roster, existing, today, now)[k] == NewDayDocument(roster[i], today, now)
  {
    if roster != [] {
      var init := roster[..|roster| - 1];
      var n := |roster| - 1;
      var key := RecordKey(roster[n].id, today);
      InitBatchEntries(init, existing, today, now);
      var rest := InitBatch(init, existing, today, now);
      var batch := InitBatch(roster, existing, today, now);
      assert batch == if key in existing then rest else rest[key := NewDayDocument(roster[n], today, now)];
      forall k | k in batch
        ensures exists i :: 0 <= i < |roster| && k == RecordKey(roster[i].id, today)
                            && batch[k] == NewDayDocument(roster[i], today, now)
      {
        if k == key && key !in existing {
          assert batch[k] == NewDayDocument(roster[n], today, now);
        } else {
          assert k in rest && batch[k] == rest[k];
          assert exists i :: 0 <= i < |init| && k == RecordKey(init[i].id, today)
                             && rest[k] == NewDayDocument(init[i], today, now);
          var i :| 0 <= i < |init| && k == RecordKey(init[i].id, today)
                   && rest[k] == NewDayDocument(init[i], today, now);
          assert init[i] == roster[i];
        }
      }
    }
  }

  /** After the batch, every roster student has a key, old or new. */
  lemma {:induction false} InitBatchCovers(roster: seq<Student>, existing: map<string, Document>, today: string, now: int)
    ensures forall i :: 0 <= i < |roster| ==>
              RecordKey(roster[i].id, today) in existing || RecordKey(roster[i].id, today) in InitBatch(roster, existing, today, now)
  {
    if roster != [] {
      var init := roster[..|roster| - 1];
      InitBatchCovers(init, existing, today, now);
      assert forall i :: 0 <= i < |init| ==> init[i] == roster[i];
    }
  }

  /** Every record initialisation creates is NOT_MARKED with `smsSent` false,
      for a student of the roster, dated today. */
  lemma InitBatchRecords(roster: seq<Student>, existing: map<string, Document>, today: string, now: int, k: string)
    requires k in InitBatch(roster, existing, today, now)
    ensures k !in existing
    ensures var r := RecordModel.FromMap(InitBatch(roster, existing, today, now)[k], k);
            r.status == NotMarked && !r.smsSent && r.date == today && r.timestamp == now
            && exists i :: 0 <= i < |roster| && r.studentId == roster[i].id && r.studentName == roster[i].name
                           && k == RecordKey(roster[i].id, today)
  {
    InitBatchFresh(roster, existing, today, now);
    InitBatchEntries(roster, existing, today, now);
    var i :| 0 <= i < |roster| && k == RecordKey(roster[i].id, today)
             && InitBatch(roster, existing, today, now)[k] == NewDayDocument(roster[i], today, now);
    RecordModel.RoundTrip(NewDayRecord(roster[i], today, now));
  }

  /** After a committed initialisation every roster student has a record for
      today, and the records that existed before are untouched. */
  lemma InitCoversRoster(roster: seq<Student>, existing: map<string, Document>, today: string, now: int)
    ensures var after := existing + InitBatch(roster, existing, today, now);
            (forall s :: s in roster ==> RecordKey(s.id, today) in after)
            && (forall k :: k in existing ==> k in after && after[k] == existing[k])
  {
    InitBatchCovers(roster, existing, today, now);
    var after := existing + InitBatch(roster, existing, today, now);
    forall s | s in roster ensures RecordKey(s.id, today) in after {
      var i :| 0 <= i < |roster| && roster[i] == s;
    }
  }

  /** Initialisation is idempotent: once it has been committed, running it
      again (at any later time) creates nothing. */
  lemma InitIdempotent(roster: seq<Student>, existing: map<string, Document>, today: string, now: int, later: int)
    ensures var after := existing + InitBatch(roster, existing, today, now);
            InitBatch(roster, after, today, later) == map[]
  {
    var after := existing + InitBatch(roster, existing, today, now);
    InitBatchCovers(roster, existing, today, now);
    InitBatchFresh(roster, after, today, later);
    InitBatchEntries(roster, after, today, later);
  }

  // ==================== THE STORE ====================

  class AttendanceRepository {
    /** The "students" collection, by document id. */
    var students: map<string, Document>
    /** The "attendance" collection, by document id. */
    var attendance: map<string, Document>

    constructor (students: map<string, Document>, attendance: map<string, Document>)
      ensures this.students == students && this.attendance == attendance
    {
      this.students := students;
      this.attendance := attendance;
    }

    /** Writes a new active student under the fresh id `newId`, created at `now`. */
    method AddStudent(name: string, parentPhone: string, newId: string, now: int, fault: Fault)
      returns (r: Result<Student>)
      modifies this
      ensures attendance == old(attendance)
      ensures fault.NoFault? ==>
                r == Success(Student(newId, name, parentPhone, true, now))
                && students == old(students)[newId := StudentModel.ToMap(r.value)]
      ensures fault.Fault? ==> r == Failure(fault.message) && students == old(students)
    {
      if fault.Fault? {
        return Failure(fault.message);
      }
      var student := Student(newId, name, parentPhone, true, now);
      students := students[newId := StudentModel.ToMap(student)];
      r := Success(student);
    }

    /** Soft delete: only the `isActive` field of the student's document
        becomes false; no attendance record is touched. */
    method RemoveStudent(studentId: string, fault: Fault) returns (r: Result<()>)
      modifies this
      ensures attendance == old(attendance)
      ensures r.Success? <==> fault.NoFault? && studentId in old(students)
      ensures r.Success? ==> students == old(students)[studentId := old(students)[studentId]["isActive" := Bool(false)]]
      ensures r.Failure? ==> students == old(students)
      ensures fault.Fault? ==> r == Failure(fault.message)
      ensures fault.NoFault? && studentId !in old(students) ==> r == Failure(Some(NotFound))
    {
      if fault.Fault? {
        return Failure(fault.message);
      }
      if studentId !in students {
        return Failure(Some(NotFound));
      }
      students := students[studentId := students[studentId]["isActive" := Bool(false)]];
      r := Success(());
    }

    /** Changes only the `name` and `parentPhone` fields of the student's document. */
    method UpdateStudent(studentId: string, name: string, parentPhone: string, fault: Fault)
      returns (r: Result<()>)
      modifies this
      ensures attendance == old(attendance)
      ensures r.Success? <==> fault.NoFault? && studentId in old(students)
      ensures r.Success? ==> students == old(students)[studentId :=
                                 old(students)[studentId]["name" := Str(name)]["parentPhone" := Str(parentPhone)]]
      ensures r.Failure? ==> students == old(students)
      ensures fault.Fault? ==> r == Failure(fault.message)
      ensures fault.NoFault? && studentId !in old(students) ==> r == Failure(Some(NotFound))
    {
      if fault.Fault? {
        return Failure(fault.message);
      }
      if studentId !in students {
        return Failure(Some(NotFound));
      }
      students := students[studentId := students[studentId]["name" := Str(name)]["parentPhone" := Str(parentPhone)]];
      r := Success(());
    }

    /** `updateAttendance`: replaces today's record of the student with one
        holding the given status and name, and returns whether a notification
        is due. */
    method UpdateAttendance(studentId: string, studentName: string, status: AttendanceStatus,
                            today: string, now: int, fault: Fault) returns (r: Result<bool>)
      modifies this
      ensures students == old(students)
      ensures fault.Fault? ==> r == Failure(fault.message) && attendance == old(attendance)
      ensures fault.NoFault? ==>
                var key := RecordKey(studentId, today);
                var existing := StoredRecord(old(attendance), key);
                r == Success(SmsDue(existing, status))
                && attendance == Upsert(old(attendance), studentId, studentName, status, today, now)
    {
      if fault.Fault? {
        return Failure(fault.message);
      }
      var recordId := RecordKey(studentId, today);
      var existingRecord := if recordId in attendance
                            then Some(RecordModel.FromMap(attendance[recordId], recordId)) else None;
      var shouldSendSms := status == Absent && !(existingRecord.Some? && existingRecord.value.smsSent);
      var record := AttendanceRecord(recordId, studentId, studentName, today, status,
                                     (existingRecord.Some? && existingRecord.value.smsSent)
                                     || (status == Absent && shouldSendSms), now);
      attendance := attendance[recordId := RecordModel.ToMap(record)];
      r := Success(shouldSendSms);
    }

    /** `markSmsSent`: sets only the `smsSent` field of today's record; fails
        when there is no such record. */
    method MarkSmsSent(studentId: string, today: string, fault: Fault) returns (r: Result<()>)
      modifies this
      ensures students == old(students)
      ensures r.Success? <==> fault.NoFault? && RecordKey(studentId, today) in old(attendance)
      ensures attendance == MarkSent(old(attendance), studentId, today, fault)
      ensures fault.Fault? ==> r == Failure(fault.message)
    {
      if fault.Fault? {
        return Failure(fault.message);
      }
      var recordId := RecordKey(studentId, today);
      if recordId !in attendance {
        return Failure(Some(NotFound));
      }
      attendance := attendance[recordId := attendance[recordId]["smsSent" := Bool(true)]];
      r := Success(());
    }

    /** `initializeDailyAttendance`: reads, for each roster student, whether
        today's record exists, collects the missing ones in a batch and
        commits the batch at once. A failure writes nothing. */
    method InitializeDailyAttendance(roster: seq<Student>, today: string, now: int, fault: Fault)
      returns (r: Result<()>)
      modifies this
      ensures students == old(students)
      ensures fault.Fault? ==> r == Failure(fault.message) && attendance == old(attendance)
      ensures fault.NoFault? ==> r == Success(()) && attendance == old(attendance) + InitBatch(roster, old(attendance), today, now)
    {
      if fault.Fault? {
        return Failure(fault.message);
      }
      var batch: map<string, Document> := map[];
      var i := 0;
      while i < |roster|
        invariant 0 <= i <= |roster|
        invariant batch == InitBatch(roster[..i], attendance, today, now)
      {
        var student := roster[i];
        var recordId := RecordKey(student.id, today);
        if recordId !in attendance {
          batch := batch[recordId := NewDayDocument(student, today, now)];
        }
        assert roster[..i + 1][..i] == roster[..i];
        i := i + 1;
      }
      assert roster[..i] == roster;
      attendance := attendance + batch;
      r := Success(());
    }
  }

  // ==================== LISTENER PROJECTIONS ====================

  /** One delivery of a listener: the documents of a collection with their ids. */
  type Snapshot = seq<(string, Document)>

  /** `snap` lists every document of `m` once. */
  predicate IsSnapshotOf(snap: Snapshot, m: map<string, Document>) {
    && (forall i, j :: 0 <= i < j < |snap| ==> snap[i].0 != snap[j].0)
    && (forall i :: 0 <= i < |snap| ==> snap[i].0 in m && m[snap[i].0] == snap[i].1)
    && (forall k :: k in m ==> exists i :: 0 <= i < |snap| && snap[i].0 == k)
  }

  /** The query `whereEqualTo("isActive", true)`. */
  predicate ActiveQueryMatches(d: Document) {
    "isActive" in d && d["isActive"] == Bool(true)
  }

  /** The sort key of the roster. */
  function StudentName(s: Student): string { s.name }

  /** The matching documents of a snapshot, decoded, in delivery order. */
  function ActiveFilter(snap: Snapshot): (r: seq<Student>)
    ensures forall s :: s in r <==> exists i :: 0 <= i < |snap| && ActiveQueryMatches(snap[i].1)
                                                && s == StudentModel.FromMap(snap[i].1, snap[i].0)
  {
    if snap == [] then []
    else
      var rest := ActiveFilter(snap[1..]);
      assert forall i :: 1 <= i < |snap| ==> snap[i] == snap[1..][i - 1];
      (if ActiveQueryMatches(snap[0].1) then [StudentModel.FromMap(snap[0].1, snap[0].0)] else []) + rest
  }

  /** `getActiveStudents`: the active students, sorted by name. */
  function ActiveStudents(snap: Snapshot): seq<Student> {
    SortBy(ActiveFilter(snap), StudentName, false)
  }

  /** The active roster holds exactly the students whose document says they
      are active, each decoded once per document, sorted by name. */
  lemma ActiveStudentsCorrect(snap: Snapshot, m: map<string, Document>)
    requires IsSnapshotOf(snap, m)
    ensures SortedBy(ActiveStudents(snap), StudentName, false)
    ensures multiset(ActiveStudents(snap)) == multiset(ActiveFilter(snap))
    ensures forall s :: s in ActiveStudents(snap) <==>
              exists id :: id in m && ActiveQueryMatches(m[id]) && s == StudentModel.FromMap(m[id], id)
    ensures forall s :: s in ActiveStudents(snap) ==> s.isActive
  {
    SortByCorrect(ActiveFilter(snap), StudentName, false);
    var r := ActiveStudents(snap);
    assert forall s :: s in r <==> s in ActiveFilter(snap) by {
      forall s ensures s in r <==> s in ActiveFilter(snap) {
        assert s in r <==> s in multiset(r);
      }
    }
    forall s | (exists id :: id in m && ActiveQueryMatches(m[id]) && s == StudentModel.FromMap(m[id], id))
      ensures s in r
    {
      var id :| id in m && ActiveQueryMatches(m[id]) && s == StudentModel.FromMap(m[id], id);
      var i :| 0 <= i < |snap| && snap[i].0 == id;
    }
  }

  /** A removed student is absent from every later delivery of the active roster. */
  lemma RemovedNotActive(m: map<string, Document>, studentId: string, snap: Snapshot)
    requires studentId in m
    requires IsSnapshotOf(snap, m[studentId := m[studentId]["isActive" := Bool(false)]])
    ensures forall s :: s in ActiveStudents(snap) ==> s.id != studentId
  {
    var m' := m[studentId := m[studentId]["isActive" := Bool(false)]];
    ActiveStudentsCorrect(snap, m');
  }

  /** The query `whereEqualTo(field, value)` on attendance documents, decoded,
      in delivery order: today's records (`"date"`), the records of one date,
      and one student's history (`"studentId"`). */
  function RecordsWhere(snap: Snapshot, field: string, value: string): (r: seq<AttendanceRecord>)
    ensures forall x :: x in r <==> exists i :: 0 <= i < |snap| && StringField(snap[i].1, field) == Some(value)
                                                && x == RecordModel.FromMap(snap[i].1, snap[i].0)
  {
    if snap == [] then []
    else
      var rest := RecordsWhere(snap[1..], field, value);
      assert forall i :: 1 <= i < |snap| ==> snap[i] == snap[1..][i - 1];
      (if StringField(snap[0].1, field) == Some(value) then [RecordModel.FromMap(snap[0].1, snap[0].0)] else []) + rest
  }

  /** Every record of a date query carries that date, and every record of a
      history query belongs to that student. */
  lemma RecordsWhereFieldValue(snap: Snapshot, value: string)
    ensures forall x :: x in RecordsWhere(snap, "date", value) ==> x.date == value
    ensures forall x :: x in RecordsWhere(snap, "studentId", value) ==> x.studentId == value
  {
  }

  /** `it.getString("date")` over a snapshot, skipping documents without one. */
  function DatesOf(snap: Snapshot): (r: seq<string>)
    ensures forall x :: x in r <==> exists i :: 0 <= i < |snap| && StringField(snap[i].1, "date") == Some(x)
  {
    if snap == [] then []
    else
      var rest := DatesOf(snap[1..]);
      assert forall i :: 1 <= i < |snap| ==> snap[i] == snap[1..][i - 1];
      (if StringField(snap[0].1, "date").Some? then [StringField(snap[0].1, "date").value] else []) + rest
  }

  /** `getAttendanceDates`: the distinct dates of all records. */
  function AttendanceDates(snap: Snapshot): seq<string> {
    Distinct(DatesOf(snap))
  }

  function Itself(s: string): string { s }

  /** The dates list holds each date of the collection exactly once, and when
      the store delivers the documents by descending date (`orderBy("date",
      DESCENDING)`), the list is strictly descending. */
  lemma AttendanceDatesCorrect(snap: Snapshot, m: map<string, Document>)
    requires IsSnapshotOf(snap, m)
    ensures forall d :: d in AttendanceDates(snap) <==> exists k :: k in m && StringField(m[k], "date") == Some(d)
    ensures forall i, j :: 0 <= i < j < |AttendanceDates(snap)| ==> AttendanceDates(snap)[i] != AttendanceDates(snap)[j]
    ensures SortedBy(DatesOf(snap), Itself, true) ==>
              forall i, j :: 0 <= i < j < |AttendanceDates(snap)| ==>
                LexLe(AttendanceDates(snap)[j], AttendanceDates(snap)[i]) && AttendanceDates(snap)[i] != AttendanceDates(snap)[j]
  {
    var ds := DatesOf(snap);
    var r := AttendanceDates(snap);
    DistinctCorrect(ds);
    forall d | (exists k :: k in m && StringField(m[k], "date") == Some(d)) ensures d in r {
      var k :| k in m && StringField(m[k], "date") == Some(d);
      var i :| 0 <= i < |snap| && snap[i].0 == k;
    }
    if SortedBy(ds, Itself, true) {
      SubsequenceSorted(r, ds, Itself, true);
    }
  }
}
