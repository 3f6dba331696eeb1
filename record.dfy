/** One student's attendance on one date, and its document encoding. */
module RecordModel {
  import opened Wrappers
  import opened Documents
  import opened StatusModel

  /** `timestamp` is a Long of milliseconds; the model keeps it unbounded. */
  datatype AttendanceRecord = AttendanceRecord(
    id: string,
    studentId: string,
    studentName: string,
    date: string,
    status: AttendanceStatus,
    smsSent: bool,
    timestamp: int)

  /** The no-argument constructor used by the store's deserialiser. */
  function DefaultRecord(): (r: AttendanceRecord)
    ensures r.id == "" && r.studentId == "" && r.studentName == "" && r.date == ""
    ensures r.status == NotMarked && !r.smsSent && r.timestamp == 0
  {
    AttendanceRecord("", "", "", "", NotMarked, false, 0)
  }

  /** `AttendanceRecord.toMap()`: the status is stored by its enum name. */
  function ToMap(r: AttendanceRecord): Document {
    map["id" := Str(r.id), "studentId" := Str(r.studentId), "studentName" := Str(r.studentName),
        "date" := Str(r.date), "status" := Str(Name(r.status)), "smsSent" := Bool(r.smsSent),
        "timestamp" := Long(r.timestamp)]
  }

  /** The status decoding of `fromMap`: a missing or non-string status reads
      as "NOT_MARKED", and a name `valueOf` rejects falls back to NOT_MARKED. */
  function DecodeStatus(d: Document): (s: AttendanceStatus)
    ensures StringField(d, "status").None? ==> s == NotMarked
    ensures StringField(d, "status").Some? ==>
              s == ValueOf(StringField(d, "status").value).GetOr(NotMarked)
  {
    ValueOf(StringField(d, "status").GetOr("NOT_MARKED")).GetOr(NotMarked)
  }

  /** `AttendanceRecord.fromMap(map, id)` */
  function FromMap(d: Document, id: string): (r: AttendanceRecord)
    ensures r.id == id
    ensures r.studentId == StringField(d, "studentId").GetOr("")
    ensures r.studentName == StringField(d, "studentName").GetOr("")
    ensures r.date == StringField(d, "date").GetOr("")
    ensures r.status == DecodeStatus(d)
    ensures r.smsSent == BoolField(d, "smsSent").GetOr(false)
    ensures r.timestamp == LongField(d, "timestamp").GetOr(0)
  {
    AttendanceRecord(id,
                     StringField(d, "studentId").GetOr(""),
                     StringField(d, "studentName").GetOr(""),
                     StringField(d, "date").GetOr(""),
                     DecodeStatus(d),
                     BoolField(d, "smsSent").GetOr(false),
                     LongField(d, "timestamp").GetOr(0))
  }

  /** Decoding an encoded record with its own id gives the record back. */
  lemma RoundTrip(r: AttendanceRecord)
    ensures FromMap(ToMap(r), r.id) == r
  {
    ValueOfName(r.status);
  }

  /** `toMap` writes exactly the seven fields. */
  lemma ToMapKeys(r: AttendanceRecord)
    ensures ToMap(r).Keys == {"id", "studentId", "studentName", "date", "status", "smsSent", "timestamp"}
    ensures |ToMap(r)| == 7
  {
    var k := ToMap(r).Keys;
    assert k == {"id"} + {"studentId"} + {"studentName"} + {"date"} + {"status"} + {"smsSent"} + {"timestamp"};
  }

  /** A status string that is not one of the four names decodes to NOT_MARKED. */
  lemma UnknownStatusIsNotMarked(d: Document, id: string, name: string)
    requires forall s: AttendanceStatus :: Name(s) != name
    ensures FromMap(d["status" := Str(name)], id).status == NotMarked
  {
    ValueOfOnlyNames(name);
  }

  /** A document with no fields decodes to the no-argument record, apart from
      the id. */
  lemma EmptyDecodesToDefault(id: string)
    ensures FromMap(map[], id) == DefaultRecord().(id := id)
  {
  }

  /** The stored `id` field is never read back: only the argument counts. */
  lemma IdFromArgument(d: Document, id: string, v: Value)
    ensures FromMap(d["id" := v], id) == FromMap(d, id)
  {
  }
}
