/** A student on the roster and its document encoding. */
module StudentModel {
  import opened Wrappers
  import opened Documents

  /** `createdAt` is a Long of milliseconds; the model keeps it unbounded. */
  datatype Student = Student(id: string, name: string, parentPhone: string, isActive: bool, createdAt: int)

  /** The no-argument constructor used by the store's deserialiser. */
  function DefaultStudent(): (s: Student)
    ensures s.isActive && s.id == "" && s.name == "" && s.parentPhone == "" && s.createdAt == 0
  {
    Student("", "", "", true, 0)
  }

  /** `Student.toMap()` */
  function ToMap(s: Student): Document {
    map["id" := Str(s.id), "name" := Str(s.name), "parentPhone" := Str(s.parentPhone),
        "isActive" := Bool(s.isActive), "createdAt" := Long(s.createdAt)]
  }

  /** `Student.fromMap(map, id)`: each field of the wrong type or missing falls
      back to its default (`""`, active, 0); the id comes from the argument. */
  function FromMap(d: Document, id: string): (s: Student)
    ensures s.id == id
    ensures s.name == StringField(d, "name").GetOr("")
    ensures s.parentPhone == StringField(d, "parentPhone").GetOr("")
    ensures s.isActive == BoolField(d, "isActive").GetOr(true)
    ensures s.createdAt == LongField(d, "createdAt").GetOr(0)
  {
    Student(id,
            StringField(d, "name").GetOr(""),
            StringField(d, "parentPhone").GetOr(""),
            BoolField(d, "isActive").GetOr(true),
            LongField(d, "createdAt").GetOr(0))
  }

  /** Decoding an encoded student with its own id gives the student back. */
  lemma RoundTrip(s: Student)
    ensures FromMap(ToMap(s), s.id) == s
  {
  }

  /** `toMap` writes exactly the five fields. */
  lemma ToMapKeys(s: Student)
    ensures ToMap(s).Keys == {"id", "name", "parentPhone", "isActive", "createdAt"}
    ensures |ToMap(s)| == 5
  {
    var k := ToMap(s).Keys;
    assert k == {"id"} + {"name"} + {"parentPhone"} + {"isActive"} + {"createdAt"};
  }

  /** A document with no fields decodes to the no-argument student, apart from
      the id. */
  lemma EmptyDecodesToDefault(id: string)
    ensures FromMap(map[], id) == DefaultStudent().(id := id)
  {
  }

  /** The stored `id` field is never read back: only the argument counts. */
  lemma IdFromArgument(d: Document, id: string, v: Value)
    ensures FromMap(d["id" := v], id) == FromMap(d, id)
  {
  }
}
