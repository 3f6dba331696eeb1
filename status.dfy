/** The four attendance states shared by every part of the app. */
module StatusModel {
  import opened Wrappers

  datatype AttendanceStatus = NotMarked | Present | Absent | Holiday

  /** The enum constant's `name`, the form in which a status is stored. */
  function Name(s: AttendanceStatus): string {
    match s
    case NotMarked => "NOT_MARKED"
    case Present => "PRESENT"
    case Absent => "ABSENT"
    case Holiday => "HOLIDAY"
  }

  /** `AttendanceStatus.valueOf(name)`: `None` where Kotlin throws. */
  function ValueOf(name: string): (r: Option<AttendanceStatus>)
    ensures r.Some? ==> Name(r.value) == name
  {
    if name == "NOT_MARKED" then Some(NotMarked)
    else if name == "PRESENT" then Some(Present)
    else if name == "ABSENT" then Some(Absent)
    else if name == "HOLIDAY" then Some(Holiday)
    else None
  }

  /** Every status is found again from its name, and distinct statuses have
      distinct names. */
  lemma ValueOfName(s: AttendanceStatus)
    ensures ValueOf(Name(s)) == Some(s)
  {
  }

  /** `valueOf` accepts exactly the four names. */
  lemma ValueOfOnlyNames(name: string)
    ensures ValueOf(name).Some? <==> exists s: AttendanceStatus :: Name(s) == name
  {
    if ValueOf(name).Some? {
      assert Name(ValueOf(name).value) == name;
    } else {
      forall s: AttendanceStatus ensures Name(s) != name {
        ValueOfName(s);
      }
    }
  }
}
