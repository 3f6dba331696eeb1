/** The manage-students screen: the active roster, removal behind a
    confirmation, and the edit dialog with its stricter validation. */
module StudentManagementScreen {
  import opened Wrappers
  import opened Documents
  import opened Text
  import opened StudentModel
  import opened Repository
  import AddStudentScreen

  datatype StudentManagementUiState = StudentManagementUiState(
    students: seq<Student>,
    isLoading: bool,
    showDeleteConfirmation: Option<Student>,
    editingStudent: Option<Student>,
    editName: string,
    editPhone: string,
    editNameError: Option<string>,
    editPhoneError: Option<string>,
    isEditLoading: bool,
    error: Option<string>)

  const InitialState: StudentManagementUiState :=
    StudentManagementUiState([], true, None, None, "", "", None, None, false, None)

  const NameRequired: string := "Name is required"
  const NameTooShort: string := "Name must be at least 2 characters"
  const PhoneRequired: string := "Phone number is required"
  const InvalidPhoneFormat: string := "Invalid phone number format"
  const UpdateFailedText: string := "Failed to update student"
  const RemoveFailedText: string := "Failed to remove student"

  /** The full-string match of `^[+]?[0-9]{10,15}$`: an optional leading
      plus sign, then ten to fifteen ASCII digits and nothing else. */
  predicate MatchesEditPhone(p: string) {
    var start := if |p| > 0 && p[0] == '+' then 1 else 0;
    10 <= |p| - start <= 15 && forall i :: start <= i < |p| ==> IsDigit(p[i])
  }

  /** The edit dialog's name check, applied to the trimmed name. */
  function EditNameError(name: string): (r: Option<string>)
    ensures r.None? <==> !IsBlank(name) && |name| >= 2
    ensures r == Some(NameRequired) <==> IsBlank(name)
  {
    if IsBlank(name) then Some(NameRequired)
    else if |name| < 2 then Some(NameTooShort)
    else None
  }

  /** The edit dialog's phone check, applied to the trimmed number. */
  function EditPhoneError(phone: string): (r: Option<string>)
    ensures r.None? <==> !IsBlank(phone) && MatchesEditPhone(phone)
    ensures r == Some(PhoneRequired) <==> IsBlank(phone)
  {
    if IsBlank(phone) then Some(PhoneRequired)
    else if !MatchesEditPhone(phone) then Some(InvalidPhoneFormat)
    else None
  }

  /** On a trimmed name the two checks collapse into one: at least two
      characters. */
  lemma EditNameAcceptance(name: string)
    ensures EditNameError(Trim(name)).None? <==> |Trim(name)| >= 2
  {
    TrimIsSlice(name);
  }

  /** A number the edit rule accepts has all of its characters but the sign
      as digits: ten to fifteen of them. */
  lemma {:induction false} EditPhoneDigits(p: string)
    requires MatchesEditPhone(p)
    ensures 10 <= |DigitsOnly(p)| <= 15 && |p| <= 16
    ensures !IsBlank(p)
  {
    var digits := if |p| > 0 && p[0] == '+' then p[1..] else p;
    assert forall i :: 0 <= i < |digits| ==> IsDigit(digits[i]) by {
      forall i | 0 <= i < |digits| ensures IsDigit(digits[i]) {
        if |p| > 0 && p[0] == '+' { assert digits[i] == p[i + 1]; }
      }
    }
    AllDigitsKept(digits);
    if |p| > 0 && p[0] == '+' {
      assert p == [p[0]] + digits;
      DigitsOnlyAppend([p[0]], digits);
      assert DigitsOnly([p[0]]) == [];
    }
    assert !IsWhitespace(p[|p| - 1]);
  }

  /** A string of digits keeps every character under the digit filter. */
  lemma {:induction false} AllDigitsKept(s: string)
    requires forall i :: 0 <= i < |s| ==> IsDigit(s[i])
    ensures DigitsOnly(s) == s
  {
    if s != [] {
      AllDigitsKept(s[1..]);
    }
  }

  /** Every number the edit dialog accepts is also accepted by the add form. */
  lemma EditRuleStricterThanAdd(p: string)
    requires EditPhoneError(p).None?
    ensures AddStudentScreen.PhoneError(p).None?
  {
    EditPhoneDigits(p);
  }

  /** The converse fails: a dash inside a ten-digit number passes the add
      form but not the edit dialog. */
  lemma AddRuleAcceptsSeparators(d: string)
    requires |d| == 10 && forall i :: 0 <= i < |d| ==> IsDigit(d[i])
    ensures AddStudentScreen.PhoneError(d[..9] + "-" + d[9..]).None?
    ensures EditPhoneError(d[..9] + "-" + d[9..]).Some?
  {
    var q := d[..9] + "-" + d[9..];
    AllDigitsKept(d[..9]);
    AllDigitsKept(d[9..]);
    DigitsOnlyAppend(d[..9], "-");
    DigitsOnlyAppend(d[..9] + "-", d[9..]);
    assert DigitsOnly("-") == [];
    assert q[0] == d[0] && !IsWhitespace(q[0]);
    assert q[9] == '-';
  }

  /** The dialog after `updateStudent`, given the store and the outcome of the
      write. With no student being edited nothing happens; a rejected edit
      sets both message fields (clearing a check that passed). */
  function AfterUpdate(s: StudentManagementUiState, students: map<string, Document>, fault: Fault)
    : StudentManagementUiState
  {
    if s.editingStudent.None? then s
    else
      var name := Trim(s.editName);
      var phone := Trim(s.editPhone);
      if EditNameError(name).Some? || EditPhoneError(phone).Some? then
        s.(editNameError := EditNameError(name), editPhoneError := EditPhoneError(phone))
      else if fault.NoFault? && s.editingStudent.value.id in students then
        s.(isEditLoading := false, editingStudent := None, editName := "", editPhone := "")
      else
        var message := if fault.Fault? then fault.message else Some(NotFound);
        s.(isEditLoading := false, error := Some(message.GetOr(UpdateFailedText)))
  }

  /** The edit dialog accepts the trimmed fields. */
  predicate EditAccepted(s: StudentManagementUiState) {
    EditNameError(Trim(s.editName)).None? && EditPhoneError(Trim(s.editPhone)).None?
  }

  /** The students collection after `updateStudent`: an accepted edit of a
      stored student overwrites its name and number, nothing else. */
  function StoreAfterUpdate(s: StudentManagementUiState, students: map<string, Document>, fault: Fault)
    : map<string, Document>
  {
    if s.editingStudent.Some? && EditAccepted(s) then
      StoreAfterEdit(students, s.editingStudent.value.id, Trim(s.editName), Trim(s.editPhone), fault)
    else students
  }

  /** The students collection after the edit's write: the student's name and
      number are overwritten when the write goes through. */
  function StoreAfterEdit(students: map<string, Document>, studentId: string, name: string, phone: string, fault: Fault)
    : map<string, Document>
  {
    if fault.NoFault? && studentId in students then
      students[studentId := students[studentId]["name" := Str(name)]["parentPhone" := Str(phone)]]
    else students
  }

  /** An accepted edit of a stored student, written without a fault, stores
      the trimmed name and number under that student's id, keeps every other
      field and every other student, and closes the dialog. */
  lemma AcceptedEditStored(s: StudentManagementUiState, students: map<string, Document>)
    requires s.editingStudent.Some? && s.editingStudent.value.id in students && EditAccepted(s)
    ensures var id := s.editingStudent.value.id;
            var after := StoreAfterUpdate(s, students, NoFault);
            var t := AfterUpdate(s, students, NoFault);
            && after.Keys == students.Keys
            && FromMap(after[id], id) == FromMap(students[id], id).(name := Trim(s.editName), parentPhone := Trim(s.editPhone))
            && (forall k :: k in students && k != id ==> after[k] == students[k])
            && t.editingStudent.None? && t.editName == "" && t.editPhone == "" && !t.isEditLoading
            && t.error == s.error
  {
  }

  /** A rejected edit writes nothing and keeps the dialog open with what was
      typed, showing at least one message. */
  lemma RejectedEditKeepsDialog(s: StudentManagementUiState, students: map<string, Document>, fault: Fault)
    requires s.editingStudent.Some?
    requires |Trim(s.editName)| < 2 || !MatchesEditPhone(Trim(s.editPhone))
    ensures StoreAfterUpdate(s, students, fault) == students
    ensures var t := AfterUpdate(s, students, fault);
            && t.editingStudent == s.editingStudent && t.editName == s.editName && t.editPhone == s.editPhone
            && t.error == s.error && (t.editNameError.Some? || t.editPhoneError.Some?)
  {
    EditNameAcceptance(s.editName);
  }

  /** The screen after `removeStudent`: the confirmation closes, and a failed
      soft delete is reported. */
  function AfterRemove(s: StudentManagementUiState, students: map<string, Document>, studentId: string, fault: Fault)
    : StudentManagementUiState
  {
    var closed := s.(showDeleteConfirmation := None);
    if fault.NoFault? && studentId in students then closed
    else
      var message := if fault.Fault? then fault.message else Some(NotFound);
      closed.(error := Some(message.GetOr(RemoveFailedText)))
  }

  class StudentManagementViewModel {
    const repository: AttendanceRepository
    var uiState: StudentManagementUiState

    constructor (repository: AttendanceRepository)
      ensures this.repository == repository && uiState == InitialState
    {
      this.repository := repository;
      uiState := InitialState;
    }

    /** One emission of the active-students listener. */
    method OnStudents(snap: Snapshot)
      requires IsSnapshotOf(snap, repository.students)
      modifies this
      ensures uiState == old(uiState).(students := ActiveStudents(snap), isLoading := false)
      ensures forall st :: st in uiState.students ==>
                st.isActive && st.id in repository.students && ActiveQueryMatches(repository.students[st.id])
    {
      ActiveStudentsCorrect(snap, repository.students);
      uiState := uiState.(students := ActiveStudents(snap), isLoading := false);
    }

    method ShowDeleteConfirmation(student: Student)
      modifies this
      ensures uiState == old(uiState).(showDeleteConfirmation := Some(student))
    {
      uiState := uiState.(showDeleteConfirmation := Some(student));
    }

    method HideDeleteConfirmation()
      modifies this
      ensures uiState == old(uiState).(showDeleteConfirmation := None)
    {
      uiState := uiState.(showDeleteConfirmation := None);
    }

    method RemoveStudent(student: Student, fault: Fault)
      modifies this, repository
      ensures uiState == AfterRemove(old(uiState), old(repository.students), student.id, fault)
      ensures repository.attendance == old(repository.attendance)
      ensures repository.students ==
                if fault.NoFault? && student.id in old(repository.students)
                then old(repository.students)[student.id := old(repository.students)[student.id]["isActive" := Bool(false)]]
                else old(repository.students)
    {
      uiState := uiState.(showDeleteConfirmation := None);
      var result := repository.RemoveStudent(student.id, fault);
      match result {
        case Success(_) =>
        case Failure(message) =>
          uiState := uiState.(error := Some(message.GetOr(RemoveFailedText)));
      }
    }

    method ShowEditDialog(student: Student)
      modifies this
      ensures uiState == old(uiState).(editingStudent := Some(student), editName := student.name,
                                       editPhone := student.parentPhone, editNameError := None, editPhoneError := None)
    {
      uiState := uiState.(editingStudent := Some(student), editName := student.name,
                          editPhone := student.parentPhone, editNameError := None, editPhoneError := None);
    }

    method HideEditDialog()
      modifies this
      ensures uiState == old(uiState).(editingStudent := None, editName := "", editPhone := "",
                                       editNameError := None, editPhoneError := None)
    {
      uiState := uiState.(editingStudent := None, editName := "", editPhone := "",
                          editNameError := None, editPhoneError := None);
    }

    method OnEditNameChange(name: string)
      modifies this
      ensures uiState == old(uiState).(editName := name, editNameError := None)
    {
      uiState := uiState.(editName := name, editNameError := None);
    }

    method OnEditPhoneChange(phone: string)
      modifies this
      ensures uiState == old(uiState).(editPhone := phone, editPhoneError := None)
    {
      uiState := uiState.(editPhone := phone, editPhoneError := None);
    }

    /** `updateStudent`: validate the trimmed fields, then overwrite only the
        name and number of the edited student. */
    method UpdateStudent(fault: Fault)
      modifies this, repository
      ensures uiState == AfterUpdate(old(uiState), old(repository.students), fault)
      ensures repository.attendance == old(repository.attendance)
      ensures repository.students == StoreAfterUpdate(old(uiState), old(repository.students), fault)
    {
      var currentState := uiState;
      if currentState.editingStudent.None? {
        return;
      }
      var student := currentState.editingStudent.value;
      var name := Trim(currentState.editName);
      var phone := Trim(currentState.editPhone);
      var nameError := EditNameError(name);
      var phoneError := EditPhoneError(phone);
      if nameError.Some? || phoneError.Some? {
        assert !EditAccepted(currentState);
        uiState := uiState.(editNameError := nameError, editPhoneError := phoneError);
        return;
      }
      assert EditAccepted(currentState);
      SaveEdit(student.id, name, phone, fault);
    }

    /** The write launched by an accepted edit, and the dialog's reaction. */
    method SaveEdit(studentId: string, name: string, phone: string, fault: Fault)
      modifies this, repository
      ensures var ok := fault.NoFault? && studentId in old(repository.students);
              && uiState == (if ok then old(uiState).(isEditLoading := false, editingStudent := None, editName := "", editPhone := "")
                             else old(uiState).(isEditLoading := false,
                                                error := Some((if fault.Fault? then fault.message else Some(NotFound)).GetOr(UpdateFailedText))))
              && repository.students == StoreAfterEdit(old(repository.students), studentId, name, phone, fault)
      ensures repository.attendance == old(repository.attendance)
    {
      uiState := uiState.(isEditLoading := true);
      var result := repository.UpdateStudent(studentId, name, phone, fault);
      match result {
        case Success(_) =>
          uiState := uiState.(isEditLoading := false, editingStudent := None, editName := "", editPhone := "");
        case Failure(message) =>
          uiState := uiState.(isEditLoading := false, error := Some(message.GetOr(UpdateFailedText)));
      }
    }

    method ClearError()
      modifies this
      ensures uiState == old(uiState).(error := None)
    {
      uiState := uiState.(error := None);
    }
  }
}
