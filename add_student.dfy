/** The add-student form: field edits, validation and submission. */
module AddStudentScreen {
  import opened Wrappers
  import opened Text
  import opened StudentModel
  import opened Repository

  datatype AddStudentUiState = AddStudentUiState(
    name: string,
    phoneNumber: string,
    isLoading: bool,
    isSuccess: bool,
    error: Option<string>,
    nameError: Option<string>,
    phoneError: Option<string>)

  /** The state of a fresh form. */
  const InitialState: AddStudentUiState := AddStudentUiState("", "", false, false, None, None, None)

  const NameRequired: string := "Name is required"
  const PhoneRequired: string := "Phone number is required"
  const InvalidPhone: string := "Invalid phone number"
  const AddFailedText: string := "Failed to add student"

  /** `isValidPhoneNumber`: at least ten decimal digits, wherever they are. */
  predicate IsValidPhoneNumber(phone: string) {
    |DigitsOnly(phone)| >= 10
  }

  /** The name check: the form's name is rejected exactly when trimming it
      leaves nothing. */
  function NameError(name: string): (r: Option<string>)
    ensures r.None? <==> Trim(name) != []
    ensures r.Some? ==> r == Some(NameRequired)
  {
    BlankIffTrimEmpty(name);
    if IsBlank(name) then Some(NameRequired) else None
  }

  /** The phone check: blank first, then the digit count. A valid number is
      never blank, so acceptance is exactly the digit count. */
  function PhoneError(phone: string): (r: Option<string>)
    ensures r.None? <==> IsValidPhoneNumber(phone)
    ensures r == Some(PhoneRequired) <==> IsBlank(phone)
    ensures r == Some(InvalidPhone) <==> !IsBlank(phone) && !IsValidPhoneNumber(phone)
  {
    if IsBlank(phone) then
      DigitsOnlyOfBlank(phone);
      Some(PhoneRequired)
    else if !IsValidPhoneNumber(phone) then Some(InvalidPhone)
    else None
  }

  predicate Accepted(s: AddStudentUiState) {
    NameError(s.name).None? && PhoneError(s.phoneNumber).None?
  }

  /** The student that an accepted form writes: both fields trimmed, active. */
  function SubmittedStudent(s: AddStudentUiState, newId: string, now: int): Student {
    Student(newId, Trim(s.name), Trim(s.phoneNumber), true, now)
  }

  /** The form after `addStudent`, given the outcome of the store write. A
      rejected form only gains the messages of the failed checks; any other
      message field keeps its previous value. */
  function AfterSubmit(s: AddStudentUiState, fault: Fault): AddStudentUiState {
    if !Accepted(s) then
      s.(nameError := if NameError(s.name).Some? then NameError(s.name) else s.nameError,
         phoneError := if PhoneError(s.phoneNumber).Some? then PhoneError(s.phoneNumber) else s.phoneError)
    else if fault.NoFault? then
      s.(isLoading := false, isSuccess := true)
    else
      s.(isLoading := false, error := Some(fault.message.GetOr(AddFailedText)))
  }

  /** What an accepted form writes is a well-formed roster entry: its name is
      non-empty with no surrounding whitespace, and its phone number still
      holds at least ten digits after trimming. */
  lemma SubmittedStudentWellFormed(s: AddStudentUiState, newId: string, now: int)
    requires Accepted(s)
    ensures var st := SubmittedStudent(s, newId, now);
            && st.name != [] && !IsWhitespace(st.name[0]) && !IsWhitespace(st.name[|st.name| - 1])
            && IsValidPhoneNumber(st.parentPhone)
            && st.isActive && st.id == newId
  {
    TrimIsSlice(s.name);
    DigitsOnlyOfTrim(s.phoneNumber);
  }

  /** A rejected form changes nothing but the message fields, and each failed
      check leaves its message. */
  lemma RejectedFormReportsErrors(s: AddStudentUiState, fault: Fault)
    requires !Accepted(s)
    ensures var t := AfterSubmit(s, fault);
            && t.name == s.name && t.phoneNumber == s.phoneNumber
            && t.isLoading == s.isLoading && t.isSuccess == s.isSuccess && t.error == s.error
            && (Trim(s.name) == [] ==> t.nameError == Some(NameRequired))
            && (IsBlank(s.phoneNumber) ==> t.phoneError == Some(PhoneRequired))
            && (!IsBlank(s.phoneNumber) && !IsValidPhoneNumber(s.phoneNumber) ==> t.phoneError == Some(InvalidPhone))
  {
  }

  /** A number of fewer than ten characters is always rejected. */
  lemma ShortPhoneRejected(phone: string)
    requires |phone| < 10
    ensures PhoneError(phone).Some?
  {
  }

  /** An empty name is rejected whatever the number, and a three-digit number
      is rejected as invalid (not as missing). */
  lemma RejectionExamples(s: AddStudentUiState)
    ensures !Accepted(s.(name := "", phoneNumber := "1234567890"))
    ensures AfterSubmit(s.(name := "", phoneNumber := "1234567890"), NoFault).nameError == Some(NameRequired)
    ensures !Accepted(s.(name := "Alice", phoneNumber := "123"))
    ensures AfterSubmit(s.(name := "Alice", phoneNumber := "123"), NoFault).phoneError == Some(InvalidPhone)
  {
    ShortPhoneRejected("123");
    assert !IsWhitespace("123"[0]);
  }

  class AddStudentViewModel {
    const repository: AttendanceRepository
    var uiState: AddStudentUiState

    constructor (repository: AttendanceRepository)
      ensures this.repository == repository && uiState == InitialState
    {
      this.repository := repository;
      uiState := InitialState;
    }

    method OnNameChange(name: string)
      modifies this
      ensures uiState == old(uiState).(name := name, nameError := None)
    {
      uiState := uiState.(name := name, nameError := None);
    }

    method OnPhoneChange(phone: string)
      modifies this
      ensures uiState == old(uiState).(phoneNumber := phone, phoneError := None)
    {
      uiState := uiState.(phoneNumber := phone, phoneError := None);
    }

    /** `addStudent`: validate, and only when both checks pass write the
        trimmed fields as a new active student. */
    method AddStudent(newId: string, now: int, fault: Fault)
      modifies this, repository
      ensures uiState == AfterSubmit(old(uiState), fault)
      ensures repository.attendance == old(repository.attendance)
      ensures repository.students == if Accepted(old(uiState)) && fault.NoFault?
                                     then old(repository.students)[newId := ToMap(SubmittedStudent(old(uiState), newId, now))]
                                     else old(repository.students)
    {
      var state := uiState;
      var hasError := false;
      if IsBlank(state.name) {
        uiState := uiState.(nameError := Some(NameRequired));
        hasError := true;
      }
      if IsBlank(state.phoneNumber) {
        uiState := uiState.(phoneError := Some(PhoneRequired));
        hasError := true;
      } else if !IsValidPhoneNumber(state.phoneNumber) {
        uiState := uiState.(phoneError := Some(InvalidPhone));
        hasError := true;
      }
      if hasError {
        return;
      }
      uiState := uiState.(isLoading := true);
      var result := repository.AddStudent(Trim(state.name), Trim(state.phoneNumber), newId, now, fault);
      match result {
        case Success(_) =>
          uiState := uiState.(isLoading := false, isSuccess := true);
        case Failure(message) =>
          uiState := uiState.(isLoading := false, error := Some(message.GetOr(AddFailedText)));
      }
    }

    method ClearError()
      modifies this
      ensures uiState == old(uiState).(error := None)
    {
      uiState := uiState.(error := None);
    }

    method ResetState()
      modifies this
      ensures uiState == InitialState
    {
      uiState := InitialState;
    }
  }
}
