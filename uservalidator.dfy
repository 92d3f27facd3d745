/**
  validator/uservalidator: the field rules of a registration request. Each
  field's rules run in order and stop at the first that fails; a refused
  request yields one error per refused field and an "invalid input" error of
  kind Invalid.
 */
module UserValidator {
  import opened Wrappers
  import opened GoString
  import opened UserStore
  import opened RichError

  const Op: string := "uservalidator.ValidateRegisterRequest"
  const ErrorMsgInvalidInput: string := "invalid input"
  const ErrorMsgPhoneNumberIsNotUnique: string := "phone number is not unique"

  const MinNameLength: nat := 3
  const MaxNameLength: nat := 50
  const MinPasswordLength: nat := 8

  /** The validator only asks its repository whether a phone number is unique. */
  datatype Validator = Validator(repo: Repository)

  datatype RegisterRequest = RegisterRequest(name: Bytes, phoneNumber: Bytes, password: Bytes)

  datatype Field = NameField | PasswordField | PhoneNumberField

  const AllFields: set<Field> := {NameField, PasswordField, PhoneNumberField}

  /** What checkPhoneNumberUniqueness returns: the repository's error, passed through, or a formatted message. */
  datatype UniquenessError = RepositoryError(cause: RepoError) | Errorf(message: string)

  /** The first rule of a field that failed: Required, Length, Match, or the uniqueness rule. */
  datatype FieldError = Blank | LengthOutOfRange | FormatMismatch | Uniqueness(err: UniquenessError)

  /** One byte of the class [A-Za-z0-9!@#%^&*]. */
  predicate PasswordByte(b: Byte) {
    ('A' <= b <= 'Z') || ('a' <= b <= 'z') || ('0' <= b <= '9') || b in "!@#%^&*"
  }

  /** The pattern ^[A-Za-z0-9!@#%^&*]{8,}$ as a predicate. */
  predicate PasswordPattern(password: Bytes) {
    |password| >= MinPasswordLength && forall i :: 0 <= i < |password| ==> PasswordByte(password[i])
  }

  /** The pattern ^09[0-9]{9}$ as a predicate. */
  predicate PhonePattern(phoneNumber: Bytes) {
    && |phoneNumber| == 11
    && phoneNumber[0] == '0' && phoneNumber[1] == '9'
    && forall i :: 2 <= i < 11 ==> IsDigit(phoneNumber[i])
  }

  function CheckPhoneNumberUniqueness(repo: Repository, phoneNumber: Bytes): (r: Option<UniquenessError>)
    ensures IsPhoneNumberUniqueOp in repo.failing ==> r == Some(RepositoryError(StoreFailure))
    ensures IsPhoneNumberUniqueOp !in repo.failing ==>
              && (r.None? <==> !PhoneTaken(repo.users, phoneNumber))
              && (r.Some? ==> r.value == Errorf(ErrorMsgPhoneNumberIsNotUnique))
  {
    match IsPhoneNumberUnique(repo, phoneNumber)
    case Failure(e) => Some(RepositoryError(e))
    case Success(isUnique) => if !isUnique then Some(Errorf(ErrorMsgPhoneNumberIsNotUnique)) else None
  }

  /** Required, then Length(3, 50) in bytes; Length lets the empty string through, Required does not. */
  function NameError(name: Bytes): (r: Option<FieldError>)
    ensures r.None? <==> MinNameLength <= |name| <= MaxNameLength
    ensures |name| == 0 ==> r == Some(Blank)
    ensures r.Some? && |name| > 0 ==> r == Some(LengthOutOfRange)
  {
    if |name| == 0 then Some(Blank)
    else if !(MinNameLength <= |name| <= MaxNameLength) then Some(LengthOutOfRange)
    else None
  }

  /** Required, then the password pattern. */
  function PasswordError(password: Bytes): (r: Option<FieldError>)
    ensures r.None? <==> PasswordPattern(password)
    ensures |password| == 0 ==> r == Some(Blank)
    ensures r.Some? && |password| > 0 ==> r == Some(FormatMismatch)
  {
    if |password| == 0 then Some(Blank)
    else if !PasswordPattern(password) then Some(FormatMismatch)
    else None
  }

  /** Required, then the phone pattern, then uniqueness; the repository is consulted only for a well-formed number. */
  function PhoneNumberError(repo: Repository, phoneNumber: Bytes): (r: Option<FieldError>)
    ensures r.None? <==>
              PhonePattern(phoneNumber) && IsPhoneNumberUniqueOp !in repo.failing && !PhoneTaken(repo.users, phoneNumber)
    ensures |phoneNumber| == 0 ==> r == Some(Blank)
    ensures |phoneNumber| > 0 && !PhonePattern(phoneNumber) ==> r == Some(FormatMismatch)
    ensures PhonePattern(phoneNumber) && r.Some? ==>
              r == Some(Uniqueness(CheckPhoneNumberUniqueness(repo, phoneNumber).value))
  {
    if |phoneNumber| == 0 then Some(Blank)
    else if !PhonePattern(phoneNumber) then Some(FormatMismatch)
    else
      match CheckPhoneNumberUniqueness(repo, phoneNumber)
      case Some(e) => Some(Uniqueness(e))
      case None => None
  }

  function FieldCheck(repo: Repository, req: RegisterRequest, f: Field): Option<FieldError> {
    match f
    case NameField => NameError(req.name)
    case PasswordField => PasswordError(req.password)
    case PhoneNumberField => PhoneNumberError(repo, req.phoneNumber)
  }

  lemma EveryFieldListed()
    ensures forall f: Field :: f in AllFields
  {
    forall f: Field ensures f in AllFields {
      match f
      case NameField =>
      case PasswordField =>
      case PhoneNumberField =>
    }
  }

  /** All three fields pass. */
  predicate Accepts(repo: Repository, req: RegisterRequest) {
    forall f :: f in AllFields ==> FieldCheck(repo, req, f).None?
  }

  /** validation.Errors as ValidateStruct builds it: an entry for each refused field and no other. */
  function StructErrors(repo: Repository, req: RegisterRequest): (errV: map<Field, Option<FieldError>>)
    ensures forall f :: f in errV <==> FieldCheck(repo, req, f).Some?
    ensures forall f :: f in errV ==> errV[f] == FieldCheck(repo, req, f)
    ensures errV == map[] <==> Accepts(repo, req)
  {
    var errV := map f | f in AllFields && FieldCheck(repo, req, f).Some? :: FieldCheck(repo, req, f);
    EveryFieldListed();
    assert errV == map[] ==> forall f :: f in AllFields ==> f !in errV;
    errV
  }

  /** The loop that copies the non-nil entries of validation.Errors into the field-error map. */
  method CollectFieldErrors(errV: map<Field, Option<FieldError>>) returns (fieldErrors: map<Field, FieldError>)
    ensures forall f :: f in fieldErrors <==> f in errV && errV[f].Some?
    ensures forall f :: f in fieldErrors ==> fieldErrors[f] == errV[f].value
  {
    fieldErrors := map[];
    var keys := errV.Keys;
    while keys != {}
      invariant keys <= errV.Keys
      invariant forall f :: f in fieldErrors <==> f in errV && f !in keys && errV[f].Some?
      invariant forall f :: f in fieldErrors ==> fieldErrors[f] == errV[f].value
      decreases keys
    {
      var key :| key in keys;
      if errV[key].Some? {
        fieldErrors := fieldErrors[key := errV[key].value];
      }
      keys := keys - {key};
    }
  }

  /**
    Accepts: no field map and no error. Refuses: a map with exactly one entry
    per refused field, and an "invalid input" error of kind Invalid.
   */
  method ValidateRegisterRequest(v: Validator, req: RegisterRequest)
    returns (fieldErrors: Option<map<Field, FieldError>>, err: Option<RichError>)
    ensures Accepts(v.repo, req) ==> fieldErrors.None? && err.None?
    ensures !Accepts(v.repo, req) ==>
              && err == Some(RichError(Op, KindInvalid, ErrorMsgInvalidInput))
              && fieldErrors.Some?
              && fieldErrors.value != map[]
              && (forall f :: f in fieldErrors.value <==> FieldCheck(v.repo, req, f).Some?)
              && (forall f :: f in fieldErrors.value ==> fieldErrors.value[f] == FieldCheck(v.repo, req, f).value)
  {
    var errV := StructErrors(v.repo, req);
    if errV == map[] {
      return None, None;
    }
    var collected := CollectFieldErrors(errV);
    var f :| f in errV;
    assert f in collected;
    fieldErrors := Some(collected);
    err := Some(RichError(Op, KindInvalid, ErrorMsgInvalidInput));
  }
}
