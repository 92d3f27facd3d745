/**
  service/userService: the older registration service. It checks the phone
  number, its uniqueness and the name, and has no password at all.
 */
module LegacyUserService {
  import opened Wrappers
  import opened GoString
  import opened Entity
  import opened UserStore
  import PhoneNumber

  /** This service uses only IsPhoneNumberUnique and Register of the repository. */
  datatype Service = Service(repo: Repository)

  datatype RegisterRequest = RegisterRequest(name: Bytes, phoneNumber: Bytes)
  datatype RegisterResponse = RegisterResponse(user: User)

  datatype Error =
    | PhoneNumberNotValid          // "phone number is not valid"
    | Unexpected(cause: RepoError) // "unexpexted error %v", for either repository call
    | PhoneNumberNotUnique         // "phone number is not unique"
    | NameTooShort                 // "name length should be greater than 3"; a 3-byte name passes

  const MinNameLength: nat := 3

  /** The user handed to the repository: ID 0, the request's name and number, and Go's zero value "" as password. */
  function NewUser(req: RegisterRequest): User {
    User(0, req.phoneNumber, req.name, [])
  }

  /** Phone format, uniqueness without a repository error, and name length all pass. */
  predicate PassesChecks(repo: Repository, req: RegisterRequest) {
    && PhoneNumber.IsValid(req.phoneNumber)
    && IsPhoneNumberUniqueOp !in repo.failing
    && !PhoneTaken(repo.users, req.phoneNumber)
    && |req.name| >= MinNameLength
  }

  function Register(s: Service, req: RegisterRequest): (o: Outcome<RegisterResponse, Error>)
    // no repository call before the format check passes
    ensures !PhoneNumber.IsValid(req.phoneNumber) ==>
              o == Outcome(Failure(PhoneNumberNotValid), s.repo, [])
    ensures PhoneNumber.IsValid(req.phoneNumber) ==>
              |o.calls| >= 1 && o.calls[0] == IsPhoneNumberUniqueCall(req.phoneNumber)
    ensures PhoneNumber.IsValid(req.phoneNumber) && IsPhoneNumberUniqueOp in s.repo.failing ==>
              o == Outcome(Failure(Unexpected(StoreFailure)), s.repo, [IsPhoneNumberUniqueCall(req.phoneNumber)])
    // the uniqueness verdict comes before the name check
    ensures PhoneNumber.IsValid(req.phoneNumber) && IsPhoneNumberUniqueOp !in s.repo.failing &&
            PhoneTaken(s.repo.users, req.phoneNumber) ==>
              o == Outcome(Failure(PhoneNumberNotUnique), s.repo, [IsPhoneNumberUniqueCall(req.phoneNumber)])
    ensures PhoneNumber.IsValid(req.phoneNumber) && IsPhoneNumberUniqueOp !in s.repo.failing &&
            !PhoneTaken(s.repo.users, req.phoneNumber) && |req.name| < MinNameLength ==>
              o == Outcome(Failure(NameTooShort), s.repo, [IsPhoneNumberUniqueCall(req.phoneNumber)])
    // the repository's Register is called exactly when every check passed
    ensures PassesChecks(s.repo, req) <==> (exists u :: RegisterCall(u) in o.calls)
    ensures PassesChecks(s.repo, req) ==>
              o.calls == [IsPhoneNumberUniqueCall(req.phoneNumber), RegisterCall(NewUser(req))]
    ensures PassesChecks(s.repo, req) && RegisterOp in s.repo.failing ==>
              o.result == Failure(Unexpected(StoreFailure)) && o.repo == s.repo
    // with no password rule, good format, a free number and a long enough name always succeed
    ensures o.result.Success? <==> PassesChecks(s.repo, req) && RegisterOp !in s.repo.failing
    ensures o.result.Success? ==>
              && o.result.value.user == User(|s.repo.users| + 1, req.phoneNumber, req.name, [])
              && o.repo == s.repo.(users := s.repo.users + [o.result.value.user])
    ensures o.result.Failure? ==> o.repo == s.repo
  {
    if !PhoneNumber.IsValid(req.phoneNumber) then
      Outcome(Failure(PhoneNumberNotValid), s.repo, [])
    else
      var checked := [IsPhoneNumberUniqueCall(req.phoneNumber)];
      match IsPhoneNumberUnique(s.repo, req.phoneNumber)
      case Failure(e) => Outcome(Failure(Unexpected(e)), s.repo, checked)
      case Success(isUnique) =>
        if !isUnique then Outcome(Failure(PhoneNumberNotUnique), s.repo, checked)
        else if |req.name| < MinNameLength then Outcome(Failure(NameTooShort), s.repo, checked)
        else
          var user := NewUser(req);
          var (created, repo') := UserStore.Register(s.repo, user);
          var calls := checked + [RegisterCall(user)];
          match created
          case Failure(e) => Outcome(Failure(Unexpected(e)), repo', calls)
          case Success(u) => Outcome(Success(RegisterResponse(u)), repo', calls)
  }

  /** Registering keeps the users table valid. */
  lemma RegisterKeepsStoreValid(s: Service, req: RegisterRequest)
    requires Valid(s.repo.users)
    ensures Valid(Register(s, req).repo.users)
  {
    if Register(s, req).result.Success? {
      RegisterKeepsValid(s.repo.users, NewUser(req));
    }
  }
}
