/**
  service/userservice: registration with a password, login and profile
  lookup. Each operation is a straight chain of guards; the only writes to
  storage go through the repository's Register.
 */
module UserService {
  import opened Wrappers
  import opened GoString
  import opened Entity
  import opened UserStore
  import PhoneNumber

  /** The service value: its JWT signing key and its repository. */
  datatype Service = Service(signKey: Bytes, repo: Repository)

  /**
    The two library computations the service depends on, left uninterpreted:
    the hex MD5 digest of a password, and JWT creation for a user ID and a
    signing key, which may fail.
   */
  datatype Crypto = Crypto(md5Hex: Bytes -> Bytes, createToken: (nat, Bytes) -> Option<Bytes>)

  datatype RegisterRequest = RegisterRequest(name: Bytes, phoneNumber: Bytes, password: Bytes)
  datatype RegisterResponse = RegisterResponse(user: User)
  datatype LoginRequest = LoginRequest(phoneNumber: Bytes, password: Bytes)
  datatype LoginResponse = LoginResponse(accessToken: Bytes)
  datatype ProfileRequest = ProfileRequest(userID: nat)
  datatype ProfileResponse = ProfileResponse(name: Bytes)

  /** One constructor per error the service formats. */
  datatype Error =
    | InvalidPhoneNumberFormat                 // "invalid phone number format"
    | UniquenessCheckFailed(cause: RepoError)  // "unexpected error during phone number uniqueness check: %w"
    | PhoneNumberAlreadyRegistered             // "phone number is already registered"
    | NameTooShort                             // "name should be at least 3 characters long"
    | PasswordTooShort                         // "password should be at least 8 characters long"
    | RegistrationFailed(cause: RepoError)     // "unexpected error during user registration: %w"
    | LookupFailed(cause: RepoError)           // login: "unexpected error: %w"
    | WrongCredentials                         // "username or password isn't correct"
    | TokenCreationFailed                      // login: "unexpected error: %w" around the JWT error
    | ProfileLookupFailed(cause: RepoError)    // "unexpected error %w"

  /** Names of fewer bytes are refused; a 3-byte name passes. */
  const MinNameLength: nat := 3
  /** Passwords of fewer bytes are refused; an 8-byte password passes. */
  const MinPasswordLength: nat := 8

  /** Every check of Register passes: format, uniqueness (without a repository error), name, password. */
  predicate PassesChecks(repo: Repository, req: RegisterRequest) {
    && PhoneNumber.IsValid(req.phoneNumber)
    && IsPhoneNumberUniqueOp !in repo.failing
    && !PhoneTaken(repo.users, req.phoneNumber)
    && |req.name| >= MinNameLength
    && |req.password| >= MinPasswordLength
  }

  /** The user Register hands to the repository: ID 0, the request's name and number, the hashed password. */
  function NewUser(crypto: Crypto, req: RegisterRequest): User {
    User(0, req.phoneNumber, req.name, crypto.md5Hex(req.password))
  }

  function Register(s: Service, crypto: Crypto, req: RegisterRequest): (o: Outcome<RegisterResponse, Error>)
    // the format is checked before the repository is consulted at all
    ensures !PhoneNumber.IsValid(req.phoneNumber) ==>
              o == Outcome(Failure(InvalidPhoneNumberFormat), s.repo, [])
    // then the uniqueness query, which is the first call
    ensures PhoneNumber.IsValid(req.phoneNumber) ==>
              |o.calls| >= 1 && o.calls[0] == IsPhoneNumberUniqueCall(req.phoneNumber)
    ensures PhoneNumber.IsValid(req.phoneNumber) && IsPhoneNumberUniqueOp in s.repo.failing ==>
              o == Outcome(Failure(UniquenessCheckFailed(StoreFailure)), s.repo, [IsPhoneNumberUniqueCall(req.phoneNumber)])
    ensures PhoneNumber.IsValid(req.phoneNumber) && IsPhoneNumberUniqueOp !in s.repo.failing &&
            PhoneTaken(s.repo.users, req.phoneNumber) ==>
              o == Outcome(Failure(PhoneNumberAlreadyRegistered), s.repo, [IsPhoneNumberUniqueCall(req.phoneNumber)])
    // then the name, then the password
    ensures PhoneNumber.IsValid(req.phoneNumber) && IsPhoneNumberUniqueOp !in s.repo.failing &&
            !PhoneTaken(s.repo.users, req.phoneNumber) && |req.name| < MinNameLength ==>
              o == Outcome(Failure(NameTooShort), s.repo, [IsPhoneNumberUniqueCall(req.phoneNumber)])
    ensures PhoneNumber.IsValid(req.phoneNumber) && IsPhoneNumberUniqueOp !in s.repo.failing &&
            !PhoneTaken(s.repo.users, req.phoneNumber) && |req.name| >= MinNameLength &&
            |req.password| < MinPasswordLength ==>
              o == Outcome(Failure(PasswordTooShort), s.repo, [IsPhoneNumberUniqueCall(req.phoneNumber)])
    // the repository's Register is called exactly when every check passed, with the hashed password
    ensures PassesChecks(s.repo, req) <==> (exists u :: RegisterCall(u) in o.calls)
    ensures PassesChecks(s.repo, req) ==>
              o.calls == [IsPhoneNumberUniqueCall(req.phoneNumber), RegisterCall(NewUser(crypto, req))]
    ensures PassesChecks(s.repo, req) && RegisterOp in s.repo.failing ==>
              o.result == Failure(RegistrationFailed(StoreFailure)) && o.repo == s.repo
    // success: the response is the stored row, and storage changes only then
    ensures o.result.Success? <==> PassesChecks(s.repo, req) && RegisterOp !in s.repo.failing
    ensures o.result.Success? ==>
              && o.result.value.user == User(|s.repo.users| + 1, req.phoneNumber, req.name, crypto.md5Hex(req.password))
              && o.repo == s.repo.(users := s.repo.users + [o.result.value.user])
    ensures o.result.Failure? ==> o.repo == s.repo
  {
    if !PhoneNumber.IsValid(req.phoneNumber) then
      Outcome(Failure(InvalidPhoneNumberFormat), s.repo, [])
    else
      var checked := [IsPhoneNumberUniqueCall(req.phoneNumber)];
      match IsPhoneNumberUnique(s.repo, req.phoneNumber)
      case Failure(e) => Outcome(Failure(UniquenessCheckFailed(e)), s.repo, checked)
      case Success(isUnique) =>
        if !isUnique then Outcome(Failure(PhoneNumberAlreadyRegistered), s.repo, checked)
        else if |req.name| < MinNameLength then Outcome(Failure(NameTooShort), s.repo, checked)
        else if |req.password| < MinPasswordLength then Outcome(Failure(PasswordTooShort), s.repo, checked)
        else
          var user := NewUser(crypto, req);
          var (created, repo') := UserStore.Register(s.repo, user);
          var calls := checked + [RegisterCall(user)];
          match created
          case Failure(e) => Outcome(Failure(RegistrationFailed(e)), repo', calls)
          case Success(u) => Outcome(Success(RegisterResponse(u)), repo', calls)
  }

  function Login(s: Service, crypto: Crypto, req: LoginRequest): (o: Outcome<LoginResponse, Error>)
    // one lookup, no writes
    ensures o.repo == s.repo && o.calls == [GetUserByPhoneNumberCall(req.phoneNumber)]
    ensures GetUserByPhoneNumberOp in s.repo.failing ==> o.result == Failure(LookupFailed(StoreFailure))
    ensures o.result.Failure? && o.result.error.LookupFailed? ==> GetUserByPhoneNumberOp in s.repo.failing
    // a stored user whose hash matches gets a token exactly when one can be created for that user's ID
    ensures GetUserByPhoneNumberOp !in s.repo.failing && PhoneTaken(s.repo.users, req.phoneNumber) &&
            FindByPhoneNumber(s.repo.users, req.phoneNumber).value.password == crypto.md5Hex(req.password) ==>
              (o.result.Success? <==>
                 crypto.createToken(FindByPhoneNumber(s.repo.users, req.phoneNumber).value.id, s.signKey).Some?)
    // an unknown number and a wrong password give the same error
    ensures GetUserByPhoneNumberOp !in s.repo.failing ==>
              (o.result == Failure(WrongCredentials) <==>
                 || !PhoneTaken(s.repo.users, req.phoneNumber)
                 || FindByPhoneNumber(s.repo.users, req.phoneNumber).value.password != crypto.md5Hex(req.password))
    // success needs a stored user whose hash matches; the token is built from that user's ID
    ensures o.result.Success? ==>
              && GetUserByPhoneNumberOp !in s.repo.failing
              && PhoneTaken(s.repo.users, req.phoneNumber)
              && var u := FindByPhoneNumber(s.repo.users, req.phoneNumber).value;
              && u.password == crypto.md5Hex(req.password)
              && crypto.createToken(u.id, s.signKey) == Some(o.result.value.accessToken)
    ensures o.result == Failure(TokenCreationFailed) ==>
              crypto.createToken(FindByPhoneNumber(s.repo.users, req.phoneNumber).value.id, s.signKey).None?
    // a token that cannot be signed for a matching user is reported as an unexpected error
    ensures GetUserByPhoneNumberOp !in s.repo.failing && PhoneTaken(s.repo.users, req.phoneNumber) &&
            FindByPhoneNumber(s.repo.users, req.phoneNumber).value.password == crypto.md5Hex(req.password) &&
            crypto.createToken(FindByPhoneNumber(s.repo.users, req.phoneNumber).value.id, s.signKey).None? ==>
              o.result == Failure(TokenCreationFailed)
  {
    var calls := [GetUserByPhoneNumberCall(req.phoneNumber)];
    match GetUserByPhoneNumber(s.repo, req.phoneNumber)
    case Failure(e) => Outcome(Failure(LookupFailed(e)), s.repo, calls)
    case Success((user, exist)) =>
      if !exist then Outcome(Failure(WrongCredentials), s.repo, calls)
      else if user.password != crypto.md5Hex(req.password) then Outcome(Failure(WrongCredentials), s.repo, calls)
      else
        match crypto.createToken(user.id, s.signKey)
        case None => Outcome(Failure(TokenCreationFailed), s.repo, calls)
        case Some(token) => Outcome(Success(LoginResponse(token)), s.repo, calls)
  }

  function Profile(s: Service, req: ProfileRequest): (o: Outcome<ProfileResponse, Error>)
    ensures o.repo == s.repo && o.calls == [GetUserByIDCall(req.userID)]
    ensures o.result.Success? <==>
              GetUserByIDOp !in s.repo.failing && exists u :: u in s.repo.users && u.id == req.userID
    ensures o.result.Success? ==>
              exists u :: u in s.repo.users && u.id == req.userID && o.result.value.name == u.name
    ensures o.result.Failure? ==> o.result.error.ProfileLookupFailed?
    // the repository's error is wrapped, so a failing store and a missing ID stay distinguishable
    ensures GetUserByIDOp in s.repo.failing ==> o.result == Failure(ProfileLookupFailed(StoreFailure))
    ensures GetUserByIDOp !in s.repo.failing && (forall u :: u in s.repo.users ==> u.id != req.userID) ==>
              o.result == Failure(ProfileLookupFailed(RecordNotFound))
  {
    var calls := [GetUserByIDCall(req.userID)];
    match GetUserByID(s.repo, req.userID)
    case Failure(e) => Outcome(Failure(ProfileLookupFailed(e)), s.repo, calls)
    case Success(user) => Outcome(Success(ProfileResponse(user.name)), s.repo, calls)
  }

  /** Registering keeps the users table valid: IDs in row order, each number stored once. */
  lemma RegisterKeepsStoreValid(s: Service, crypto: Crypto, req: RegisterRequest)
    requires Valid(s.repo.users)
    ensures Valid(Register(s, crypto, req).repo.users)
  {
    if Register(s, crypto, req).result.Success? {
      RegisterKeepsValid(s.repo.users, NewUser(crypto, req));
    }
  }

  /** A user who has just registered can log in with the same number and password. */
  lemma RegisterThenLogin(s: Service, crypto: Crypto, req: RegisterRequest)
    requires Register(s, crypto, req).result.Success?
    requires GetUserByPhoneNumberOp !in s.repo.failing
    requires crypto.createToken(|s.repo.users| + 1, s.signKey).Some?
    ensures Login(s.(repo := Register(s, crypto, req).repo), crypto, LoginRequest(req.phoneNumber, req.password)).result
            == Success(LoginResponse(crypto.createToken(|s.repo.users| + 1, s.signKey).value))
  {
    var created := Register(s, crypto, req).result.value.user;
    FindAppendedByPhoneNumber(s.repo.users, created);
  }

  /** After registering, the profile of the new ID shows the registered name. */
  lemma RegisterThenProfile(s: Service, crypto: Crypto, req: RegisterRequest)
    requires Valid(s.repo.users)
    requires Register(s, crypto, req).result.Success?
    requires GetUserByIDOp !in s.repo.failing
    ensures Profile(s.(repo := Register(s, crypto, req).repo), ProfileRequest(|s.repo.users| + 1)).result
            == Success(ProfileResponse(req.name))
  {
    var created := Register(s, crypto, req).result.value.user;
    assert forall v :: v in s.repo.users ==> v.id != created.id by {
      forall v | v in s.repo.users ensures v.id != created.id {
        var i :| 0 <= i < |s.repo.users| && s.repo.users[i] == v;
      }
    }
    FindAppendedByID(s.repo.users, created);
  }

  /** Once a number is registered, registering it again is refused as already registered. */
  lemma RegisterTwiceRejected(s: Service, crypto: Crypto, req: RegisterRequest, again: RegisterRequest)
    requires Register(s, crypto, req).result.Success?
    requires again.phoneNumber == req.phoneNumber
    ensures Register(s.(repo := Register(s, crypto, req).repo), crypto, again).result
            == Failure(PhoneNumberAlreadyRegistered)
  {
    var after := Register(s, crypto, req).repo.users;
    assert after[|after| - 1] in after;
  }

  /** Login cannot tell an unknown number from a wrong password: both give the same error. */
  lemma WrongCredentialsIndistinguishable(s: Service, crypto: Crypto, unknown: LoginRequest, wrong: LoginRequest)
    requires GetUserByPhoneNumberOp !in s.repo.failing
    requires !PhoneTaken(s.repo.users, unknown.phoneNumber)
    requires PhoneTaken(s.repo.users, wrong.phoneNumber)
    requires FindByPhoneNumber(s.repo.users, wrong.phoneNumber).value.password != crypto.md5Hex(wrong.password)
    ensures Login(s, crypto, unknown).result == Login(s, crypto, wrong).result == Failure(WrongCredentials)
  {
  }
}
