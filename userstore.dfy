/**
  The user repository the services talk to, as an abstract store: the users
  table in insertion order, with row i holding the user whose auto-increment
  ID is i + 1, and the set of repository operations that report an error
  (a failing database is an input of the model, not something it predicts).
 */
module UserStore {
  import opened Wrappers
  import opened GoString
  import opened Entity

  datatype RepoOp = IsPhoneNumberUniqueOp | RegisterOp | GetUserByPhoneNumberOp | GetUserByIDOp

  /** One call into the repository, with its argument. */
  datatype RepoCall =
    | IsPhoneNumberUniqueCall(phoneNumber: Bytes)
    | RegisterCall(user: User)
    | GetUserByPhoneNumberCall(phoneNumber: Bytes)
    | GetUserByIDCall(userID: nat)

  /** StoreFailure: any backend error; RecordNotFound: no user has the requested ID. */
  datatype RepoError = StoreFailure | RecordNotFound

  datatype Repository = Repository(users: seq<User>, failing: set<RepoOp>)

  /** What a service call returns, the repository afterwards, and the repository calls it made, in order. */
  datatype Outcome<+T, +E> = Outcome(result: Result<T, E>, repo: Repository, calls: seq<RepoCall>)

  /** IDs follow the row order and no phone number is stored twice. */
  predicate Valid(users: seq<User>) {
    && (forall i :: 0 <= i < |users| ==> users[i].id == i + 1)
    && (forall i, j :: 0 <= i < j < |users| ==> users[i].phoneNumber != users[j].phoneNumber)
  }

  predicate PhoneTaken(users: seq<User>, phoneNumber: Bytes) {
    exists u :: u in users && u.phoneNumber == phoneNumber
  }

  /** The first stored user with this phone number. */
  function FindByPhoneNumber(users: seq<User>, phoneNumber: Bytes): (r: Option<User>)
    ensures r.Some? ==> r.value in users && r.value.phoneNumber == phoneNumber
    ensures r.Some? ==> exists i :: 0 <= i < |users| && users[i] == r.value && FirstWithPhone(users, phoneNumber, i)
    ensures r.None? <==> !PhoneTaken(users, phoneNumber)
  {
    if users == [] then None
    else if users[0].phoneNumber == phoneNumber then Some(users[0])
    else FindByPhoneNumber(users[1..], phoneNumber)
  }

  /** Row i has the number and no earlier row has it. */
  predicate FirstWithPhone(users: seq<User>, phoneNumber: Bytes, i: nat) {
    i < |users| && users[i].phoneNumber == phoneNumber &&
    forall j :: 0 <= j < i ==> users[j].phoneNumber != phoneNumber
  }

  /** Row i has the ID and no earlier row has it. */
  predicate FirstWithID(users: seq<User>, userID: nat, i: nat) {
    i < |users| && users[i].id == userID &&
    forall j :: 0 <= j < i ==> users[j].id != userID
  }

  /** The first stored user with this ID. */
  function FindByID(users: seq<User>, userID: nat): (r: Option<User>)
    ensures r.Some? ==> r.value in users && r.value.id == userID
    ensures r.Some? ==> exists i :: 0 <= i < |users| && users[i] == r.value && FirstWithID(users, userID, i)
    ensures r.None? <==> forall u :: u in users ==> u.id != userID
  {
    if users == [] then None
    else if users[0].id == userID then Some(users[0])
    else FindByID(users[1..], userID)
  }

  /** Repository.IsPhoneNumberUnique: no stored user has the number. */
  function IsPhoneNumberUnique(repo: Repository, phoneNumber: Bytes): (r: Result<bool, RepoError>)
    ensures r.Failure? <==> IsPhoneNumberUniqueOp in repo.failing
    ensures r.Success? ==> (r.value <==> !PhoneTaken(repo.users, phoneNumber))
  {
    if IsPhoneNumberUniqueOp in repo.failing then Failure(StoreFailure)
    else Success(FindByPhoneNumber(repo.users, phoneNumber).None?)
  }

  /**
    Repository.Register: stores the user as a new row and returns it with the
    row's auto-increment ID, whatever ID it was handed.
   */
  function Register(repo: Repository, u: User): (r: (Result<User, RepoError>, Repository))
    ensures r.0.Failure? <==> RegisterOp in repo.failing
    ensures r.0.Failure? ==> r.1 == repo
    ensures r.0.Success? ==> r.0.value == u.(id := |repo.users| + 1)
    ensures r.0.Success? ==> r.1 == repo.(users := repo.users + [r.0.value])
  {
    if RegisterOp in repo.failing then (Failure(StoreFailure), repo)
    else
      var created := u.(id := |repo.users| + 1);
      (Success(created), repo.(users := repo.users + [created]))
  }

  /** The zero value of entity.User, returned beside `exist == false`. */
  const NoUser := User(0, [], [], [])

  /** Repository.GetUserByPhoneNumber: the user and whether one exists. */
  function GetUserByPhoneNumber(repo: Repository, phoneNumber: Bytes): (r: Result<(User, bool), RepoError>)
    ensures r.Failure? <==> GetUserByPhoneNumberOp in repo.failing
    ensures r.Success? ==> (r.value.1 <==> PhoneTaken(repo.users, phoneNumber))
    ensures r.Success? && r.value.1 ==> r.value.0 == FindByPhoneNumber(repo.users, phoneNumber).value
    ensures r.Success? && r.value.1 ==> r.value.0 in repo.users && r.value.0.phoneNumber == phoneNumber
  {
    if GetUserByPhoneNumberOp in repo.failing then Failure(StoreFailure)
    else
      match FindByPhoneNumber(repo.users, phoneNumber)
      case Some(u) => Success((u, true))
      case None => Success((NoUser, false))
  }

  /** Repository.GetUserByID: a missing ID is an error ("record not found"). */
  function GetUserByID(repo: Repository, userID: nat): (r: Result<User, RepoError>)
    ensures GetUserByIDOp in repo.failing ==> r == Failure(StoreFailure)
    ensures GetUserByIDOp !in repo.failing && (exists u :: u in repo.users && u.id == userID) ==> r.Success?
    ensures r.Success? ==> r.value in repo.users && r.value.id == userID
    ensures GetUserByIDOp !in repo.failing ==> (r == Failure(RecordNotFound) <==> forall u :: u in repo.users ==> u.id != userID)
  {
    if GetUserByIDOp in repo.failing then Failure(StoreFailure)
    else
      match FindByID(repo.users, userID)
      case Some(u) => Success(u)
      case None => Failure(RecordNotFound)
  }

  /** Appending a user with a number not yet stored keeps the table valid. */
  lemma RegisterKeepsValid(users: seq<User>, u: User)
    requires Valid(users) && !PhoneTaken(users, u.phoneNumber)
    ensures Valid(users + [u.(id := |users| + 1)])
  {
    var after := users + [u.(id := |users| + 1)];
    forall i, j | 0 <= i < j < |after| ensures after[i].phoneNumber != after[j].phoneNumber {
      if j == |users| {
        assert after[i] in users;
      }
    }
  }

  /** After appending a user whose number was free, looking the number up finds that user. */
  lemma {:induction false} FindAppendedByPhoneNumber(users: seq<User>, u: User)
    requires !PhoneTaken(users, u.phoneNumber)
    ensures FindByPhoneNumber(users + [u], u.phoneNumber) == Some(u)
  {
    if users != [] {
      assert (users + [u])[1..] == users[1..] + [u];
      assert !PhoneTaken(users[1..], u.phoneNumber) by {
        forall v | v in users[1..] ensures v.phoneNumber != u.phoneNumber {
          assert v in users;
        }
      }
      FindAppendedByPhoneNumber(users[1..], u);
    }
  }

  /** In a valid table the next ID is free, so after appending, looking it up finds the new row. */
  lemma {:induction false} FindAppendedByID(users: seq<User>, u: User)
    requires forall v :: v in users ==> v.id != u.id
    ensures FindByID(users + [u], u.id) == Some(u)
  {
    if users != [] {
      assert (users + [u])[1..] == users[1..] + [u];
      FindAppendedByID(users[1..], u);
    }
  }
}
