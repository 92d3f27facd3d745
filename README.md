# GameApp account and waiting-list rules in Dafny

This project models the decision logic of the GameApp Go backend:

- the phone-number format check (`phonenumber.IsValid`), including the part of `strconv.Atoi` it relies on;
- user registration, login and profile lookup in `service/userservice`, and the older registration in `service/userService`;
- the registration-request validator in `validator/uservalidator`;
- the validity checks of the question enums in `entity/question.go`;
- the waiting-list façade `matchingservice.Service.AddToWaitingList`.

Go strings are byte sequences (`GoString.Bytes`), and `len` counts bytes.
Each byte is written as the character with that code.
The services are pure functions. Each one returns an `Outcome` that holds three things: the Go result, the repository state afterwards, and the repository calls it made, in order.

The user repository is an abstract store (`UserStore.Repository`).
It holds the users table in insertion order; row i holds the user with ID i + 1.
It also holds the set of repository operations that report an error.
A failing database is therefore an input of the model.
MD5 hashing and JWT creation are uninterpreted: they are the function-typed fields of `UserService.Crypto`, so every property holds for any hash and any token signer.

The waiting list behind `matchingservice.Repo` is a set of (user ID, category) pairs plus a failure flag.
The code enqueues and does nothing else.
Matchmaking, eviction, presence and a scheduler have no code in the repository, so none is modelled here.

Modules, one per source file or package: `Strconv` and `PhoneNumber` (pkg/phonenumber), `Entity` (entity), `UserStore` (the repository interfaces and the MySQL user table), `UserService`, `LegacyUserService` (service/userService), `UserValidator`, `MatchingService`, and `RegistrationAgreement` for lemmas that relate the three registration paths. `Wrappers`, `GoString` and `RichError` hold the shared types.

## Model

| member | source | states |
|---|---|---|
| Strconv.DecimalValue | pkg/phonenumber/phonenumber.go:26 | the value Atoi accumulates from a digit string is below 10^len, so it has at most as many decimal digits as the string has bytes |
| Strconv.ParseDecimal | pkg/phonenumber/phonenumber.go:26 | Atoi's result for a string of fewer than 19 bytes: a value below 10^len in magnitude, at most 0 when the string starts with '-' and at least 0 otherwise, or a syntax error |
| Strconv.ParseDecimalAcceptsExactly | pkg/phonenumber/phonenumber.go:26 | Atoi accepts exactly a digit, or a sign followed by at least one byte, with digits in every later position |
| Strconv.ParseDecimalFitsInt64 | pkg/phonenumber/phonenumber.go:26 | below 19 bytes no accepted string leaves the int64 range, so the fast path needs no overflow check |
| Strconv.Atoi | pkg/phonenumber/phonenumber.go:26 | the byte loop of Atoi's fast path, with uint8 wrap-around of `ch - '0'`, returns exactly ParseDecimal's value, or 0 and ErrSyntax |
| PhoneNumber.IsValid | pkg/phonenumber/phonenumber.go:12-32 | an accepted number has 11 bytes and starts with "09" |
| PhoneNumber.IsValidExactly | pkg/phonenumber/phonenumber.go:16-31 | both directions: accepted iff 11 bytes, "09", a digit or a sign at index 2, and digits at indices 3 to 10 |
| PhoneNumber.DigitsAccepted | pkg/phonenumber/phonenumber.go:16-31 | "09" followed by exactly nine digits is accepted |
| PhoneNumber.NonDigitRejected | pkg/phonenumber/phonenumber.go:26-28 | a non-digit at index 3 to 10, or a byte at index 2 that is neither digit nor sign, is rejected |
| PhoneNumber.SignedTailAccepted | pkg/phonenumber/phonenumber.go:11-28 | "09", then '+' or '-', then eight digits is accepted, although the doc comment says the rest is numeric |
| PhoneNumber.SignedTailExample | pkg/phonenumber/phonenumber.go:26-28 | "09-12345678" is accepted |
| Entity.ChoiceIsValid | entity/question.go:27-35 | a choice is valid exactly when 1 <= c <= 4 |
| Entity.ValidChoicesAreNamed | entity/question.go:20-35 | the valid choices are exactly the constants A, B, C, D, whose values are 1 to 4 |
| Entity.FourValidChoices | entity/question.go:18-35 | exactly four of the 256 uint8 values are valid choices |
| Entity.DifficultyIsValid | entity/question.go:45-52 | a difficulty is valid exactly when 1 <= d <= 3 |
| Entity.ValidDifficultiesAreNamed | entity/question.go:37-52 | the valid difficulties are exactly Easy, Medium and Hard, whose values are 1 to 3 |
| Entity.ThreeValidDifficulties | entity/question.go:37-52 | exactly three of the 256 uint8 values are valid difficulties, so 0 and 4 to 255 are not |
| UserStore.FindByPhoneNumber | service/userservice/service.go:26-32 | the user found is the first stored row with the requested number; none is found exactly when no stored user has it |
| UserStore.FindByID | service/userservice/service.go:33-34 | the user found is the first stored row with the requested ID; none is found exactly when no stored user has it |
| UserStore.IsPhoneNumberUnique | repository/mysql/user.go:9-23 | errors exactly when the operation fails; otherwise true iff no stored user has the number |
| UserStore.Register | repository/mysql/user.go:25-34 | on success the user is appended with the next auto-increment ID and returned with it; on failure the store is unchanged |
| UserStore.GetUserByPhoneNumber | service/userservice/service.go:26-32 | errors exactly when the operation fails; otherwise the exist flag is true iff a stored user has the number, and the returned user is then the first row with it |
| UserStore.GetUserByID | service/userservice/service.go:33-34 | a failing call or a missing ID is an error (record not found); a working call on a stored ID returns the stored user with that ID |
| UserStore.RegisterKeepsValid | repository/mysql/user.go:25-34 | appending a user whose number is free keeps IDs in row order and numbers distinct |
| UserStore.FindAppendedByPhoneNumber | repository/mysql/user.go:25-34 | after appending a user with a free number, looking the number up finds that user |
| UserStore.FindAppendedByID | repository/mysql/user.go:25-34 | after appending a user with a free ID, looking the ID up finds that user |
| UserService.Register | service/userservice/service.go:69-113 | checks run in the order format, uniqueness, name (at least 3 bytes), password (at least 8 bytes), and the first failure decides the error; no repository call precedes the format check; repo.Register is called iff every check passed, with ID 0 and the hashed password; success iff all checks and the write pass; the response is the stored row; storage changes only on success |
| UserService.Login | service/userservice/service.go:129-150 | one lookup and no writes; a lookup error is reported iff the lookup fails; an unknown number and a wrong password give the same error; a stored user whose hash matches gets a token exactly when createToken succeeds for that user's ID, and otherwise the unexpected TokenCreationFailed error; only such a user gets a token |
| UserService.Profile | service/userservice/service.go:175-185 | one lookup and no writes; succeeds iff the lookup works and a user has the ID, answering that user's name; otherwise the repository's error wrapped: StoreFailure for a failing lookup, RecordNotFound for a missing ID |
| UserService.RegisterKeepsStoreValid | service/userservice/service.go:77-112 | registration keeps IDs in row order and each phone number stored once |
| UserService.RegisterThenLogin | service/userservice/service.go:98-149 | a user who just registered logs in with the same number and password and gets the token for the new ID |
| UserService.RegisterThenProfile | service/userservice/service.go:98-183 | after registering, the profile of the new ID shows the registered name |
| UserService.RegisterTwiceRejected | service/userservice/service.go:77-83 | once a number is registered, registering it again is refused as already registered |
| UserService.WrongCredentialsIndistinguishable | service/userservice/service.go:136-142 | an unknown number and a wrong password produce the identical error |
| LegacyUserService.Register | service/userService/service.go:31-65 | format check before any repository call; uniqueness before the name check; repo.Register called iff all checks pass, with ID 0 and the request's name and number; a repository error is surfaced; success iff valid, unique, name at least 3 bytes and the write passes, returning the stored row |
| LegacyUserService.RegisterKeepsStoreValid | service/userService/service.go:39-64 | registration keeps IDs in row order and each phone number stored once |
| UserValidator.CheckPhoneNumberUniqueness | validator/uservalidator/validator.go:57-70 | passes a repository error through, returns "phone number is not unique" when the number is taken, and nil otherwise |
| UserValidator.NameError | validator/uservalidator/validator.go:29 | the name passes iff its length is between 3 and 50 bytes; empty gives the Required error, any other failure the Length error |
| UserValidator.PasswordError | validator/uservalidator/validator.go:31-32 | the password passes iff it has at least 8 bytes, all from A-Z a-z 0-9 ! @ # % ^ & * |
| UserValidator.PhoneNumberError | validator/uservalidator/validator.go:34-36 | the number passes iff it is "09" plus nine digits and the repository reports it unique; a malformed number is refused without consulting the repository |
| UserValidator.StructErrors | validator/uservalidator/validator.go:27-37 | the validation error map has an entry for each refused field and no other, and is empty iff all fields pass |
| UserValidator.CollectFieldErrors | validator/uservalidator/validator.go:38-47 | the loop copies exactly the non-nil entries of the validation error map, with their errors |
| UserValidator.ValidateRegisterRequest | validator/uservalidator/validator.go:24-55 | (nil, nil) when every field passes; otherwise a non-empty map with exactly one entry per refused field and an "invalid input" error of kind Invalid |
| MatchingService.RepoAddToWaitingList | service/matchingservice/service.go:11-13 | add the pair if it is not already waiting; a failing repository changes nothing |
| MatchingService.AddToWaitingList | service/matchingservice/service.go:28-39 | one repository call with the request's user and category; on success the configured timeout and the new state is the old one with the pair added; on error an Unexpected-kind error and nothing changed |
| MatchingService.AddExistingUnchanged | service/matchingservice/service.go:31-32 | adding a pair that already waits leaves the waiting list unchanged |
| MatchingService.AddIdempotent | service/matchingservice/service.go:31-32 | adding the same pair twice gives the same waiting list as adding it once |
| MatchingService.AddTouchesOnlyItsCategory | service/matchingservice/service.go:31-32 | after success the user waits in the category, and every other category keeps its users |
| MatchingService.TimeoutIgnoresRequest | service/matchingservice/service.go:38 | any two successful requests get the same response, the configured timeout |
| RegistrationAgreement.PhonePatternIsValid | validator/uservalidator/validator.go:35 | every number the validator's pattern accepts is accepted by phonenumber.IsValid |
| RegistrationAgreement.SignedNumberSplitsTheChecks | pkg/phonenumber/phonenumber.go:26-28 | "09+12345678" passes IsValid but not the validator's pattern, so the converse fails |
| RegistrationAgreement.ValidatedRequestRegisters | validator/uservalidator/validator.go:27-37 | a request the validator accepts passes every check of userservice.Register, and succeeds unless the repository write fails |
| RegistrationAgreement.CurrentImpliesLegacy | service/userService/service.go:31-65 | whatever the current service registers, the older one registers too, storing the same row without a password |
| RegistrationAgreement.ShortPasswordOnlyCurrentRefuses | service/userservice/service.go:90-93 | with no password rule, the older service accepts a request the current one refuses for a short password |

## Left out

- Strconv.Atoi and Strconv.ParseDecimal cover strings shorter than 19 bytes only. Atoi's slow path (`ParseInt`, range errors) is not modelled, because `IsValid` only passes 9-byte tails.
- Error texts are not modelled as strings. The validation library's own rule messages and the text of wrapped causes become constructors (`Blank`, `LengthOutOfRange`, `FormatMismatch`, `RepositoryError`, and `StoreFailure` for the cause a failing repository reports). The constants "invalid input" and "phone number is not unique" are kept as strings.
- RichError keeps only op, kind and message. The wrapped cause and the `meta` map of the request are not modelled. The richerror package is not part of this model.
- `getMD5Hash` and `createToken` are uninterpreted. The JWT claims, the 7-day expiry read from the clock, and the HS256 signing are left out.
- The validator's field keys come from the `dto.RegisterRequest` JSON tags, and dto is not part of this model. Fields are a three-valued `Field` type.
- `ValidateStruct` is modelled as always returning a `validation.Errors` map. With these rules it never returns another error type, so the `ok == false` branch (an empty map) is not modelled.
- A repository call that reports an error is assumed to leave storage unchanged.
- User IDs are modelled as the gap-free row index + 1. The MySQL repository returns `LastInsertId()`, which matches this only while auto-increment has no gaps and no row is deleted.
- A missing phone number is read as `exist == false` with no error, which is what `Login` expects. The interface comment on `GetUserByPhoneNumber` says instead that absence is reported as an error; that reading is not modelled, and `WrongCredentialsIndistinguishable` depends on this choice.
- Concurrency is not modelled: races between the uniqueness query and the insert, and concurrent enqueues.
- Left out as process wiring and I/O: main.go, cmd/httpserver, scheduler/secheduler.go, delivery/httpserver, SQL, Redis, configuration loading. The scheduler loop only prints and sleeps.
- service/userservice/profile.go redefines `Profile` with other parameter types, so the package cannot compile as shown. Only the service.go version is modelled.
- service/userService/service.go imports `pkg/phoneNumber`, but the package on disk is `pkg/phonenumber`. It is modelled as calling the same `IsValid`.
- entity/user.go declares no Password field, but both services use one. The model's `User` has one, and the older service leaves it at Go's zero value "".
- `entity.Category` and the `param` request types are not part of this model. Category is a string, and `time.Duration` is a signed 64-bit nanosecond count.
- The repository has no code for matchmaking, presence, timeout eviction, removal from the waiting list or a scheduler state machine; none is modelled.
