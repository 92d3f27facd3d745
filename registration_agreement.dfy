/**
  How the three registration paths relate: the request validator, the
  current user service and the older one. They share the repository model
  but check different things.
 */
module RegistrationAgreement {
  import Wrappers
  import opened GoString
  import opened UserStore
  import PhoneNumber
  import UserValidator
  import UserService
  import LegacyUserService

  /** Every number the validator's pattern accepts, IsValid accepts too. */
  lemma PhonePatternIsValid(phoneNumber: Bytes)
    requires UserValidator.PhonePattern(phoneNumber)
    ensures PhoneNumber.IsValid(phoneNumber)
  {
    PhoneNumber.IsValidExactly(phoneNumber);
  }

  /** The converse fails: IsValid takes a sign after "09", the pattern does not. */
  lemma SignedNumberSplitsTheChecks()
    ensures PhoneNumber.IsValid("09+12345678")
    ensures !UserValidator.PhonePattern("09+12345678")
  {
    PhoneNumber.SignedTailAccepted("09+12345678");
    var p: Bytes := "09+12345678";
    assert !IsDigit(p[2]);
  }

  /** A request the validator accepts passes every check of the user service, so only a failing repository write can refuse it. */
  lemma ValidatedRequestRegisters(s: UserService.Service, crypto: UserService.Crypto, req: UserValidator.RegisterRequest)
    requires UserValidator.Accepts(s.repo, req)
    requires RegisterOp !in s.repo.failing
    ensures UserService.Register(s, crypto, UserService.RegisterRequest(req.name, req.phoneNumber, req.password)).result.Success?
  {
    assert UserValidator.FieldCheck(s.repo, req, UserValidator.NameField).None?;
    assert UserValidator.FieldCheck(s.repo, req, UserValidator.PasswordField).None?;
    assert UserValidator.FieldCheck(s.repo, req, UserValidator.PhoneNumberField).None?;
    PhonePatternIsValid(req.phoneNumber);
  }

  /** Whatever the current service registers, the older one registers too, storing the same row without a password. */
  lemma CurrentImpliesLegacy(s: UserService.Service, crypto: UserService.Crypto, req: UserService.RegisterRequest)
    requires UserService.Register(s, crypto, req).result.Success?
    ensures var legacy := LegacyUserService.Register(LegacyUserService.Service(s.repo), LegacyUserService.RegisterRequest(req.name, req.phoneNumber));
            && legacy.result.Success?
            && legacy.result.value.user == UserService.Register(s, crypto, req).result.value.user.(password := [])
  {
  }

  /** The older service has no password rule: a short password is refused only by the current one. */
  lemma ShortPasswordOnlyCurrentRefuses(s: UserService.Service, crypto: UserService.Crypto, req: UserService.RegisterRequest)
    requires LegacyUserService.PassesChecks(s.repo, LegacyUserService.RegisterRequest(req.name, req.phoneNumber))
    requires RegisterOp !in s.repo.failing
    requires |req.password| < UserService.MinPasswordLength
    ensures UserService.Register(s, crypto, req).result == Wrappers.Failure(UserService.PasswordTooShort)
    ensures LegacyUserService.Register(LegacyUserService.Service(s.repo), LegacyUserService.RegisterRequest(req.name, req.phoneNumber)).result.Success?
  {
  }
}
