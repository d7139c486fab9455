/**
 * Request validation: the Bean Validation constraints of `Password`,
 * `RegisterUserRequest` (both copies), `UpdateAccountRequest` and
 * `TransferMoneyRequest`. A validator run is the set of violations it
 * reports, each a field and the message key of the failed constraint
 * (Hibernate Validator reports them in no particular order). An absent
 * JSON field is `None`.
 */
module Validation {
  import opened Wrappers
  import opened Entities
  import opened Exceptions

  datatype Violation = Violation(field: string, messageKey: string)

  /** One constraint's contribution: nothing when it holds, its violation otherwise. */
  function Check(holds: bool, field: string, key: string): set<Violation> {
    if holds then {} else {Violation(field, key)}
  }

  // ---------------------------------------------------------------------------
  // The built-in constraints

  /** `String.trim()` removes every character up to and including the space. */
  predicate IsBlank(s: string) {
    forall i :: 0 <= i < |s| ==> s[i] <= ' '
  }

  /** `@NotBlank`: present, and not only whitespace or control characters. */
  predicate NotBlank(v: Option<string>) {
    v.Some? && !IsBlank(v.value)
  }

  /** `@Size(min, max)`; an absent value is valid. */
  predicate SizeWithin(v: Option<string>, min: nat, max: nat) {
    v.None? || min <= |v.value| <= max
  }

  /** `@Positive`; an absent value is valid. */
  predicate Positive(v: Option<int>) {
    v.None? || v.value > 0
  }

  /** `@Email`: an absent or empty value is valid, anything else must pass the format check `isEmail`. */
  predicate EmailFormat(isEmail: string -> bool, v: Option<string>) {
    v.None? || v.value == "" || isEmail(v.value)
  }

  // ---------------------------------------------------------------------------
  // @Password

  const PASSWORD_REQUIRED: string := "app.password.required"
  const PASSWORD_SIZE_INVALID: string := "app.password.size.invalid"
  const PASSWORD_PATTERN_INVALID: string := "app.password.pattern.invalid"

  /** The class `[@#$%^&+=,.]`. */
  const PASSWORD_SPECIALS: string := "@#$%^&+=,."

  /** The characters a regex `.` does not match. */
  predicate IsLineTerminator(c: char) {
    c == '\n' || c == '\r' || c == '\U{0085}' || c == '\U{2028}' || c == '\U{2029}'
  }

  predicate HasDigit(s: string) { exists i :: 0 <= i < |s| && '0' <= s[i] <= '9' }
  predicate HasLower(s: string) { exists i :: 0 <= i < |s| && 'a' <= s[i] <= 'z' }
  predicate HasUpper(s: string) { exists i :: 0 <= i < |s| && 'A' <= s[i] <= 'Z' }
  predicate HasSpecial(s: string) { exists i :: 0 <= i < |s| && s[i] in PASSWORD_SPECIALS }

  /**
   * `^(?=.*[0-9])(?=.*[a-z])(?=.*[A-Z])(?=.*[@#$%^&+=,.]).*$`, matched
   * against the whole value: `.*` must consume every character, so there is
   * no line terminator, and each look-ahead finds its class somewhere.
   */
  predicate MatchesPasswordPattern(s: string) {
    && (forall i :: 0 <= i < |s| ==> !IsLineTerminator(s[i]))
    && HasDigit(s) && HasLower(s) && HasUpper(s) && HasSpecial(s)
  }

  /** `@Pattern`; an absent value is valid. */
  predicate PasswordPattern(v: Option<string>) {
    v.None? || MatchesPasswordPattern(v.value)
  }

  /** The three constraints `@Password` stacks, all evaluated. */
  function PasswordViolations(field: string, v: Option<string>): set<Violation> {
    Check(NotBlank(v), field, PASSWORD_REQUIRED)
    + Check(SizeWithin(v, 8, 255), field, PASSWORD_SIZE_INVALID)
    + Check(PasswordPattern(v), field, PASSWORD_PATTERN_INVALID)
  }

  /** A password is accepted exactly when it is non-blank, 8 to 255 characters long and matches the pattern. */
  lemma PasswordAccepted(field: string, p: string)
    ensures PasswordViolations(field, Some(p)) == {} <==>
            !IsBlank(p) && 8 <= |p| <= 255 && MatchesPasswordPattern(p)
  {
    if PasswordViolations(field, Some(p)) == {} {
      assert Violation(field, PASSWORD_REQUIRED) !in PasswordViolations(field, Some(p));
      assert Violation(field, PASSWORD_SIZE_INVALID) !in PasswordViolations(field, Some(p));
      assert Violation(field, PASSWORD_PATTERN_INVALID) !in PasswordViolations(field, Some(p));
    }
  }

  /** A missing password only violates "required": size and pattern accept an absent value. */
  lemma PasswordAbsent(field: string)
    ensures PasswordViolations(field, None) == {Violation(field, PASSWORD_REQUIRED)}
  {
  }

  /** A blank password never matches the pattern (it holds no digit), so "required" never comes alone for a present value. */
  lemma BlankPasswordFailsPattern(field: string, p: string)
    requires IsBlank(p)
    ensures Violation(field, PASSWORD_PATTERN_INVALID) in PasswordViolations(field, Some(p))
  {
  }

  /** The empty password violates all three constraints at once. */
  lemma EmptyPasswordViolatesAll(field: string)
    ensures PasswordViolations(field, Some("")) ==
            {Violation(field, PASSWORD_REQUIRED), Violation(field, PASSWORD_SIZE_INVALID),
             Violation(field, PASSWORD_PATTERN_INVALID)}
  {
  }

  /** "aA1." has every character class but only four characters. */
  lemma ShortPasswordViolatesSizeOnly(field: string)
    ensures PasswordViolations(field, Some("aA1.")) == {Violation(field, PASSWORD_SIZE_INVALID)}
  {
    var p := "aA1.";
    assert '0' <= p[2] <= '9' && 'a' <= p[0] <= 'z' && 'A' <= p[1] <= 'Z' && p[3] in PASSWORD_SPECIALS;
    assert !IsBlank(p) by { assert p[0] > ' '; }
  }

  /** "userPassword." has no digit, and violates only the pattern. */
  lemma NoDigitViolatesPatternOnly(field: string)
    ensures PasswordViolations(field, Some("userPassword.")) == {Violation(field, PASSWORD_PATTERN_INVALID)}
  {
    assert !IsBlank("userPassword.") by { assert "userPassword."[0] > ' '; }
    assert !HasDigit("userPassword.");
  }

  /** "123456789A." has no lowercase letter, and violates only the pattern. */
  lemma NoLowerViolatesPatternOnly(field: string)
    ensures PasswordViolations(field, Some("123456789A.")) == {Violation(field, PASSWORD_PATTERN_INVALID)}
  {
    assert !IsBlank("123456789A.") by { assert "123456789A."[0] > ' '; }
    assert !HasLower("123456789A.");
  }

  /** "123456789a." has no uppercase letter, and violates only the pattern. */
  lemma NoUpperViolatesPatternOnly(field: string)
    ensures PasswordViolations(field, Some("123456789a.")) == {Violation(field, PASSWORD_PATTERN_INVALID)}
  {
    assert !IsBlank("123456789a.") by { assert "123456789a."[0] > ' '; }
    assert !HasUpper("123456789a.");
  }

  /** "aA12345678" has no special character, and violates only the pattern. */
  lemma NoSpecialViolatesPatternOnly(field: string)
    ensures PasswordViolations(field, Some("aA12345678")) == {Violation(field, PASSWORD_PATTERN_INVALID)}
  {
    assert !IsBlank("aA12345678") by { assert "aA12345678"[0] > ' '; }
    assert !HasSpecial("aA12345678");
  }

  /** "aA12345678." satisfies every rule. */
  lemma GoodPasswordAccepted(field: string)
    ensures PasswordViolations(field, Some("aA12345678.")) == {}
  {
    var p := "aA12345678.";
    assert '0' <= p[2] <= '9' && 'a' <= p[0] <= 'z' && 'A' <= p[1] <= 'Z' && p[10] in PASSWORD_SPECIALS;
    assert !IsBlank(p) by { assert p[0] > ' '; }
  }

  // ---------------------------------------------------------------------------
  // RegisterUserRequest

  /**
   * The two copies of the record: `dto.user.RegisterUserRequest` requires a
   * non-blank email; `dto.RegisterUserRequest`, the one the registration
   * endpoint binds, lacks that constraint and uses upper-case message keys.
   */
  datatype RegisterRequestCopy = InUserPackage | InDtoPackage {
    predicate RequiresEmail() { this == InUserPackage }

    function UsernameRequiredKey(): string {
      if this == InUserPackage then "app.username.required" else "APP_USERNAME_REQUIRED"
    }

    function UsernameSizeKey(): string {
      if this == InUserPackage then "app.username.size.invalid" else "APP_USERNAME_SIZE_INVALID"
    }

    function EmailInvalidKey(): string {
      if this == InUserPackage then "app.email.invalid" else "APP_EMAIL_INVALID"
    }
  }

  const EMAIL_REQUIRED: string := "app.email.required"

  /** Every violation of a registration request; `isEmail` is the `@Email` format check. */
  function RegisterUserViolations(copy: RegisterRequestCopy, isEmail: string -> bool,
                                  username: Option<string>, password: Option<string>, email: Option<string>)
    : set<Violation>
  {
    Check(NotBlank(username), "username", copy.UsernameRequiredKey())
    + Check(SizeWithin(username, 0, 255), "username", copy.UsernameSizeKey())
    + PasswordViolations("password", password)
    + (if copy.RequiresEmail() then Check(NotBlank(email), "email", EMAIL_REQUIRED) else {})
    + Check(EmailFormat(isEmail, email), "email", copy.EmailInvalidKey())
  }

  /** In either copy the username is required and may be 255 characters long, but no longer. */
  lemma RegisterUsernameRules(copy: RegisterRequestCopy, isEmail: string -> bool,
                              username: Option<string>, password: Option<string>, email: Option<string>)
    ensures var r := RegisterUserViolations(copy, isEmail, username, password, email);
            && (Violation("username", copy.UsernameRequiredKey()) in r <==> !NotBlank(username))
            && (Violation("username", copy.UsernameSizeKey()) in r <==> username.Some? && |username.value| > 255)
  {
    var u := Check(NotBlank(username), "username", copy.UsernameRequiredKey())
             + Check(SizeWithin(username, 0, 255), "username", copy.UsernameSizeKey());
    var others := PasswordViolations("password", password)
                  + (if copy.RequiresEmail() then Check(NotBlank(email), "email", EMAIL_REQUIRED) else {})
                  + Check(EmailFormat(isEmail, email), "email", copy.EmailInvalidKey());
    assert RegisterUserViolations(copy, isEmail, username, password, email) == u + others;
    assert forall v :: v in others ==> v.field != "username";
    assert copy.UsernameRequiredKey() != copy.UsernameSizeKey();
  }

  /** In either copy the password's violations are exactly those of `@Password`. */
  lemma RegisterPasswordRules(copy: RegisterRequestCopy, isEmail: string -> bool,
                              username: Option<string>, password: Option<string>, email: Option<string>)
    ensures var r := RegisterUserViolations(copy, isEmail, username, password, email);
            forall v :: v in r && v.field == "password" <==> v in PasswordViolations("password", password)
  {
  }

  /** In either copy a non-empty email that fails the format check is reported. */
  lemma RegisterEmailFormatRule(copy: RegisterRequestCopy, isEmail: string -> bool,
                                username: Option<string>, password: Option<string>, email: Option<string>)
    ensures Violation("email", copy.EmailInvalidKey()) in RegisterUserViolations(copy, isEmail, username, password, email)
            <==> email.Some? && email.value != "" && !isEmail(email.value)
  {
    assert copy.EmailInvalidKey() != EMAIL_REQUIRED;
  }

  /** The `dto.user` copy rejects a missing, empty or blank email. */
  lemma BlankEmailRejected(isEmail: string -> bool, username: Option<string>, password: Option<string>,
                           email: Option<string>)
    requires !NotBlank(email)
    ensures Violation("email", EMAIL_REQUIRED) in RegisterUserViolations(InUserPackage, isEmail, username, password, email)
  {
  }

  /** A registration request with a valid username and password and an email the format check accepts. */
  lemma WellFormedRegistrationAccepted(isEmail: string -> bool, copy: RegisterRequestCopy)
    requires isEmail("test@email.com")
    ensures RegisterUserViolations(copy, isEmail, Some("username"), Some("aA12345678."), Some("test@email.com")) == {}
  {
    GoodPasswordAccepted("password");
    assert NotBlank(Some("username")) by { assert "username"[0] > ' '; }
    assert NotBlank(Some("test@email.com")) by { assert "test@email.com"[0] > ' '; }
  }

  /**
   * Either copy accepts a registration with a non-blank username of at most
   * 255 characters, a valid password and a non-blank email the format check
   * accepts.
   */
  lemma ValidRegistrationAccepted(copy: RegisterRequestCopy, isEmail: string -> bool, username: string, email: string)
    requires !IsBlank(username) && |username| <= 255
    requires !IsBlank(email) && isEmail(email)
    ensures RegisterUserViolations(copy, isEmail, Some(username), Some("aA12345678."), Some(email)) == {}
  {
    GoodPasswordAccepted("password");
  }

  /**
   * The copy the endpoint binds accepts an empty email: no constraint of it
   * rejects "", since `@Email` treats the empty string as valid.
   */
  lemma EmptyEmailAcceptedByBoundCopy(isEmail: string -> bool)
    ensures RegisterUserViolations(InDtoPackage, isEmail, Some("username"), Some("aA12345678."), Some("")) == {}
    ensures RegisterUserViolations(InUserPackage, isEmail, Some("username"), Some("aA12345678."), Some("")) ==
            {Violation("email", EMAIL_REQUIRED)}
  {
    GoodPasswordAccepted("password");
    assert NotBlank(Some("username")) by { assert "username"[0] > ' '; }
  }

  // ---------------------------------------------------------------------------
  // UpdateAccountRequest

  const ACCOUNT_NAME_REQUIRED: string := "app.account.name.required"
  const ACCOUNT_BALANCE_REQUIRED: string := "app.account.balance.required"
  const ACCOUNT_BALANCE_POSITIVE: string := "app.account.balance.positive"

  /** `@NotBlank name`, `@NotNull @Positive balance`. */
  function UpdateAccountViolations(name: Option<string>, balance: Option<int>): set<Violation> {
    Check(NotBlank(name), "name", ACCOUNT_NAME_REQUIRED)
    + Check(balance.Some?, "balance", ACCOUNT_BALANCE_REQUIRED)
    + Check(Positive(balance), "balance", ACCOUNT_BALANCE_POSITIVE)
  }

  /**
   * An update passes validation exactly when the name has a non-whitespace
   * character and the balance is present and strictly positive; a missing
   * balance is reported as required only.
   */
  lemma UpdateAccountAccepted(name: Option<string>, balance: Option<int>)
    ensures UpdateAccountViolations(name, balance) == {} <==>
            name.Some? && !IsBlank(name.value) && balance.Some? && balance.value > 0
    ensures balance.None? ==> Violation("balance", ACCOUNT_BALANCE_POSITIVE) !in UpdateAccountViolations(name, balance)
    ensures (balance.Some? && balance.value <= 0) <==>
            Violation("balance", ACCOUNT_BALANCE_POSITIVE) in UpdateAccountViolations(name, balance)
  {
    if UpdateAccountViolations(name, balance) == {} {
      assert Violation("name", ACCOUNT_NAME_REQUIRED) !in UpdateAccountViolations(name, balance);
      assert Violation("balance", ACCOUNT_BALANCE_REQUIRED) !in UpdateAccountViolations(name, balance);
      assert Violation("balance", ACCOUNT_BALANCE_POSITIVE) !in UpdateAccountViolations(name, balance);
    }
  }

  // ---------------------------------------------------------------------------
  // TransferMoneyRequest

  const FROM_REQUIRED: string := "app.transaction.from.required"
  const TO_REQUIRED: string := "app.transaction.to.required"
  const AMOUNT_REQUIRED: string := "app.transaction.amount.required"
  const AMOUNT_POSITIVE: string := "app.transaction.amount.positive"
  const FROM_AND_TO_EQUAL: string := "app.transaction.from.and.to.equal"

  /** The exception the validator wraps a failing constraint method in. */
  const VALIDATION_EXCEPTION: string := "ValidationException"

  /** The field constraints of the record, without the `@AssertTrue` method. */
  function TransferFieldViolations(from: Option<Id>, to: Option<Id>, amount: Option<int>): set<Violation> {
    Check(from.Some?, "from", FROM_REQUIRED)
    + Check(to.Some?, "to", TO_REQUIRED)
    + Check(amount.Some?, "amount", AMOUNT_REQUIRED)
    + Check(Positive(amount), "amount", AMOUNT_POSITIVE)
  }

  /**
   * Validation as written: `isFromAndToDifferent` calls `from.equals(to)`,
   * which throws on a null `from`, and the validator gives up with an
   * exception instead of a set of violations.
   */
  function TransferViolationsAsWritten(from: Option<Id>, to: Option<Id>, amount: Option<int>)
    : Result<set<Violation>, AppException>
  {
    if from.None? then Err(OtherException(VALIDATION_EXCEPTION))
    else Ok(TransferFieldViolations(from, to, amount)
            + Check(to.None? || from.value != to.value, "fromAndToDifferent", FROM_AND_TO_EQUAL))
  }

  /** Validation with a null-safe `isFromAndToDifferent`, which leaves missing ids to `@NotNull`. */
  function TransferViolations(from: Option<Id>, to: Option<Id>, amount: Option<int>): set<Violation> {
    TransferFieldViolations(from, to, amount)
    + Check(from.None? || to.None? || from.value != to.value, "fromAndToDifferent", FROM_AND_TO_EQUAL)
  }

  /** A request without `from` makes the validator as written throw, whatever else it holds. */
  lemma MissingFromCrashesValidator(to: Option<Id>, amount: Option<int>)
    ensures TransferViolationsAsWritten(None, to, amount) == Err(OtherException(VALIDATION_EXCEPTION))
  {
  }

  /** Whenever `from` is present the two validators agree. */
  lemma TransferValidatorsAgree(from: Id, to: Option<Id>, amount: Option<int>)
    ensures TransferViolationsAsWritten(Some(from), to, amount) == Ok(TransferViolations(Some(from), to, amount))
  {
  }

  /** Each rule of the record rejects its own case; a missing `from` is now reported as required. */
  lemma TransferRules(from: Option<Id>, to: Option<Id>, amount: Option<int>)
    ensures var r := TransferViolations(from, to, amount);
            && (Violation("from", FROM_REQUIRED) in r <==> from.None?)
            && (Violation("to", TO_REQUIRED) in r <==> to.None?)
            && (Violation("amount", AMOUNT_REQUIRED) in r <==> amount.None?)
            && (Violation("amount", AMOUNT_POSITIVE) in r <==> amount.Some? && amount.value <= 0)
            && (Violation("fromAndToDifferent", FROM_AND_TO_EQUAL) in r <==>
                  from.Some? && to.Some? && from.value == to.value)
  {
  }

  /** A transfer request passes exactly when both ids are present and differ and the amount is positive. */
  lemma TransferAccepted(from: Option<Id>, to: Option<Id>, amount: Option<int>)
    ensures TransferViolations(from, to, amount) == {} <==>
            from.Some? && to.Some? && amount.Some? && amount.value > 0 && from.value != to.value
  {
    TransferRules(from, to, amount);
  }
}
