/**
 * Registration and login: `DBUserService.registerUser` and `loginUser` over
 * the user table. The password encoder (`encode`, `matches`) and the
 * identity provider's token endpoint (`accessToken`) are parameters.
 */
module UserService {
  import opened Wrappers
  import opened Entities
  import opened Exceptions
  import opened Repositories
  import opened Validation

  /** What Spring Data throws when a single-result query finds several rows. */
  const INCORRECT_RESULT_SIZE: string := "IncorrectResultSizeDataAccessException"

  /** The user table after a call, and what the call returned or threw. */
  datatype RegisterResult = RegisterResult(users: seq<User>, response: Result<Id, AppException>)

  /**
   * `registerUser`: refuse a taken username or email, otherwise store a new
   * user with the encoded password under the id `newId` the database assigns.
   */
  function Register(users: seq<User>, username: string, password: string, email: string,
                    encode: string -> string, newId: Id): RegisterResult
  {
    if ExistsByUsernameOrEmail(users, username, email) then RegisterResult(users, Err(UserAlreadyExistsException))
    else RegisterResult(users + [User(newId, username, encode(password), email)], Ok(newId))
  }

  /**
   * `loginUser`: the single user whose username or email is the identifier,
   * if the password matches the stored hash, gets the identity provider's
   * access token. Several matching rows make the single-result query throw.
   */
  function Login(users: seq<User>, identifier: string, password: string,
                 matches: (string, string) -> bool, accessToken: User -> string): Result<string, AppException>
  {
    var found := FindAllByUsernameOrEmail(users, identifier);
    if |found| == 0 then Err(UserNotFoundException)
    else if |found| > 1 then Err(OtherException(INCORRECT_RESULT_SIZE))
    else if !matches(password, found[0].password) then Err(UserOrPasswordInvalidException)
    else Ok(accessToken(found[0]))
  }

  /** The `unique` columns of `app_user`: no two rows share a username or an email. */
  predicate UniqueColumns(users: seq<User>) {
    forall i, j :: 0 <= i < |users| && 0 <= j < |users| && i != j ==>
      users[i].username != users[j].username && users[i].email != users[j].email
  }

  /** No identifier names two rows: beyond `UniqueColumns`, no username equals another row's email. */
  predicate Unambiguous(users: seq<User>) {
    && UniqueColumns(users)
    && forall i, j :: 0 <= i < |users| && 0 <= j < |users| && i != j ==> users[i].username != users[j].email
  }

  // ---------------------------------------------------------------------------
  // Registration

  /** A username or email already present is refused with UserAlreadyExists, and nothing is saved. */
  lemma RegisterRejectsTaken(users: seq<User>, username: string, password: string, email: string,
                             encode: string -> string, newId: Id, i: nat)
    requires i < |users| && (users[i].username == username || users[i].email == email)
    ensures Register(users, username, password, email, encode, newId) == RegisterResult(users, Err(UserAlreadyExistsException))
  {
  }

  /**
   * Otherwise exactly one user is added after the existing ones, with the
   * request's username and email and the encoded password, its id is
   * returned, and the username now resolves to it.
   */
  lemma RegisterAddsOne(users: seq<User>, username: string, password: string, email: string,
                        encode: string -> string, newId: Id)
    requires !ExistsByUsernameOrEmail(users, username, email)
    ensures var r := Register(users, username, password, email, encode, newId);
            && r.response == Ok(newId)
            && |r.users| == |users| + 1 && r.users[..|users|] == users
            && var u := r.users[|users|];
               && u.id == newId && u.username == username && u.email == email && u.password == encode(password)
               && FindByUsername(r.users, username) == Some(u)
  {
    var r := Register(users, username, password, email, encode, newId);
    FindByUsernameAppend(users, r.users[|users|], username);
  }

  lemma {:induction false} FindByUsernameAppend(users: seq<User>, u: User, username: string)
    requires forall i :: 0 <= i < |users| ==> users[i].username != username
    requires u.username == username
    ensures FindByUsername(users + [u], username) == Some(u)
  {
    if users == [] {
    } else {
      assert (users + [u])[1..] == users[1..] + [u];
      FindByUsernameAppend(users[1..], u, username);
    }
  }

  /** Registration never breaks the unique constraints on username and email, so the save never fails on them. */
  lemma RegisterKeepsUniqueColumns(users: seq<User>, username: string, password: string, email: string,
                                   encode: string -> string, newId: Id)
    requires UniqueColumns(users)
    ensures UniqueColumns(Register(users, username, password, email, encode, newId).users)
  {
  }

  /**
   * Registration keeps the database consistent when the database gives the
   * new row an unused id: user ids stay distinct, and every account's owner
   * is still a stored user.
   */
  lemma RegisterKeepsValid(t: Tables, username: string, password: string, email: string,
                           encode: string -> string, newId: Id)
    requires t.Valid() && t.FreshUserId(newId)
    ensures t.(users := Register(t.users, username, password, email, encode, newId).users).Valid()
  {
    var t' := t.(users := Register(t.users, username, password, email, encode, newId).users);
    forall k | k in t'.accounts
      ensures t'.HasUser(t'.accounts[k].owner)
    {
      var i :| 0 <= i < |t.users| && t.users[i].id == t.accounts[k].owner;
      assert t'.users[i] == t.users[i];
    }
  }

  // ---------------------------------------------------------------------------
  // Login

  /** An identifier that is nobody's username or email raises UserNotFound. */
  lemma LoginUnknown(users: seq<User>, identifier: string, password: string,
                     matches: (string, string) -> bool, accessToken: User -> string)
    requires forall i :: 0 <= i < |users| ==> users[i].username != identifier && users[i].email != identifier
    ensures Login(users, identifier, password, matches, accessToken) == Err(UserNotFoundException)
  {
  }

  /** When one user matches the identifier, login fails with UserOrPasswordInvalid exactly when the password does not match. */
  lemma LoginOneMatch(users: seq<User>, identifier: string, password: string,
                      matches: (string, string) -> bool, accessToken: User -> string, u: User)
    requires FindAllByUsernameOrEmail(users, identifier) == [u]
    ensures var r := Login(users, identifier, password, matches, accessToken);
            && (r == Err(UserOrPasswordInvalidException) <==> !matches(password, u.password))
            && (r == Ok(accessToken(u)) <==> matches(password, u.password))
  {
  }

  /** A successful login answers with the token of a user the identifier names and whose password matches. */
  lemma LoginSuccessIsAuthentic(users: seq<User>, identifier: string, password: string,
                                matches: (string, string) -> bool, accessToken: User -> string)
    requires Login(users, identifier, password, matches, accessToken).Ok?
    ensures exists u :: && u in users && (u.username == identifier || u.email == identifier)
                        && matches(password, u.password)
                        && Login(users, identifier, password, matches, accessToken).value == accessToken(u)
  {
    var found := FindAllByUsernameOrEmail(users, identifier);
    assert found[0] in found;
  }

  lemma NoMatchFindsNothing(users: seq<User>, identifier: string)
    requires forall i :: 0 <= i < |users| ==> users[i].username != identifier && users[i].email != identifier
    ensures FindAllByUsernameOrEmail(users, identifier) == []
  {
  }

  /** In an unambiguous table, at most one row answers to any identifier. */
  lemma {:induction false} AtMostOneMatch(users: seq<User>, identifier: string)
    requires Unambiguous(users)
    ensures |FindAllByUsernameOrEmail(users, identifier)| <= 1
  {
    if users != [] {
      assert Unambiguous(users[1..]) by {
        forall i, j | 0 <= i < |users| - 1 && 0 <= j < |users| - 1 && i != j
          ensures users[1..][i].username != users[1..][j].username && users[1..][i].email != users[1..][j].email
                  && users[1..][i].username != users[1..][j].email
        {
          assert users[1..][i] == users[i + 1] && users[1..][j] == users[j + 1];
        }
      }
      AtMostOneMatch(users[1..], identifier);
      if users[0].username == identifier || users[0].email == identifier {
        forall j | 0 <= j < |users| - 1
          ensures users[1..][j].username != identifier && users[1..][j].email != identifier
        {
          assert users[1..][j] == users[j + 1];
        }
        NoMatchFindsNothing(users[1..], identifier);
      }
    }
  }

  // ---------------------------------------------------------------------------
  // Registration as written can make a later login fail

  /**
   * Registering a user whose username is another user's email passes every
   * check and every unique constraint, after which logging in with that
   * identifier finds two rows and fails, whatever the password.
   */
  lemma AmbiguousLoginAfterRegister(isEmail: string -> bool, encode: string -> string,
                                    matches: (string, string) -> bool, accessToken: User -> string)
    requires isEmail("bob@example.com") && isEmail("alice@example.com")
    ensures var first := Register([], "bob", "aA12345678.", "bob@example.com", encode, 1);
            var second := Register(first.users, "bob@example.com", "aA12345678.", "alice@example.com", encode, 2);
            && RegisterUserViolations(InDtoPackage, isEmail, Some("bob"), Some("aA12345678."),
                                      Some("bob@example.com")) == {}
            && RegisterUserViolations(InDtoPackage, isEmail, Some("bob@example.com"), Some("aA12345678."),
                                      Some("alice@example.com")) == {}
            && first.response == Ok(1) && second.response == Ok(2)
            && UniqueColumns(second.users)
            && Login(second.users, "bob@example.com", "aA12345678.", matches, accessToken)
               == Err(OtherException(INCORRECT_RESULT_SIZE))
  {
    assert !IsBlank("bob") by { assert "bob"[0] > ' '; }
    assert !IsBlank("bob@example.com") by { assert "bob@example.com"[0] > ' '; }
    assert !IsBlank("alice@example.com") by { assert "alice@example.com"[0] > ' '; }
    ValidRegistrationAccepted(InDtoPackage, isEmail, "bob", "bob@example.com");
    ValidRegistrationAccepted(InDtoPackage, isEmail, "bob@example.com", "alice@example.com");
    var first := Register([], "bob", "aA12345678.", "bob@example.com", encode, 1);
    var bob := User(1, "bob", encode("aA12345678."), "bob@example.com");
    assert first.users == [bob];
    var second := Register(first.users, "bob@example.com", "aA12345678.", "alice@example.com", encode, 2);
    var alice := User(2, "bob@example.com", encode("aA12345678."), "alice@example.com");
    assert !ExistsByUsernameOrEmail([bob], "bob@example.com", "alice@example.com");
    assert second.users == [bob, alice];
    assert [bob, alice][1..] == [alice];
    assert [alice][1..] == [];
    assert FindAllByUsernameOrEmail(second.users, "bob@example.com") == [bob, alice];
  }

  /** Some existing row already uses `s` as its username or its email. */
  predicate IdentifierTaken(users: seq<User>, s: string) {
    exists i :: 0 <= i < |users| && (users[i].username == s || users[i].email == s)
  }

  /**
   * Registration that also refuses a username that is some user's email and
   * an email that is some user's username, so that every identifier keeps
   * naming at most one user.
   */
  function RegisterChecked(users: seq<User>, username: string, password: string, email: string,
                           encode: string -> string, newId: Id): RegisterResult
  {
    if IdentifierTaken(users, username) || IdentifierTaken(users, email) then
      RegisterResult(users, Err(UserAlreadyExistsException))
    else RegisterResult(users + [User(newId, username, encode(password), email)], Ok(newId))
  }

  /** The checked registration refuses everything the source refuses, and keeps the table unambiguous. */
  lemma RegisterCheckedKeepsUnambiguous(users: seq<User>, username: string, password: string, email: string,
                                        encode: string -> string, newId: Id)
    requires Unambiguous(users)
    ensures var r := RegisterChecked(users, username, password, email, encode, newId);
            && Unambiguous(r.users)
            && (Register(users, username, password, email, encode, newId).response.Err? ==> r.response.Err?)
  {
    var r := RegisterChecked(users, username, password, email, encode, newId);
    if ExistsByUsernameOrEmail(users, username, email) {
      var i :| 0 <= i < |users| && (users[i].username == username || users[i].email == email);
      assert IdentifierTaken(users, username) || IdentifierTaken(users, email);
    }
    if r.response.Ok? {
      var n := |users|;
      forall i, j | 0 <= i < |r.users| && 0 <= j < |r.users| && i != j
        ensures r.users[i].username != r.users[j].username && r.users[i].email != r.users[j].email
                && r.users[i].username != r.users[j].email
      {
        if i == n {
          assert !(r.users[j].username == username || r.users[j].email == username);
          assert !(r.users[j].username == email || r.users[j].email == email);
        } else if j == n {
          assert !(r.users[i].username == username || r.users[i].email == username);
          assert !(r.users[i].username == email || r.users[i].email == email);
        }
      }
    }
  }

  /**
   * With the checked registration, a user who registered can log in with
   * the username or the email, provided the encoder accepts the password
   * against its own hash.
   */
  lemma LoginAfterRegisterChecked(users: seq<User>, username: string, password: string, email: string,
                                  encode: string -> string, newId: Id,
                                  matches: (string, string) -> bool, accessToken: User -> string, identifier: string)
    requires Unambiguous(users)
    requires RegisterChecked(users, username, password, email, encode, newId).response.Ok?
    requires identifier == username || identifier == email
    requires matches(password, encode(password))
    ensures var r := RegisterChecked(users, username, password, email, encode, newId);
            Login(r.users, identifier, password, matches, accessToken) ==
            Ok(accessToken(User(newId, username, encode(password), email)))
  {
    var r := RegisterChecked(users, username, password, email, encode, newId);
    var u := User(newId, username, encode(password), email);
    RegisterCheckedKeepsUnambiguous(users, username, password, email, encode, newId);
    AtMostOneMatch(r.users, identifier);
    var found := FindAllByUsernameOrEmail(r.users, identifier);
    assert u == r.users[|users|] && u in found;
    assert found == [u] by {
      assert |found| == 1;
      assert found[0] in found;
    }
  }

  /** The user service over the shared database. */
  class DBUserService {
    const repos: Repositories
    /** `PasswordEncoder.encode`. */
    const encode: string -> string
    /** `PasswordEncoder.matches(raw, encoded)`. */
    const matches: (string, string) -> bool
    /** The access token `KeycloakAccessor.loginUser` obtains for a user. */
    const accessToken: User -> string

    constructor (repos: Repositories, encode: string -> string, matches: (string, string) -> bool,
                 accessToken: User -> string)
      ensures this.repos == repos && this.encode == encode && this.matches == matches
      ensures this.accessToken == accessToken
    {
      this.repos := repos;
      this.encode := encode;
      this.matches := matches;
      this.accessToken := accessToken;
    }

    /** `registerUser(request)`; `newId` is the id the database assigns to the saved row. */
    method RegisterUser(username: string, password: string, email: string, newId: Id)
      returns (r: Result<Id, AppException>)
      requires repos.Valid() && repos.Snapshot().FreshUserId(newId)
      modifies repos
      ensures repos.Valid()
      ensures RegisterResult(repos.users, r) == Register(old(repos.users), username, password, email, encode, newId)
      ensures repos.accounts == old(repos.accounts) && repos.transactions == old(repos.transactions)
    {
      RegisterKeepsValid(repos.Snapshot(), username, password, email, encode, newId);
      var isUserExists := ExistsByUsernameOrEmail(repos.users, username, email);
      if isUserExists {
        return Err(UserAlreadyExistsException);
      }
      var user := User(newId, "", "", "");
      user := user.(email := email);
      user := user.(username := username);
      user := user.(password := encode(password));
      repos.users := repos.users + [user];
      r := Ok(user.id);
    }

    /** `loginUser(request)`. */
    method LoginUser(identifier: string, password: string) returns (r: Result<string, AppException>)
      ensures r == Login(repos.users, identifier, password, matches, accessToken)
    {
      var found := FindAllByUsernameOrEmail(repos.users, identifier);
      if |found| == 0 {
        return Err(UserNotFoundException);
      }
      if |found| > 1 {
        return Err(OtherException(INCORRECT_RESULT_SIZE));
      }
      var user := found[0];
      if !matches(password, user.password) {
        return Err(UserOrPasswordInvalidException);
      }
      r := Ok(accessToken(user));
    }
  }
}
