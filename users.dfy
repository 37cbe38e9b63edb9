/**
 * routes/users.js: `/register` validates the body, hashes the password and
 * inserts a user; `/login` validates, looks the email up, compares the
 * password and signs a token.
 */
module Users {
  import opened Form
  import opened Http
  import opened UserModel
  import opened Crypto

  datatype RegisterForm = RegisterForm(name: Option<string>, email: Option<string>, password: Option<string>, role: Option<string>)

  datatype LoginForm = LoginForm(email: Option<string>, password: Option<string>)

  /** What a successful login answers: `{ token, role, userId }`. */
  datatype Session = Session(token: string, role: Role, userId: UserId)

  const MinPasswordLength: nat := 6
  const InvalidCredentials: string := "Invalid credentials"
  /**
   * The start of the message MongoDB's unique index reports on a duplicate
   * email; the full message also names the collection, the index and the key.
   */
  const DuplicateKey: string := "E11000 duplicate key error"

  /** `isEmail()` on a field: the validator rejects an absent or empty value. */
  predicate EmailOk(o: Option<string>, isEmail: string -> bool)
  {
    Present(o) && isEmail(o.value)
  }

  function ErrorIf(failed: bool, path: string, msg: string): seq<FieldError>
  {
    if failed then [FieldError(path, msg)] else []
  }

  /**
   * `validationResult(req).array()` for `/register`: one error per failing
   * rule, in the order the rules are declared.
   */
  function RegisterErrors(f: RegisterForm, isEmail: string -> bool): (errs: seq<FieldError>)
    ensures errs == [] <==>
      Text(f.name) != "" && EmailOk(f.email, isEmail) &&
      |Text(f.password)| >= MinPasswordLength && Text(f.role) in RoleNames
    ensures FieldError("name", "Name is required") in errs <==> Text(f.name) == ""
    ensures FieldError("email", "Invalid email") in errs <==> !EmailOk(f.email, isEmail)
    ensures FieldError("password", "Password must be at least 6 characters") in errs <==> |Text(f.password)| < MinPasswordLength
    ensures FieldError("role", "Invalid role") in errs <==> Text(f.role) !in RoleNames
    ensures |errs| <= 4
  {
    ErrorIf(Text(f.name) == "", "name", "Name is required")
    + ErrorIf(!EmailOk(f.email, isEmail), "email", "Invalid email")
    + ErrorIf(|Text(f.password)| < MinPasswordLength, "password", "Password must be at least 6 characters")
    + ErrorIf(Text(f.role) !in RoleNames, "role", "Invalid role")
  }

  /** `validationResult(req).array()` for `/login`. */
  function LoginErrors(f: LoginForm, isEmail: string -> bool): (errs: seq<FieldError>)
    ensures errs == [] <==> EmailOk(f.email, isEmail) && Text(f.password) != ""
    ensures FieldError("email", "Invalid email") in errs <==> !EmailOk(f.email, isEmail)
    ensures FieldError("password", "Password is required") in errs <==> Text(f.password) == ""
  {
    ErrorIf(!EmailOk(f.email, isEmail), "email", "Invalid email")
    + ErrorIf(Text(f.password) == "", "password", "Password is required")
  }

  /** The claims `/login` signs for a user. */
  function ClaimsOf(u: User): Claims
  {
    Claims(u.id, u.name, u.email, u.role)
  }

  /**
   * `/login`: invalid input answers the validator's errors; an unknown email
   * and a wrong password both answer 400 "Invalid credentials"; otherwise the
   * matching user's token (signed with `SecretKey`, one hour), role and id.
   */
  function Login(users: seq<User>, f: LoginForm, isEmail: string -> bool, bcrypt: Bcrypt, jwt: Jwt, now: nat): (r: Reply<Session>)
    ensures LoginErrors(f, isEmail) != [] ==> r == Invalid(LoginErrors(f, isEmail))
    ensures LoginErrors(f, isEmail) == [] && FindByEmail(users, f.email.value).None? ==>
              r == Error(400, InvalidCredentials)
    ensures LoginErrors(f, isEmail) == [] && FindByEmail(users, f.email.value).Some? &&
            !bcrypt.compare(f.password.value, users[FindByEmail(users, f.email.value).value].password) ==>
              r == Error(400, InvalidCredentials)
    ensures r.Ok? <==>
              LoginErrors(f, isEmail) == [] && FindByEmail(users, f.email.value).Some? &&
              bcrypt.compare(f.password.value, users[FindByEmail(users, f.email.value).value].password)
    ensures r.Ok? ==>
              var u := users[FindByEmail(users, f.email.value).value];
              u.email == f.email.value && r.status == 200 &&
              r.value == Session(jwt.sign(ClaimsOf(u), SecretKey, TokenLifetime, now), u.role, u.id)
    ensures !r.Ok? ==> r.Status() == 400
  {
    var errs := LoginErrors(f, isEmail);
    if errs != [] then Invalid(errs)
    else
      var found := FindByEmail(users, f.email.value);
      if found.None? then Error(400, InvalidCredentials)
      else
        var u := users[found.value];
        if !bcrypt.compare(f.password.value, u.password) then Error(400, InvalidCredentials)
        else Ok(200, Session(jwt.sign(ClaimsOf(u), SecretKey, TokenLifetime, now), u.role, u.id))
  }

  /** An unknown email and a wrong password for a known one give the very same reply. */
  lemma UnknownEmailAndWrongPasswordAlike(
    users: seq<User>, unknown: LoginForm, wrong: LoginForm,
    isEmail: string -> bool, bcrypt: Bcrypt, jwt: Jwt, now: nat)
    requires LoginErrors(unknown, isEmail) == [] && LoginErrors(wrong, isEmail) == []
    requires FindByEmail(users, unknown.email.value).None?
    requires FindByEmail(users, wrong.email.value).Some?
    requires !bcrypt.compare(wrong.password.value, users[FindByEmail(users, wrong.email.value).value].password)
    ensures Login(users, unknown, isEmail, bcrypt, jwt, now) == Login(users, wrong, isEmail, bcrypt, jwt, now)
    ensures Login(users, unknown, isEmail, bcrypt, jwt, now) == Error(400, InvalidCredentials)
  {
  }

  /** The user collection with its unique email index. */
  class UserStore {
    var users: seq<User>

    ghost predicate Valid()
      reads this
    {
      IdsArePositions(users) && UniqueEmails(users)
    }

    constructor ()
      ensures Valid() && users == []
    {
      users := [];
    }

    /**
     * `/register`: invalid input answers the validator's errors and stores
     * nothing; a valid one is inserted with its password replaced by
     * `bcrypt.hash(password, 10)`, unless the email is already taken, in which
     * case the unique index makes `save()` fail (500) and nothing is stored.
     */
    method Register(f: RegisterForm, isEmail: string -> bool, bcrypt: Bcrypt, salt: Salt) returns (reply: Reply<string>)
      requires Valid()
      modifies this
      ensures Valid()
      ensures RegisterErrors(f, isEmail) != [] ==>
                reply == Invalid(RegisterErrors(f, isEmail)) && users == old(users)
      ensures RegisterErrors(f, isEmail) == [] && FindByEmail(old(users), f.email.value).Some? ==>
                reply == Error(500, DuplicateKey) && users == old(users)
      ensures RegisterErrors(f, isEmail) == [] && FindByEmail(old(users), f.email.value).None? ==>
                reply == Ok(201, "User registered") &&
                users == old(users) + [User(|old(users)|, f.name.value, f.email.value,
                                            bcrypt.hash(f.password.value, SaltRounds, salt),
                                            ParseRole(f.role.value).value, false, None)]
    {
      var errs := RegisterErrors(f, isEmail);
      if errs != [] {
        return Invalid(errs);
      }
      var hashed := bcrypt.hash(f.password.value, SaltRounds, salt);
      var doc := NewUser(|users|, f.name.value, f.email.value, hashed, f.role);
      if FindByEmail(users, f.email.value).Some? {
        return Error(500, DuplicateKey);
      }
      users := users + [doc.value];
      reply := Ok(201, "User registered");
    }
  }

  /** Appending a user whose email no stored user has keeps the emails unique. */
  lemma AppendFreshEmail(before: seq<User>, u: User)
    requires IdsArePositions(before) && UniqueEmails(before)
    requires FindByEmail(before, u.email).None? && u.id == |before|
    ensures IdsArePositions(before + [u]) && UniqueEmails(before + [u])
  {
    var after := before + [u];
    forall i, j | 0 <= i < j < |after|
      ensures after[i].email != after[j].email
    {
      if j == |before| {
        assert after[i] == before[i];
      } else {
        assert after[i] == before[i] && after[j] == before[j];
      }
    }
  }

  /** Input that passes `/register`'s rules passes `/login`'s. */
  lemma RegisterFormLogsIn(f: RegisterForm, isEmail: string -> bool)
    requires RegisterErrors(f, isEmail) == []
    ensures LoginErrors(LoginForm(f.email, f.password), isEmail) == []
  {
    assert |Text(f.password)| >= MinPasswordLength;
  }

  /** A stored user whose email is unique logs in with any password bcrypt matches against the stored hash. */
  lemma LoginFindsUser(users: seq<User>, k: nat, lf: LoginForm, isEmail: string -> bool, bcrypt: Bcrypt, jwt: Jwt, now: nat)
    requires UniqueEmails(users) && IdsArePositions(users)
    requires k < |users| && LoginErrors(lf, isEmail) == [] && lf.email == Some(users[k].email)
    requires bcrypt.compare(lf.password.value, users[k].password)
    ensures var r := Login(users, lf, isEmail, bcrypt, jwt, now);
            r.Ok? && r.value.userId == k && r.value.role == users[k].role
  {
    FindByEmailUnique(users, users[k].email, k);
  }

  /**
   * Registering and then logging in with the same email and password
   * succeeds, for the user just stored, provided bcrypt matches a password
   * against its own hash.
   */
  lemma RegisterThenLogin(
    before: seq<User>, f: RegisterForm, isEmail: string -> bool, bcrypt: Bcrypt, salt: Salt,
    stored: User, jwt: Jwt, now: nat)
    requires IdsArePositions(before) && UniqueEmails(before)
    requires RegisterErrors(f, isEmail) == [] && FindByEmail(before, f.email.value).None?
    requires stored.id == |before| && stored.email == f.email.value
    requires stored.password == bcrypt.hash(f.password.value, SaltRounds, salt)
    requires bcrypt.compare(f.password.value, bcrypt.hash(f.password.value, SaltRounds, salt))
    ensures var r := Login(before + [stored], LoginForm(f.email, f.password), isEmail, bcrypt, jwt, now);
            r.Ok? && r.value.userId == |before| && r.value.role == stored.role
  {
    AppendFreshEmail(before, stored);
    RegisterFormLogsIn(f, isEmail);
    LoginFindsUser(before + [stored], |before|, LoginForm(f.email, f.password), isEmail, bcrypt, jwt, now);
  }
}
