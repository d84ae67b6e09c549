/**
 * The user entity, the commands and responses the two copies of
 * `UserService` exchange, and the validation rules they share: which
 * messages a command collects, in which order.
 */
module Accounts {
  import opened Outcomes
  import opened JavaText
  import opened Validators

  datatype User = User(id: int, name: string, email: string, password: string)

  /** `UserResponseDTO`: id, name and email; it has no place for the password. */
  datatype UserResponse = UserResponse(id: int, name: string, email: string)

  /** `UserRegistrationDTO`. */
  datatype Registration = Registration(name: Option<string>, email: Option<string>, password: Option<string>)

  /** `UserPwSetDTO` and `UserLoginDTO`: an email and a password. */
  datatype Credentials = Credentials(email: Option<string>, password: Option<string>)

  /** `UserUpdateDTO`. */
  datatype UserUpdate = UserUpdate(name: Option<string>, email: Option<string>, password: Option<string>)

  const CREDENTIALS_REQUIRED := "User credentials must be informed."
  const NAME_REQUIRED := "User name must be informed."
  const EMAIL_TAKEN := "Email already registered."
  const NO_USER_FOR_EMAIL := "No user found for this email."
  const USER_ID_REQUIRED := "User ID must be informed."
  const NO_USER_FOR_ID := "No user found for this ID."

  function ResponseOf(u: User): UserResponse
  {
    UserResponse(u.id, u.name, u.email)
  }

  /** Some stored user has this email (`findByEmail(email).isPresent()`). */
  ghost predicate EmailTaken(users: map<int, User>, email: string)
  {
    exists id :: id in users && users[id].email == email
  }

  /**
   * What every stored account satisfies: it sits under its own id, its
   * email passes `validateEmail`, its password passes `validatePassword`,
   * and no two accounts share an email.
   */
  ghost predicate AccountsValid(users: map<int, User>)
  {
    && (forall id :: id in users ==>
          && users[id].id == id
          && EmailShape(users[id].email)
          && StrongPassword(users[id].password))
    && (forall a, b :: a in users && b in users && users[a].email == users[b].email ==> a == b)
  }

  // -------------------------------------------------------------- register

  function NameErrors(name: Option<string>): (errs: seq<string>)
    ensures errs == [] <==> name.Some? && !TrimEmpty(name.value)
  {
    if name.None? || TrimEmpty(name.value) then [NAME_REQUIRED] else []
  }

  /** The email's format error, or, for a well-formed email only, the duplicate error. */
  ghost function RegisterEmailErrors(email: Option<string>, users: map<int, User>): seq<string>
  {
    match ValidateEmail(email)
    case Some(m) => [m]
    case None => if EmailTaken(users, email.value) then [EMAIL_TAKEN] else []
  }

  function PasswordErrors(password: Option<string>): seq<string>
  {
    match ValidatePassword(password)
    case Some(m) => [m]
    case None => []
  }

  /** The messages `register` collects, in the order it checks: name, email, password. */
  ghost function RegisterErrors(c: Registration, users: map<int, User>): (errs: seq<string>)
    ensures forall e :: e in errs ==> e in {NAME_REQUIRED, EMAIL_REQUIRED, EMAIL_INVALID, EMAIL_TAKEN, PASSWORD_REQUIRED, PASSWORD_WEAK}
  {
    NameErrors(c.name) + RegisterEmailErrors(c.email, users) + PasswordErrors(c.password)
  }

  /** The messages `setPassword` and `login` collect: email, then password. */
  function CredentialErrors(c: Credentials): (errs: seq<string>)
    ensures forall e :: e in errs ==> e in {EMAIL_REQUIRED, EMAIL_INVALID, PASSWORD_REQUIRED, PASSWORD_WEAK}
    ensures EMAIL_REQUIRED in errs <==> c.email.None? || TrimEmpty(c.email.value)
    ensures PASSWORD_REQUIRED in errs <==> c.password.None? || TrimEmpty(c.password.value)
  {
    (match ValidateEmail(c.email) case Some(m) => [m] case None => []) + PasswordErrors(c.password)
  }

  /**
   * Which messages `register` reports: the name message exactly when the
   * name is missing, the duplicate message exactly when a well-formed email
   * is taken, nothing at all exactly when every field is acceptable; at most
   * one message per field, the name's first and the password's last.
   */
  lemma RegisterErrorsCharacterised(c: Registration, users: map<int, User>)
    ensures var errs := RegisterErrors(c, users);
      && |errs| <= 3
      && (NAME_REQUIRED in errs <==> c.name.None? || TrimEmpty(c.name.value))
      && ((c.name.None? || TrimEmpty(c.name.value)) ==> errs[0] == NAME_REQUIRED)
      && (EMAIL_TAKEN in errs <==> c.email.Some? && EmailShape(c.email.value) && EmailTaken(users, c.email.value))
      && (ValidatePassword(c.password).Some? ==> errs[|errs| - 1] == ValidatePassword(c.password).value)
      && (errs == [] <==>
            && c.name.Some? && !TrimEmpty(c.name.value)
            && c.email.Some? && EmailShape(c.email.value) && !EmailTaken(users, c.email.value)
            && c.password.Some? && StrongPassword(c.password.value))
  {
    var ee := RegisterEmailErrors(c.email, users);
    assert NAME_REQUIRED !in ee && NAME_REQUIRED !in PasswordErrors(c.password);
    assert EMAIL_TAKEN !in NameErrors(c.name) && EMAIL_TAKEN !in PasswordErrors(c.password);
  }

  /** A command with every field missing collects all three "must be informed" messages, in order. */
  lemma RegisterAllMissing(users: map<int, User>)
    ensures RegisterErrors(Registration(None, None, None), users) == [NAME_REQUIRED, EMAIL_REQUIRED, PASSWORD_REQUIRED]
  {
  }

  /** `setPassword` and `login` accept exactly a well-formed email with a strong password. */
  lemma CredentialErrorsCharacterised(c: Credentials)
    ensures |CredentialErrors(c)| <= 2
    ensures CredentialErrors(c) == [] <==> c.email.Some? && EmailShape(c.email.value) && c.password.Some? && StrongPassword(c.password.value)
  {
  }

  /** A registration that collects no message keeps the stored accounts valid. */
  lemma RegisterKeepsAccountsValid(users: map<int, User>, id: int, c: Registration)
    requires AccountsValid(users) && id !in users && RegisterErrors(c, users) == []
    ensures c.name.Some? && c.email.Some? && c.password.Some?
    ensures AccountsValid(users[id := User(id, c.name.value, c.email.value, c.password.value)])
  {
    RegisterErrorsCharacterised(c, users);
  }

  /** Setting a strong password on a stored account keeps the stored accounts valid. */
  lemma SetPasswordKeepsAccountsValid(users: map<int, User>, id: int, password: string)
    requires AccountsValid(users) && id in users && StrongPassword(password)
    ensures AccountsValid(users[id := users[id].(password := password)])
  {
  }

  /** Deleting an account keeps the remaining accounts valid. */
  lemma RemoveKeepsAccountsValid(users: map<int, User>, id: int)
    requires AccountsValid(users)
    ensures AccountsValid(users - {id})
  {
  }
}
