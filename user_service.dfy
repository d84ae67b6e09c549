/**
 * The current `UserService`: register, setPassword, remove, login, update,
 * getUser and getAllUsers over an in-memory user store.
 */
module Users {
  import opened Outcomes
  import opened JavaText
  import opened Validators
  import opened Store
  import opened Accounts

  const PASSWORD_RESET := "Password reseted successfuly"
  const WRONG_PASSWORD := "Wrong password or email address. Please try again."
  const UPDATE_ID_REQUIRED := "User Id must be informed."
  const UPDATE_INFO_REQUIRED := "User Informations can't be null."
  const EMAIL_TAKEN_BY_OTHER := "Email already registered by another user."
  const USER_NOT_FOUND := "User not found."
  const GET_ID_REQUIRED := "User id must be informed."
  const NO_USERS := "No users found in database."

  /** `update` applies a field only when it is given and not blank. */
  predicate Supplied(field: Option<string>)
  {
    field.Some? && !IsBlank(field.value)
  }

  /** Some user other than `id` holds this email; a null `id` matches nobody. */
  ghost predicate TakenByOther(users: map<int, User>, email: string, id: Option<int>)
  {
    exists k :: k in users && users[k].email == email && Some(k) != id
  }

  /** The messages `update` collects, in the order it checks: id, info, then the supplied email and password. */
  ghost function UpdateErrors(id: Option<int>, info: Option<UserUpdate>, users: map<int, User>): (errs: seq<string>)
    ensures |errs| <= 3
    ensures UPDATE_ID_REQUIRED in errs <==> id.None?
    ensures UPDATE_INFO_REQUIRED in errs <==> info.None?
  {
    (if id.None? then [UPDATE_ID_REQUIRED] else [])
    + if info.None? then [UPDATE_INFO_REQUIRED]
      else
        (if !Supplied(info.value.email) then []
         else match ValidateEmail(info.value.email)
           case Some(m) => [m]
           case None => if TakenByOther(users, info.value.email.value, id) then [EMAIL_TAKEN_BY_OTHER] else [])
        + (if Supplied(info.value.password) then PasswordErrors(info.value.password) else [])
  }

  /** A user's own current email never counts as taken; anyone else's does. */
  lemma OwnEmailIsNotTaken(users: map<int, User>, id: int)
    requires AccountsValid(users) && id in users
    ensures !TakenByOther(users, users[id].email, Some(id))
    ensures forall k :: k in users && k != id ==> TakenByOther(users, users[k].email, Some(id))
  {
  }

  /**
   * An update collects nothing exactly when both id and info are given, a
   * supplied email is well-formed and held by no other user, and a
   * supplied password is strong.
   */
  lemma UpdateErrorsCharacterised(id: Option<int>, info: Option<UserUpdate>, users: map<int, User>)
    ensures UpdateErrors(id, info, users) == [] <==>
      && id.Some? && info.Some?
      && (Supplied(info.value.email) ==> EmailShape(info.value.email.value) && !TakenByOther(users, info.value.email.value, id))
      && (Supplied(info.value.password) ==> StrongPassword(info.value.password.value))
    ensures id.None? && info.None? ==> UpdateErrors(id, info, users) == [UPDATE_ID_REQUIRED, UPDATE_INFO_REQUIRED]
    ensures info.Some? ==>
      (EMAIL_TAKEN_BY_OTHER in UpdateErrors(id, info, users) <==>
        Supplied(info.value.email) && EmailShape(info.value.email.value) && TakenByOther(users, info.value.email.value, id))
  {
  }

  /** The stored user after `update` has set every supplied field. */
  function Patched(u: User, info: UserUpdate): (r: User)
    ensures r.id == u.id
    ensures !Supplied(info.name) ==> r.name == u.name
    ensures !Supplied(info.email) ==> r.email == u.email
    ensures !Supplied(info.password) ==> r.password == u.password
    ensures Supplied(info.name) ==> r.name == info.name.value
    ensures Supplied(info.email) ==> r.email == info.email.value
    ensures Supplied(info.password) ==> r.password == info.password.value
  {
    u.(name := if Supplied(info.name) then info.name.value else u.name,
       email := if Supplied(info.email) then info.email.value else u.email,
       password := if Supplied(info.password) then info.password.value else u.password)
  }

  /**
   * `register` tests a name with `trim().isEmpty()` and `update` with
   * `isBlank()`: a name `isBlank()` rejects but `trim()` keeps, such as one
   * em space, is accepted by `register` and ignored by `update`.
   */
  lemma NameBlankTestsDisagree(name: string)
    requires IsBlank(name) && !TrimEmpty(name)
    ensures NameErrors(Some(name)) == []
    ensures !Supplied(Some(name))
  {
  }

  /**
   * An email or password that gets past `update`'s `isBlank()` test but that
   * `trim()` empties, such as a lone NUL, is then reported as not informed.
   */
  lemma TrimmedAwayFieldReportedMissing(id: Option<int>, info: UserUpdate, users: map<int, User>)
    ensures Supplied(info.email) && TrimEmpty(info.email.value) ==> EMAIL_REQUIRED in UpdateErrors(id, Some(info), users)
    ensures Supplied(info.password) && TrimEmpty(info.password.value) ==> PASSWORD_REQUIRED in UpdateErrors(id, Some(info), users)
  {
    var errs := UpdateErrors(id, Some(info), users);
    var idPart := if id.None? then [UPDATE_ID_REQUIRED] else [];
    var emailPart := if !Supplied(info.email) then []
      else match ValidateEmail(info.email)
        case Some(m) => [m]
        case None => if TakenByOther(users, info.email.value, id) then [EMAIL_TAKEN_BY_OTHER] else [];
    var passwordPart := if Supplied(info.password) then PasswordErrors(info.password) else [];
    assert errs == idPart + (emailPart + passwordPart);
    if Supplied(info.email) && TrimEmpty(info.email.value) {
      assert emailPart == [EMAIL_REQUIRED];
      assert errs[|idPart|] == EMAIL_REQUIRED;
    }
    if Supplied(info.password) && TrimEmpty(info.password.value) {
      assert passwordPart == [PASSWORD_REQUIRED];
      assert errs[|errs| - 1] == PASSWORD_REQUIRED;
    }
  }

  /** An update that collects no message keeps the stored accounts valid: a new email is held by nobody else. */
  lemma UpdateKeepsAccountsValid(users: map<int, User>, id: int, info: UserUpdate)
    requires AccountsValid(users) && id in users
    requires UpdateErrors(Some(id), Some(info), users) == []
    ensures AccountsValid(users[id := Patched(users[id], info)])
  {
    UpdateErrorsCharacterised(Some(id), Some(info), users);
  }

  class UserService {
    var users: map<int, User>
    var order: seq<int>
    var nextId: int

    ghost predicate Valid()
      reads this
    {
      AccountsValid(users) && Lists(order, users.Keys, nextId)
    }

    constructor ()
      ensures Valid() && users == map[] && order == []
    {
      users := map[];
      order := [];
      nextId := 1;
    }

    /** `userRepository.findByEmail`. */
    method FindByEmail(email: string) returns (found: Option<User>)
      requires Valid()
      ensures found.Some? ==> found.value.id in users && users[found.value.id] == found.value && found.value.email == email
      ensures found.None? <==> !EmailTaken(users, email)
    {
      var i := 0;
      while i < |order|
        invariant 0 <= i <= |order|
        invariant forall j :: 0 <= j < i ==> users[order[j]].email != email
      {
        var u := users[order[i]];
        if u.email == email {
          return Some(u);
        }
        i := i + 1;
      }
      found := None;
    }

    /** `register`. */
    method Register(cmd: Option<Registration>) returns (r: Outcome<UserResponse>)
      requires Valid()
      modifies this
      ensures Valid()
      ensures cmd.None? ==> r == Validation([CREDENTIALS_REQUIRED]) && unchanged(this)
      ensures cmd.Some? && RegisterErrors(cmd.value, old(users)) != [] ==>
        r == Validation(RegisterErrors(cmd.value, old(users))) && unchanged(this)
      ensures cmd.Some? && RegisterErrors(cmd.value, old(users)) == [] ==>
        var c := cmd.value;
        var id := old(nextId);
        && c.name.Some? && c.email.Some? && c.password.Some?
        && id !in old(users)
        && users == old(users)[id := User(id, c.name.value, c.email.value, c.password.value)]
        && nextId == id + 1
        && r == Ok(UserResponse(id, c.name.value, c.email.value))
    {
      if cmd.None? {
        return Validation([CREDENTIALS_REQUIRED]);
      }
      var c := cmd.value;
      var errors: seq<string> := [];
      if c.name.None? || TrimEmpty(c.name.value) {
        errors := errors + [NAME_REQUIRED];
      }
      var validation := ValidateEmail(c.email);
      if validation.Some? {
        errors := errors + [validation.value];
      } else {
        var existing := FindByEmail(c.email.value);
        if existing.Some? {
          errors := errors + [EMAIL_TAKEN];
        }
      }
      validation := ValidatePassword(c.password);
      if validation.Some? {
        errors := errors + [validation.value];
      }
      assert errors == RegisterErrors(c, users);
      if errors != [] {
        return Validation(errors);
      }
      RegisterKeepsAccountsValid(users, nextId, c);
      ListsInsert(order, users.Keys, nextId);
      var user := User(nextId, c.name.value, c.email.value, c.password.value);
      users := users[nextId := user];
      order := order + [nextId];
      nextId := nextId + 1;
      r := Ok(ResponseOf(user));
    }

    /** `setPassword`. */
    method SetPassword(cmd: Option<Credentials>) returns (r: Outcome<string>)
      requires Valid()
      modifies this
      ensures Valid()
      ensures cmd.None? ==> r == Validation([CREDENTIALS_REQUIRED]) && unchanged(this)
      ensures cmd.Some? && CredentialErrors(cmd.value) != [] ==>
        r == Validation(CredentialErrors(cmd.value)) && unchanged(this)
      ensures cmd.Some? && CredentialErrors(cmd.value) == [] && !EmailTaken(old(users), cmd.value.email.value) ==>
        r == NotFound(NO_USER_FOR_EMAIL) && unchanged(this)
      ensures cmd.Some? && CredentialErrors(cmd.value) == [] && EmailTaken(old(users), cmd.value.email.value) ==>
        && r == Ok(PASSWORD_RESET)
        && order == old(order) && nextId == old(nextId)
        && exists id :: id in old(users) && old(users)[id].email == cmd.value.email.value
                        && users == old(users)[id := old(users)[id].(password := cmd.value.password.value)]
    {
      if cmd.None? {
        return Validation([CREDENTIALS_REQUIRED]);
      }
      var c := cmd.value;
      var errors: seq<string> := [];
      var validation := ValidateEmail(c.email);
      if validation.Some? {
        errors := errors + [validation.value];
      }
      validation := ValidatePassword(c.password);
      if validation.Some? {
        errors := errors + [validation.value];
      }
      if errors != [] {
        return Validation(errors);
      }
      var found := FindByEmail(c.email.value);
      if found.None? {
        return NotFound(NO_USER_FOR_EMAIL);
      }
      var user := found.value.(password := c.password.value);
      SetPasswordKeepsAccountsValid(users, user.id, c.password.value);
      users := users[user.id := user];
      r := Ok(PASSWORD_RESET);
    }

    /** `remove`. */
    method Remove(id: Option<int>) returns (r: Outcome<UserResponse>)
      requires Valid()
      modifies this
      ensures Valid()
      ensures id.None? ==> r == Validation([USER_ID_REQUIRED]) && unchanged(this)
      ensures id.Some? && id.value !in old(users) ==> r == NotFound(NO_USER_FOR_ID) && unchanged(this)
      ensures id.Some? && id.value in old(users) ==>
        && r == Ok(ResponseOf(old(users)[id.value]))
        && users == old(users) - {id.value}
        && id.value !in users
        && nextId == old(nextId)
    {
      if id.None? {
        return Validation([USER_ID_REQUIRED]);
      }
      if id.value !in users {
        return NotFound(NO_USER_FOR_ID);
      }
      var user := users[id.value];
      RemoveKeepsAccountsValid(users, id.value);
      ListsRemove(order, users.Keys, nextId, id.value);
      users := users - {id.value};
      order := Without(order, id.value);
      r := Ok(ResponseOf(user));
    }

    /** `login`: checks the credentials' shape, finds the account by email, compares the password. */
    method Login(cmd: Option<Credentials>) returns (r: Outcome<bool>)
      requires Valid()
      ensures cmd.None? ==> r == Validation([CREDENTIALS_REQUIRED])
      ensures cmd.Some? && CredentialErrors(cmd.value) != [] ==> r == Validation(CredentialErrors(cmd.value))
      ensures cmd.Some? && CredentialErrors(cmd.value) == [] ==>
        && cmd.value.email.Some? && cmd.value.password.Some?
        && (!EmailTaken(users, cmd.value.email.value) ==> r == NotFound(NO_USER_FOR_EMAIL))
        && (forall id :: id in users && users[id].email == cmd.value.email.value ==>
              r == (if users[id].password == cmd.value.password.value then Ok(true) else Validation([WRONG_PASSWORD])))
      ensures r.Ok? ==> r.value
    {
      if cmd.None? {
        return Validation([CREDENTIALS_REQUIRED]);
      }
      var c := cmd.value;
      var errors: seq<string> := [];
      var validation := ValidateEmail(c.email);
      if validation.Some? {
        errors := errors + [validation.value];
      }
      validation := ValidatePassword(c.password);
      if validation.Some? {
        errors := errors + [validation.value];
      }
      if errors != [] {
        return Validation(errors);
      }
      var found := FindByEmail(c.email.value);
      if found.None? {
        return NotFound(NO_USER_FOR_EMAIL);
      }
      if found.value.password != c.password.value {
        return Validation([WRONG_PASSWORD]);
      }
      r := Ok(true);
    }

    /** The validation half of `update`, which runs before any lookup by id. */
    method CollectUpdateErrors(id: Option<int>, info: Option<UserUpdate>) returns (errors: seq<string>)
      requires Valid()
      ensures errors == UpdateErrors(id, info, users)
    {
      errors := [];
      if id.None? {
        errors := errors + [UPDATE_ID_REQUIRED];
      }
      if info.None? {
        errors := errors + [UPDATE_INFO_REQUIRED];
      } else {
        var ui := info.value;
        var emailErrors: seq<string> := [];
        if ui.email.Some? && !IsBlank(ui.email.value) {
          var validation := ValidateEmail(ui.email);
          if validation.Some? {
            emailErrors := [validation.value];
          } else {
            var existing := FindByEmail(ui.email.value);
            if existing.Some? && Some(existing.value.id) != id {
              emailErrors := [EMAIL_TAKEN_BY_OTHER];
            }
            assert existing.Some? && Some(existing.value.id) == id ==> !TakenByOther(users, ui.email.value, id);
          }
        }
        errors := errors + emailErrors;
        if ui.password.Some? && !IsBlank(ui.password.value) {
          var validation := ValidatePassword(ui.password);
          if validation.Some? {
            errors := errors + [validation.value];
          }
        }
      }
    }

    /** `update`. */
    method Update(id: Option<int>, info: Option<UserUpdate>) returns (r: Outcome<UserResponse>)
      requires Valid()
      modifies this
      ensures Valid()
      ensures UpdateErrors(id, info, old(users)) != [] ==>
        r == Validation(UpdateErrors(id, info, old(users))) && unchanged(this)
      ensures UpdateErrors(id, info, old(users)) == [] ==> id.Some? && info.Some?
      ensures UpdateErrors(id, info, old(users)) == [] && id.value !in old(users) ==>
        r == NotFound(USER_NOT_FOUND) && unchanged(this)
      ensures UpdateErrors(id, info, old(users)) == [] && id.value in old(users) ==>
        && id.value in users
        && users.Keys == old(users).Keys
        && (forall k :: k in users && k != id.value ==> users[k] == old(users)[k])
        && users[id.value].id == id.value
        && users[id.value].name == (if Supplied(info.value.name) then info.value.name.value else old(users)[id.value].name)
        && users[id.value].email == (if Supplied(info.value.email) then info.value.email.value else old(users)[id.value].email)
        && users[id.value].password == (if Supplied(info.value.password) then info.value.password.value else old(users)[id.value].password)
        && r == Ok(ResponseOf(users[id.value]))
        && order == old(order) && nextId == old(nextId)
    {
      var errors := CollectUpdateErrors(id, info);
      if errors != [] {
        return Validation(errors);
      }
      UpdateErrorsCharacterised(id, info, users);
      if id.value !in users {
        return NotFound(USER_NOT_FOUND);
      }
      var ui := info.value;
      var user := users[id.value];
      if ui.name.Some? && !IsBlank(ui.name.value) {
        user := user.(name := ui.name.value);
      }
      if ui.email.Some? && !IsBlank(ui.email.value) {
        user := user.(email := ui.email.value);
      }
      if ui.password.Some? && !IsBlank(ui.password.value) {
        user := user.(password := ui.password.value);
      }
      assert user == Patched(users[id.value], ui);
      UpdateKeepsAccountsValid(users, id.value, ui);
      users := users[id.value := user];
      r := Ok(ResponseOf(user));
    }

    /** `getUser`. */
    method GetUser(id: Option<int>) returns (r: Outcome<UserResponse>)
      requires Valid()
      ensures id.None? ==> r == Validation([GET_ID_REQUIRED])
      ensures id.Some? && id.value !in users ==> r == NotFound(USER_NOT_FOUND)
      ensures id.Some? && id.value in users ==>
        r.Ok? && r.value.id == id.value && r.value.name == users[id.value].name && r.value.email == users[id.value].email
    {
      if id.None? {
        return Validation([GET_ID_REQUIRED]);
      }
      if id.value !in users {
        return NotFound(USER_NOT_FOUND);
      }
      r := Ok(ResponseOf(users[id.value]));
    }

    /** `getAllUsers(PageRequest.of(page, size))`: an empty page is reported as not found. */
    method GetAllUsers(page: nat, size: nat) returns (r: Outcome<seq<UserResponse>>)
      requires Valid() && size > 0
      ensures PageOf(order, page, size) == [] ==> r == NotFound(NO_USERS)
      ensures PageOf(order, page, size) != [] ==>
        var ids := PageOf(order, page, size);
        && r.Ok? && |r.value| == |ids|
        && forall i :: 0 <= i < |ids| ==> ids[i] in users && r.value[i] == ResponseOf(users[ids[i]])
      ensures r.Ok? ==> forall i :: 0 <= i < |r.value| ==> r.value[i].id in users
    {
      var ids := PageOf(order, page, size);
      forall i | 0 <= i < |ids| ensures ids[i] in users {
        var start := page * size;
        assert ids[i] == order[start + i];
      }
      if ids == [] {
        return NotFound(NO_USERS);
      }
      var store := users;
      r := Ok(seq(|ids|, i requires 0 <= i < |ids| && ids[i] in store => ResponseOf(store[ids[i]])));
    }
  }
}
