/**
 * The older `UserService` kept beside the current one: register,
 * setPassword and remove only, over its own in-memory user store. Its
 * rules are those of the current copy; its password-reset reply differs.
 */
module LegacyUsers {
  import opened Outcomes
  import opened JavaText
  import opened Validators
  import opened Store
  import opened Accounts

  const PASSWORD_RESET := "Passowrd rested successfuly"

  class UserService {
    var users: map<int, User>
    var order: seq<int>
    var nextId: int

    ghost predicate Valid()
      reads this
    {
      AccountsValid(users) && Lists(order, users.Keys, nextId)
    }

    constructor ()
      ensures Valid() && users == map[] && order == []
    {
      users := map[];
      order := [];
      nextId := 1;
    }

    /** `userRepository.findByEmail`. */
    method FindByEmail(email: string) returns (found: Option<User>)
      requires Valid()
      ensures found.Some? ==> found.value.id in users && users[found.value.id] == found.value && found.value.email == email
      ensures found.None? <==> !EmailTaken(users, email)
    {
      var i := 0;
      while i < |order|
        invariant 0 <= i <= |order|
        invariant forall j :: 0 <= j < i ==> users[order[j]].email != email
      {
        var u := users[order[i]];
        if u.email == email {
          return Some(u);
        }
        i := i + 1;
      }
      found := None;
    }

    /** `register`. */
    method Register(cmd: Option<Registration>) returns (r: Outcome<UserResponse>)
      requires Valid()
      modifies this
      ensures Valid()
      ensures cmd.None? ==> r == Validation([CREDENTIALS_REQUIRED]) && unchanged(this)
      ensures cmd.Some? && RegisterErrors(cmd.value, old(users)) != [] ==>
        r == Validation(RegisterErrors(cmd.value, old(users))) && unchanged(this)
      ensures cmd.Some? && RegisterErrors(cmd.value, old(users)) == [] ==>
        var c := cmd.value;
        var id := old(nextId);
        && c.name.Some? && c.email.Some? && c.password.Some?
        && id !in old(users)
        && users == old(users)[id := User(id, c.name.value, c.email.value, c.password.value)]
        && nextId == id + 1
        && r == Ok(UserResponse(id, c.name.value, c.email.value))
    {
      if cmd.None? {
        return Validation([CREDENTIALS_REQUIRED]);
      }
      var c := cmd.value;
      var errors: seq<string> := [];
      if c.name.None? || TrimEmpty(c.name.value) {
        errors := errors + [NAME_REQUIRED];
      }
      var validation := ValidateEmail(c.email);
      if validation.Some? {
        errors := errors + [validation.value];
      } else {
        var existing := FindByEmail(c.email.value);
        if existing.Some? {
          errors := errors + [EMAIL_TAKEN];
        }
      }
      validation := ValidatePassword(c.password);
      if validation.Some? {
        errors := errors + [validation.value];
      }
      assert errors == RegisterErrors(c, users);
      if errors != [] {
        return Validation(errors);
      }
      RegisterKeepsAccountsValid(users, nextId, c);
      ListsInsert(order, users.Keys, nextId);
      var user := User(nextId, c.name.value, c.email.value, c.password.value);
      users := users[nextId := user];
      order := order + [nextId];
      nextId := nextId + 1;
      r := Ok(ResponseOf(user));
    }

    /** `setPassword`. */
    method SetPassword(cmd: Option<Credentials>) returns (r: Outcome<string>)
      requires Valid()
      modifies this
      ensures Valid()
      ensures cmd.None? ==> r == Validation([CREDENTIALS_REQUIRED]) && unchanged(this)
      ensures cmd.Some? && CredentialErrors(cmd.value) != [] ==>
        r == Validation(CredentialErrors(cmd.value)) && unchanged(this)
      ensures cmd.Some? && CredentialErrors(cmd.value) == [] && !EmailTaken(old(users), cmd.value.email.value) ==>
        r == NotFound(NO_USER_FOR_EMAIL) && unchanged(this)
      ensures cmd.Some? && CredentialErrors(cmd.value) == [] && EmailTaken(old(users), cmd.value.email.value) ==>
        && r == Ok(PASSWORD_RESET)
        && order == old(order) && nextId == old(nextId)
        && exists id :: id in old(users) && old(users)[id].email == cmd.value.email.value
                        && users == old(users)[id := old(users)[id].(password := cmd.value.password.value)]
    {
      if cmd.None? {
        return Validation([CREDENTIALS_REQUIRED]);
      }
      var c := cmd.value;
      var errors: seq<string> := [];
      var validation := ValidateEmail(c.email);
      if validation.Some? {
        errors := errors + [validation.value];
      }
      validation := ValidatePassword(c.password);
      if validation.Some? {
        errors := errors + [validation.value];
      }
      if errors != [] {
        return Validation(errors);
      }
      var found := FindByEmail(c.email.value);
      if found.None? {
        return NotFound(NO_USER_FOR_EMAIL);
      }
      var user := found.value.(password := c.password.value);
      SetPasswordKeepsAccountsValid(users, user.id, c.password.value);
      users := users[user.id := user];
      r := Ok(PASSWORD_RESET);
    }

    /** `remove`. */
    method Remove(id: Option<int>) returns (r: Outcome<UserResponse>)
      requires Valid()
      modifies this
      ensures Valid()
      ensures id.None? ==> r == Validation([USER_ID_REQUIRED]) && unchanged(this)
      ensures id.Some? && id.value !in old(users) ==> r == NotFound(NO_USER_FOR_ID) && unchanged(this)
      ensures id.Some? && id.value in old(users) ==>
        && r == Ok(ResponseOf(old(users)[id.value]))
        && users == old(users) - {id.value}
        && id.value !in users
        && nextId == old(nextId)
    {
      if id.None? {
        return Validation([USER_ID_REQUIRED]);
      }
      if id.value !in users {
        return NotFound(NO_USER_FOR_ID);
      }
      var user := users[id.value];
      RemoveKeepsAccountsValid(users, id.value);
      ListsRemove(order, users.Keys, nextId, id.value);
      users := users - {id.value};
      order := Without(order, id.value);
      r := Ok(ResponseOf(user));
    }
  }
}
