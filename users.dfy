/** The in-memory account table: usernames map to users, registration is
    first-come, and login compares the stored password as given. */
module Users {
  import opened Results

  datatype User = User(id: string, username: string, password: string)

  /** `GenerateIDFailed` is the id generator's error. */
  datatype UserError = NoUser | BadPass | AlreadyExists | GenerateIDFailed

  class UserMemoryRepo {
    var users: map<string, User>

    /** Every user is filed under its own username. */
    ghost predicate Valid()
      reads this
    {
      forall name :: name in users ==> users[name].username == name
    }

    constructor ()
      ensures Valid() && users == map[]
    {
      users := map[];
    }

    /** Looks the user up and compares passwords; the table is only read. */
    method Authorize(username: string, password: string) returns (r: Result<User, UserError>)
      requires Valid()
      ensures username !in users ==> r == Failure(NoUser)
      ensures username in users && users[username].password != password ==> r == Failure(BadPass)
      ensures username in users && users[username].password == password ==> r == Success(users[username])
      ensures r.Success? ==> r.value.username == username && r.value.password == password
    {
      if username !in users {
        return Failure(NoUser);
      }
      var u := users[username];
      if u.password != password {
        return Failure(BadPass);
      }
      r := Success(u);
    }

    /** Adds a user under a new username. `newID` is the id generator's
        answer, None when it failed; it is asked only once the name is known
        to be free. */
    method Register(username: string, password: string, newID: Option<string>) returns (r: Result<User, UserError>)
      requires Valid()
      modifies this
      ensures Valid()
      ensures username in old(users) ==> r == Failure(AlreadyExists) && users == old(users)
      ensures username !in old(users) && newID.None? ==> r == Failure(GenerateIDFailed) && users == old(users)
      ensures username !in old(users) && newID.Some? ==>
                && r == Success(User(newID.value, username, password))
                && users == old(users)[username := r.value]
                && |users| == |old(users)| + 1
    {
      if username in users {
        return Failure(AlreadyExists);
      }
      if newID.None? {
        return Failure(GenerateIDFailed);
      }
      var u := User(newID.value, username, password);
      users := users[username := u];
      r := Success(u);
    }
  }

  /** Registering and then logging in with the same credentials yields the
      registered user; a second registration of the name is refused. */
  method RegisterThenAuthorize(repo: UserMemoryRepo, username: string, password: string,
                               newID: Option<string>, otherID: Option<string>)
    returns (registered: Result<User, UserError>, authorized: Result<User, UserError>,
             again: Result<User, UserError>)
    requires repo.Valid()
    modifies repo
    ensures registered.Success? ==> authorized == registered && again == Failure(AlreadyExists)
  {
    registered := repo.Register(username, password, newID);
    authorized := repo.Authorize(username, password);
    again := repo.Register(username, password, otherID);
  }
}
