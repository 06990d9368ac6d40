/** Users and the username index that finds them. */
module UserStore {

  import opened Wrappers

  /** The lockout fields are `failed`, `lastFailed`, `lockedAt` and `until`. */
  datatype User = User(
    id: string, username: string, hash: string, role: string, active: bool,
    failed: nat, lastFailed: Option<int>, lockedAt: Option<int>, until: Option<int>, lastLogin: Option<int>)

  datatype UserError = ErrInvalid | ErrUserExists | ErrUserNotFound

  function Unlocked(u: User): User {
    u.(failed := 0, lastFailed := None, lockedAt := None, until := None)
  }

  ghost predicate Inverse(users: map<string, User>, index: map<string, string>) {
    (forall id :: id in users ==>
       users[id].id == id && users[id].username in index && index[users[id].username] == id)
    && forall n :: n in index ==> index[n] in users && users[index[n]].username == n
  }

  /** An exact inverse leaves no choice: the users determine the index. */
  lemma InverseIsUnique(users: map<string, User>, a: map<string, string>, b: map<string, string>)
    requires Inverse(users, a) && Inverse(users, b)
    ensures a == b
  {
    assert forall n :: n in a <==> n in b;
  }

  class MemoryUserStore {
    var users: map<string, User>
    var usernameIndex: map<string, string>

    constructor ()
      ensures Valid() && users == map[]
    {
      users, usernameIndex := map[], map[];
    }

    ghost predicate Valid()
      reads this
    {
      Inverse(users, usernameIndex) && "" !in users
    }

    method Create(user: User) returns (r: Result<(), UserError>)
      requires Valid()
      modifies this
      ensures Valid()
      ensures r.Ok? <==> user.id != "" && user.username != "" && user.id !in old(users)
                         && forall id :: id in old(users) ==> old(users)[id].username != user.username
      ensures r.Err? ==> r.error == if user.id == "" || user.username == "" then ErrInvalid else ErrUserExists
      ensures users == if r.Ok? then old(users)[user.id := user] else old(users)
    {
      if user.id == "" || user.username == "" {
        return Err(ErrInvalid);
      }
      if user.id in users || user.username in usernameIndex {
        return Err(ErrUserExists);
      }
      users := users[user.id := user];
      usernameIndex := usernameIndex[user.username := user.id];
      r := Ok(());
    }

    method GetByID(id: string) returns (r: Option<User>)
      ensures r == if id != "" && id in users then Some(users[id]) else None
    {
      r := if id != "" && id in users then Some(users[id]) else None;
    }

    /** Finds what a full scan would find. */
    method GetByUsername(username: string) returns (r: Option<User>)
      requires Valid()
      ensures r.Some? ==> r.value.id in users && users[r.value.id] == r.value && r.value.username == username
      ensures r.None? ==> username == "" || forall id :: id in users ==> users[id].username != username
    {
      if username == "" || username !in usernameIndex {
        return None;
      }
      r := Some(users[usernameIndex[username]]);
    }

    /** A rename moves the index entry; it fails when the new name is taken. */
    method Update(user: User) returns (r: Result<(), UserError>)
      requires Valid()
      modifies this
      ensures Valid()
      ensures r.Ok? <==> user.id != "" && user.id in old(users)
                         && forall id :: id in old(users) && id != user.id ==> old(users)[id].username != user.username
      ensures r.Err? ==> r.error == if user.id in old(users) then ErrUserExists else ErrUserNotFound
      ensures users == if r.Ok? then old(users)[user.id := user] else old(users)
    {
      if user.id == "" || user.id !in users {
        return Err(ErrUserNotFound);
      }
      var existing := users[user.id];
      if existing.username != user.username {
        if user.username in usernameIndex {
          return Err(ErrUserExists);
        }
        usernameIndex := usernameIndex - {existing.username};
        usernameIndex := usernameIndex[user.username := user.id];
      }
      users := users[user.id := user];
      r := Ok(());
    }

    method Delete(id: string) returns (r: Result<(), UserError>)
      requires Valid()
      modifies this
      ensures Valid()
      ensures r == if id in old(users) then Ok(()) else Err(ErrUserNotFound)
      ensures users == if r.Ok? then old(users) - {id} else old(users)
    {
      if id == "" || id !in users {
        return Err(ErrUserNotFound);
      }
      usernameIndex := usernameIndex - {users[id].username};
      users := users - {id};
      r := Ok(());
    }

    /** A successful login also clears the lockout state. */
    method UpdateLastLogin(id: string, t: int) returns (r: Result<(), UserError>)
      requires Valid()
      modifies this
      ensures Valid()
      ensures r == if id in old(users) then Ok(()) else Err(ErrUserNotFound)
      ensures users == if r.Ok? then old(users)[id := Unlocked(old(users)[id]).(lastLogin := Some(t))] else old(users)
    {
      if id !in users {
        return Err(ErrUserNotFound);
      }
      users := users[id := Unlocked(users[id]).(lastLogin := Some(t))];
      r := Ok(());
    }
  }
}
