/** Looking users up by name and checking a password hash against the stored one. */
module Credentials {
  import opened Records

  /** The `UNIQUE` constraint on `users.username`: no name is stored twice. */
  predicate UniqueNames(users: seq<User>)
  {
    forall i, j :: 0 <= i < j < |users| ==> users[i].username != users[j].username
  }

  predicate NameTaken(users: seq<User>, name: string)
  {
    exists i :: 0 <= i < |users| && users[i].username == name
  }

  /** Some stored user has this name and this password hash. */
  predicate CredentialsMatch(users: seq<User>, name: string, passwordHash: string)
  {
    exists i :: 0 <= i < |users| && users[i].username == name && users[i].passwordHash == passwordHash
  }

  /** `SELECT id, password_hash FROM users WHERE username = ?` followed by
      `fetchone()`: the first row with that name, in table order, if any. */
  function FindUser(users: seq<User>, name: string): (r: Option<User>)
    ensures r.None? <==> !NameTaken(users, name)
    ensures r.Some? ==> exists i :: 0 <= i < |users| && users[i] == r.value && r.value.username == name
                                    && forall j :: 0 <= j < i ==> users[j].username != name
  {
    if users == [] then None
    else if users[0].username == name then Some(users[0])
    else
      var r := FindUser(users[1..], name);
      assert forall i :: 0 < i < |users| ==> users[i] == users[1..][i - 1];
      r
  }

  /** With unique names, the lookup returns the one row that has the name. */
  lemma {:induction false} FindUserUnique(users: seq<User>, name: string, i: nat)
    requires UniqueNames(users)
    requires i < |users| && users[i].username == name
    ensures FindUser(users, name) == Some(users[i])
  {
    if i > 0 {
      assert users[0].username != name;
      FindUserUnique(users[1..], name, i - 1);
    }
  }

  /** The login check: the looked-up row's id when its stored hash equals the
      hash of the supplied password; nothing when the name is unknown or the
      hash differs, with no difference between those two failures. */
  function Authenticate(users: seq<User>, name: string, passwordHash: string): (r: Option<UserId>)
    ensures r.Some? ==> exists i :: 0 <= i < |users| && users[i].username == name
                                    && users[i].passwordHash == passwordHash && users[i].id == r.value
    ensures !NameTaken(users, name) ==> r.None?
  {
    match FindUser(users, name)
    case None => None
    case Some(u) => if u.passwordHash == passwordHash then Some(u.id) else None
  }

  /** With unique names, login succeeds exactly when a row has both the name
      and the hash, and it yields that row's id. */
  lemma AuthenticateIff(users: seq<User>, name: string, passwordHash: string)
    requires UniqueNames(users)
    ensures Authenticate(users, name, passwordHash).Some? <==> CredentialsMatch(users, name, passwordHash)
    ensures forall i :: 0 <= i < |users| && users[i].username == name && users[i].passwordHash == passwordHash
                        ==> Authenticate(users, name, passwordHash) == Some(users[i].id)
  {
    forall i | 0 <= i < |users| && users[i].username == name
      ensures FindUser(users, name) == Some(users[i])
    {
      FindUserUnique(users, name, i);
    }
  }

  /** The row a successful registration appends. */
  function Registered(users: seq<User>, name: string, passwordHash: string): seq<User>
  {
    users + [User(|users| + 1, name, passwordHash)]
  }

  /** Logging in with the password just registered yields the new user's id;
      any password with another hash is refused. */
  lemma RegisterThenAuthenticate(users: seq<User>, name: string, passwordHash: string, otherHash: string)
    requires UniqueNames(users) && !NameTaken(users, name)
    requires otherHash != passwordHash
    ensures UniqueNames(Registered(users, name, passwordHash))
    ensures Authenticate(Registered(users, name, passwordHash), name, passwordHash) == Some(|users| + 1)
    ensures Authenticate(Registered(users, name, passwordHash), name, otherHash).None?
  {
    var after := Registered(users, name, passwordHash);
    FindUserUnique(after, name, |users|);
  }

  /** Registering a name changes nothing about logging in under any other name. */
  lemma RegisterKeepsOtherLogins(users: seq<User>, name: string, passwordHash: string, other: string, otherHash: string)
    requires UniqueNames(users) && !NameTaken(users, name)
    requires other != name
    ensures Authenticate(Registered(users, name, passwordHash), other, otherHash) == Authenticate(users, other, otherHash)
  {
    var after := Registered(users, name, passwordHash);
    assert UniqueNames(after);
    if i :| 0 <= i < |users| && users[i].username == other {
      FindUserUnique(users, other, i);
      FindUserUnique(after, other, i);
    } else {
      assert !NameTaken(after, other);
    }
  }
}
