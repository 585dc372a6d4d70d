/**
  The user handlers: e-mail addresses are unique across users (active or
  not), the update merges falsy fields with the stored ones, and
  deactivation and reactivation only flip the active flag.
 */
module Users {
  import opened Kanban

  /** Some user is registered with `email`. */
  predicate EmailTaken(s: Store, email: string)
  {
    exists u :: u in s.users && s.users[u].email == email
  }

  /** No two users share an e-mail address. */
  ghost predicate EmailsUnique(s: Store)
  {
    forall u, v :: u in s.users && v in s.users && u != v ==> s.users[u].email != s.users[v].email
  }

  /** Registering user `id`: refused when the e-mail is taken; a new user is
      active. */
  function CreateUser(s: Store, id: Id, fullName: string, email: string, password: string): (r: Result<Store>)
    requires id !in s.users
    ensures r.Ok? <==> !EmailTaken(s, email)
    ensures r.Err? ==> r.error == BadRequest
    ensures r.Ok? ==> r.value.users == s.users[id := User(fullName, email, password, true)]
    ensures r.Ok? ==> r.value.(users := s.users) == s
  {
    if EmailTaken(s, email) then Err(BadRequest)
    else Ok(s.(users := s.users[id := User(fullName, email, password, true)]))
  }

  /** Updating user `id`: the user must exist, and a truthy e-mail that
      differs from the stored one must not be registered. Falsy fields keep
      the stored values; the active flag stays. */
  function UpdateUser(s: Store, id: Id, fullName: Option<string>, email: Option<string>, password: Option<string>): (r: Result<Store>)
    ensures id !in s.users ==> r == Err(NotFound)
    ensures r.Ok? <==> id in s.users && !(Truthy(email) && email.value != s.users[id].email && EmailTaken(s, email.value))
    ensures r.Err? && id in s.users ==> r.error == BadRequest
    ensures r.Ok? ==> r.value.users.Keys == s.users.Keys
    ensures r.Ok? ==> forall u :: u in s.users && u != id ==> r.value.users[u] == s.users[u]
    ensures r.Ok? ==> var prev, next := s.users[id], r.value.users[id];
      && next.fullName == (if Truthy(fullName) then fullName.value else prev.fullName)
      && next.email == (if Truthy(email) then email.value else prev.email)
      && next.password == (if Truthy(password) then password.value else prev.password)
      && next.isActive == prev.isActive
    ensures r.Ok? ==> r.value.(users := s.users) == s
  {
    if id !in s.users then
      Err(NotFound)
    else if Truthy(email) && email.value != s.users[id].email && EmailTaken(s, email.value) then
      Err(BadRequest)
    else
      var u := s.users[id];
      Ok(s.(users := s.users[id := u.(fullName := OrElse(fullName, u.fullName), email := OrElse(email, u.email),
                                        password := OrElse(password, u.password))]))
  }

  /** Repeating an update request changes nothing more: the second time the
      e-mail is the user's own, so it is not checked again. */
  lemma UpdateUserIdempotent(s: Store, id: Id, fullName: Option<string>, email: Option<string>, password: Option<string>)
    requires UpdateUser(s, id, fullName, email, password).Ok?
    ensures UpdateUser(UpdateUser(s, id, fullName, email, password).value, id, fullName, email, password)
         == UpdateUser(s, id, fullName, email, password)
  {
    var s' := UpdateUser(s, id, fullName, email, password).value;
    assert s'.users[id := s'.users[id]] == s'.users;
  }

  /** deactivateUser (`active` false) and reactivateUser (`active` true):
      the active flag of user `id` is set and nothing else changes, in
      particular none of the user's boards or memberships. */
  function SetActive(s: Store, id: Id, active: bool): (r: Result<Store>)
    ensures r.Ok? <==> id in s.users
    ensures r.Err? ==> r.error == NotFound
    ensures r.Ok? ==> r.value.users.Keys == s.users.Keys
    ensures r.Ok? ==> r.value.users[id] == s.users[id].(isActive := active)
    ensures r.Ok? ==> forall u :: u in s.users && u != id ==> r.value.users[u] == s.users[u]
    ensures r.Ok? ==> r.value.(users := s.users) == s
  {
    if id !in s.users then Err(NotFound)
    else Ok(s.(users := s.users[id := s.users[id].(isActive := active)]))
  }

  /** Reactivating a deactivated user restores the store when the user was
      active, and deactivating a reactivated one when the user was not. */
  lemma DeactivateReactivateRoundTrip(s: Store, id: Id)
    requires id in s.users
    ensures s.users[id].isActive ==> SetActive(SetActive(s, id, false).value, id, true) == Ok(s)
    ensures !s.users[id].isActive ==> SetActive(SetActive(s, id, true).value, id, false) == Ok(s)
  {
    var u := s.users[id];
    if u.isActive {
      assert s.users[id := u.(isActive := false)][id := u] == s.users;
    } else {
      assert s.users[id := u.(isActive := true)][id := u] == s.users;
    }
  }

  /** Registering a user keeps e-mail addresses unique. */
  lemma CreateUserKeepsEmailsUnique(s: Store, id: Id, fullName: string, email: string, password: string)
    requires id !in s.users && EmailsUnique(s)
    requires CreateUser(s, id, fullName, email, password).Ok?
    ensures EmailsUnique(CreateUser(s, id, fullName, email, password).value)
  {
    var s' := CreateUser(s, id, fullName, email, password).value;
    forall u, v | u in s'.users && v in s'.users && u != v
      ensures s'.users[u].email != s'.users[v].email
    {
      if u == id {
        assert !(v in s.users && s.users[v].email == email);
      } else if v == id {
        assert !(u in s.users && s.users[u].email == email);
      }
    }
  }

  /** Updating a user keeps e-mail addresses unique. */
  lemma UpdateUserKeepsEmailsUnique(s: Store, id: Id, fullName: Option<string>, email: Option<string>, password: Option<string>)
    requires EmailsUnique(s)
    requires UpdateUser(s, id, fullName, email, password).Ok?
    ensures EmailsUnique(UpdateUser(s, id, fullName, email, password).value)
  {
    var s' := UpdateUser(s, id, fullName, email, password).value;
    forall u, v | u in s'.users && v in s'.users && u != v
      ensures s'.users[u].email != s'.users[v].email
    {
      if u == id && Truthy(email) && email.value != s.users[id].email {
        assert !(v in s.users && s.users[v].email == email.value);
      } else if v == id && Truthy(email) && email.value != s.users[id].email {
        assert !(u in s.users && s.users[u].email == email.value);
      }
    }
  }
}
