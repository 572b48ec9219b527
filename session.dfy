/** Login against the fixed credential table `usersDefault`, and the role gate of deletion. */
module Session {
  import opened Wrappers

  /** The three roles; the component spells them "admin", "operator" and "kepala". */
  datatype Role = Admin | Operator | Kepala

  /** An entry of the credential table; the logged-in `user` is one of them. */
  datatype User = User(username: string, password: string, role: Role)

  /** `Object.values(usersDefault)`: the table in declaration order. */
  const UsersDefault: seq<User> := [
    User("admin", "admin", Admin),
    User("sarpras", "sarpras", Operator),
    User("kepsek", "kepsek", Kepala)
  ]

  /** The predicate handed to `find`: both fields match exactly. */
  predicate HasCredentials(u: User, username: string, password: string) {
    u.username == username && u.password == password
  }

  /** `users.find(...)`: the first entry with exactly these credentials, if any. */
  function FindUser(users: seq<User>, username: string, password: string): (r: Option<User>)
    ensures r.Some? <==> exists j :: 0 <= j < |users| && HasCredentials(users[j], username, password)
    ensures r.Some? ==> HasCredentials(r.value, username, password)
    ensures r.Some? ==> exists j :: 0 <= j < |users| && users[j] == r.value &&
                                    (forall i :: 0 <= i < j ==> !HasCredentials(users[i], username, password))
    decreases |users|
  {
    if users == [] then None
    else if HasCredentials(users[0], username, password) then Some(users[0])
    else
      var r := FindUser(users[1..], username, password);
      assert forall j :: 1 <= j < |users| ==> users[j] == users[1..][j - 1];
      r
  }

  /** The lookup of `handleLogin`: it finds a user exactly when an entry of the table has
      these credentials, and the user found is that entry. */
  function Login(username: string, password: string): (r: Option<User>)
    ensures r.Some? <==> exists u :: u in UsersDefault && HasCredentials(u, username, password)
    ensures r.Some? ==> r.value in UsersDefault && HasCredentials(r.value, username, password)
  {
    FindUser(UsersDefault, username, password)
  }

  /** Login succeeds for exactly the three table pairs, each giving its own role;
      any other pair fails. */
  lemma LoginTable(username: string, password: string)
    ensures Login(username, password) ==
      if username == "admin" && password == "admin" then Some(User("admin", "admin", Admin))
      else if username == "sarpras" && password == "sarpras" then Some(User("sarpras", "sarpras", Operator))
      else if username == "kepsek" && password == "kepsek" then Some(User("kepsek", "kepsek", Kepala))
      else None
  {
    assert UsersDefault[1..][1..] == [User("kepsek", "kepsek", Kepala)];
  }

  /** The check at the head of `hapusItem`: a user is logged in and has the admin role. */
  predicate MayDelete(user: Option<User>) {
    user.Some? && user.value.role == Admin
  }

  /** The UI gate of the entry form (and of the Edit buttons): every role but `kepala`. */
  predicate FormVisible(user: Option<User>) {
    user.Some? && user.value.role != Kepala
  }

  /** Deletion is open to the login admin/admin and to no other. */
  lemma MayDeleteByLogin(username: string, password: string)
    ensures MayDelete(Login(username, password)) <==> (username == "admin" && password == "admin")
  {
    LoginTable(username, password);
  }

  /** The entry form is shown after the logins admin/admin and sarpras/sarpras and after no
      other; in particular the head of school (kepsek) cannot add or edit records. */
  lemma FormVisibleByLogin(username: string, password: string)
    ensures FormVisible(Login(username, password)) <==>
      (username == "admin" && password == "admin") || (username == "sarpras" && password == "sarpras")
    ensures MayDelete(Login(username, password)) ==> FormVisible(Login(username, password))
  {
    LoginTable(username, password);
  }
}
