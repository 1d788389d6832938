/**
 * The account directory: the signup duplicate check, the login lookup with
 * its optional admin-only rule, and the customer list of the admin pages.
 */
module Accounts {
  import opened Domain

  /** Some stored account already carries the username (the signup check, src/App.js:202). */
  predicate UsernameTaken(users: seq<User>, username: string)
  {
    exists u :: u in users && u.username == username
  }

  /** The directory invariant signup keeps: no username twice. */
  predicate UniqueUsernames(users: seq<User>)
  {
    forall i, j :: 0 <= i < j < |users| ==> users[i].username != users[j].username
  }

  /** What signup leaves in the directory: the list unchanged on a taken name, otherwise the new user appended. */
  function Register(users: seq<User>, username: string, password: string, role: Role): (r: seq<User>)
    ensures UsernameTaken(users, username) ==> r == users
    ensures !UsernameTaken(users, username) ==> r == users + [User(username, password, role)]
    ensures UniqueUsernames(users) ==> UniqueUsernames(r)
  {
    if UsernameTaken(users, username) then users
    else users + [User(username, password, role)]
  }

  /** The first account whose username and password both match, if any (the login lookup, src/App.js:139-141). */
  function FindUser(users: seq<User>, username: string, password: string): (r: Option<User>)
    ensures r.None? <==> forall u :: u in users ==> !(u.username == username && u.password == password)
    ensures r.Some? ==> exists i :: 0 <= i < |users| && users[i] == r.value &&
                          r.value.username == username && r.value.password == password &&
                          forall j :: 0 <= j < i ==> !(users[j].username == username && users[j].password == password)
  {
    if users == [] then None
    else if users[0].username == username && users[0].password == password then Some(users[0])
    else
      var r := FindUser(users[1..], username, password);
      FirstMatchBehindHead(users, username, password, r);
      r
  }

  /** A first match in the tail, behind a head that does not match, is the first match of the whole directory. */
  lemma FirstMatchBehindHead(users: seq<User>, username: string, password: string, r: Option<User>)
    requires users != [] && !(users[0].username == username && users[0].password == password)
    requires r.Some? ==> exists i :: 0 <= i < |users[1..]| && users[1..][i] == r.value &&
                           r.value.username == username && r.value.password == password &&
                           forall j :: 0 <= j < i ==> !(users[1..][j].username == username && users[1..][j].password == password)
    ensures r.Some? ==> exists i :: 0 <= i < |users| && users[i] == r.value &&
                          r.value.username == username && r.value.password == password &&
                          forall j :: 0 <= j < i ==> !(users[j].username == username && users[j].password == password)
  {
    if r.Some? {
      var i :| 0 <= i < |users[1..]| && users[1..][i] == r.value &&
               r.value.username == username && r.value.password == password &&
               forall j :: 0 <= j < i ==> !(users[1..][j].username == username && users[1..][j].password == password);
      assert users[i + 1] == r.value;
    }
  }

  /** The three ways a login attempt ends. */
  datatype LoginResult = LoggedIn(user: User) | NotAnAdmin | InvalidCredentials

  /**
   * The login decision: the first user whose name and password both match
   * logs in, except that with the admin box ticked a non-admin match is
   * refused; without the box the role is not looked at.
   */
  function CheckLogin(users: seq<User>, username: string, password: string, asAdmin: bool): (r: LoginResult)
    ensures r.InvalidCredentials? <==> forall u :: u in users ==> !(u.username == username && u.password == password)
    ensures r.LoggedIn? ==> r.user in users && r.user.username == username && r.user.password == password
    ensures r.LoggedIn? && asAdmin ==> r.user.role == AdminRole
    ensures r.NotAnAdmin? <==> asAdmin && FindUser(users, username, password).Some? &&
                               FindUser(users, username, password).value.role != AdminRole
    ensures r.LoggedIn? ==> FindUser(users, username, password) == Some(r.user)
    ensures !asAdmin ==> !r.NotAnAdmin?
  {
    match FindUser(users, username, password)
    case None => InvalidCredentials
    case Some(u) => if asAdmin && u.role != AdminRole then NotAnAdmin else LoggedIn(u)
  }

  /** With unique usernames, a successful login names the one account carrying that username. */
  lemma LoginIdentifiesAccount(users: seq<User>, username: string, password: string, asAdmin: bool, u: User)
    requires UniqueUsernames(users)
    requires u in users && u.username == username
    requires CheckLogin(users, username, password, asAdmin).LoggedIn?
    ensures CheckLogin(users, username, password, asAdmin).user == u
  {
    var v := CheckLogin(users, username, password, asAdmin).user;
    var i :| 0 <= i < |users| && users[i] == u;
    var k :| 0 <= k < |users| && users[k] == v;
  }

  /** A fresh signup can log in at once with the password it chose (subject to the admin box). */
  lemma {:induction false} SignupThenLogin(users: seq<User>, username: string, password: string, role: Role, asAdmin: bool)
    requires !UsernameTaken(users, username)
    ensures CheckLogin(Register(users, username, password, role), username, password, asAdmin) ==
              if asAdmin && role != AdminRole then NotAnAdmin else LoggedIn(User(username, password, role))
  {
    var r := Register(users, username, password, role);
    var f := FindUser(r, username, password);
    assert r[|users|] in r;
    assert f.Some?;
    var i :| 0 <= i < |r| && r[i] == f.value && f.value.username == username;
  }

  /** The accounts with the customer role, in stored order: the customer list of the admin pages (src/App.js:577, 872). */
  function Customers(users: seq<User>): (r: seq<User>)
    ensures IsSubseq(r, users)
    ensures forall u :: u in r ==> u.role == UserRole
    ensures forall u: User :: u.role == UserRole ==> multiset(r)[u] == multiset(users)[u]
  {
    if users == [] then []
    else
      var rest := Customers(users[1..]);
      assert users == [users[0]] + users[1..];
      if users[0].role == UserRole then [users[0]] + rest else rest
  }

  /** The account written on first load. */
  const SeedAdmin: User := User("admin", "admin123", AdminRole)

  /** The seeded administrator can log in with or without the admin box ticked. */
  lemma SeedAdminLogin()
    ensures CheckLogin([SeedAdmin], "admin", "admin123", true) == LoggedIn(SeedAdmin)
    ensures CheckLogin([SeedAdmin], "admin", "admin123", false) == LoggedIn(SeedAdmin)
    ensures CheckLogin([SeedAdmin], "admin", "wrong", false) == InvalidCredentials
  {
  }
}
