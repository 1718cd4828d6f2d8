/**
 * The client's authentication store (src/stores/authStore.ts): a local list
 * of accounts with plain-text passwords, the signed-in user and the flag
 * that says whether anyone is signed in. `stamp` stands for
 * Date.now().toString().
 */
module Auth {
  import opened Wrappers

  datatype Role = Admin | User

  /** An account as the store keeps it, password included. */
  datatype LocalUser = LocalUser(id: string, username: string, password: string, role: Role)

  /** The signed-in user: the account without its password. */
  datatype SessionUser = SessionUser(id: string, username: string, role: Role)

  function WithoutPassword(u: LocalUser): SessionUser {
    SessionUser(u.id, u.username, u.role)
  }

  /** The two accounts set up when there are none. */
  function InitialUsers(): seq<LocalUser> {
    [LocalUser("1", "admin", "admin123", Admin), LocalUser("2", "user", "user123", User)]
  }

  predicate Matches(u: LocalUser, username: string, password: string) {
    u.username == username && u.password == password
  }

  /** users.find(...): the first account whose username and password both match. */
  function FindCredentials(users: seq<LocalUser>, username: string, password: string): (r: Option<LocalUser>)
    ensures r.None? <==> forall i :: 0 <= i < |users| ==> !Matches(users[i], username, password)
    ensures r.Some? ==> exists i :: 0 <= i < |users| && users[i] == r.value && Matches(r.value, username, password)
                                    && forall j :: 0 <= j < i ==> !Matches(users[j], username, password)
    decreases |users|
  {
    if |users| == 0 then None
    else if Matches(users[0], username, password) then Some(users[0])
    else
      var r := FindCredentials(users[1..], username, password);
      assert forall i :: 1 <= i < |users| ==> users[i] == users[1..][i - 1];
      if r.Some? then
        assert exists i :: 1 <= i < |users| && users[i] == r.value
                           && forall j :: 0 <= j < i ==> !Matches(users[j], username, password) by {
          var k :| 0 <= k < |users[1..]| && users[1..][k] == r.value
                   && forall j :: 0 <= j < k ==> !Matches(users[1..][j], username, password);
          assert users[k + 1] == r.value;
          forall j | 1 <= j < k + 1 ensures !Matches(users[j], username, password) {
            assert users[j] == users[1..][j - 1];
          }
        }
        r
      else
        r
  }

  /** users.filter(u => u.id !== id): every account without that id, in order. */
  function WithoutId(users: seq<LocalUser>, id: string): (r: seq<LocalUser>)
    ensures |r| <= |users|
    ensures forall u :: u in r <==> u in users && u.id != id
    decreases |users|
  {
    if |users| == 0 then []
    else
      var rest := WithoutId(users[1..], id);
      assert forall u :: u in users <==> u == users[0] || u in users[1..];
      if users[0].id == id then rest else [users[0]] + rest
  }

  /** Filtering a list in two parts filters each part in turn. */
  lemma {:induction false} WithoutIdConcat(a: seq<LocalUser>, b: seq<LocalUser>, id: string)
    ensures WithoutId(a + b, id) == WithoutId(a, id) + WithoutId(b, id)
    decreases |a|
  {
    if |a| == 0 {
      assert a + b == b;
    } else {
      assert (a + b)[1..] == a[1..] + b;
      WithoutIdConcat(a[1..], b, id);
    }
  }

  /** Deleting an id no account has changes nothing. */
  lemma {:induction false} WithoutAbsentId(users: seq<LocalUser>, id: string)
    requires forall i :: 0 <= i < |users| ==> users[i].id != id
    ensures WithoutId(users, id) == users
    decreases |users|
  {
    if |users| > 0 {
      WithoutAbsentId(users[1..], id);
      assert [users[0]] + users[1..] == users;
    }
  }

  class AuthStore {
    var user: Option<SessionUser>
    var isAuthenticated: bool
    var users: seq<LocalUser>

    /** The flag is set exactly when a user is signed in. */
    ghost predicate Valid()
      reads this
    {
      isAuthenticated <==> user.Some?
    }

    /** Nobody signed in and no accounts yet. */
    constructor ()
      ensures Valid() && user == None && !isAuthenticated && users == []
    {
      user := None;
      isAuthenticated := false;
      users := [];
    }

    /** initialize: sets up the two initial accounts only when there are none. */
    method Initialize()
      requires Valid()
      modifies this
      ensures Valid()
      ensures users == if old(users) == [] then InitialUsers() else old(users)
      ensures user == old(user) && isAuthenticated == old(isAuthenticated)
    {
      if |users| == 0 {
        users := InitialUsers();
      }
    }

    /**
     * login: succeeds exactly when some account has both that username and that
     * password, and then signs in the first such account without its password;
     * a failed attempt changes nothing, not even an existing session.
     */
    method Login(username: string, password: string) returns (success: bool)
      requires Valid()
      modifies this
      ensures Valid()
      ensures success <==> exists i :: 0 <= i < |old(users)| && Matches(old(users)[i], username, password)
      ensures success ==> user == Some(WithoutPassword(FindCredentials(old(users), username, password).value))
                          && isAuthenticated
      ensures !success ==> user == old(user) && isAuthenticated == old(isAuthenticated)
      ensures users == old(users)
    {
      var found := FindCredentials(users, username, password);
      if found.Some? {
        user := Some(WithoutPassword(found.value));
        isAuthenticated := true;
        return true;
      }
      return false;
    }

    /** logout: nobody is signed in afterwards; the accounts stay. */
    method Logout()
      modifies this
      ensures Valid() && user == None && !isAuthenticated
      ensures users == old(users)
    {
      user := None;
      isAuthenticated := false;
    }

    /** addUser: appends one account; a username already taken is not refused. */
    method AddUser(username: string, password: string, role: Role, stamp: string)
      requires Valid()
      modifies this
      ensures Valid()
      ensures users == old(users) + [LocalUser(stamp, username, password, role)]
      ensures user == old(user) && isAuthenticated == old(isAuthenticated)
    {
      var newUser := LocalUser(stamp, username, password, role);
      users := users + [newUser];
    }

    /**
     * deleteUser: refuses, by changing nothing, to delete the signed-in user's
     * own id; otherwise removes every account with that id.
     */
    method DeleteUser(id: string)
      requires Valid()
      modifies this
      ensures Valid()
      ensures user == old(user) && isAuthenticated == old(isAuthenticated)
      ensures users == if old(user).Some? && old(user).value.id == id then old(users) else WithoutId(old(users), id)
      ensures user.Some? ==> forall u :: u in old(users) && u.id == user.value.id ==> u in users
    {
      if user.Some? && user.value.id == id {
        return;
      }
      users := WithoutId(users, id);
    }
  }
}
