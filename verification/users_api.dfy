/**
 * The user endpoint (api/users.php): a JSON file of user accounts with hashed
 * passwords, seeded with two default accounts the first time, and the list,
 * login, add and delete operations over it.
 *
 * The file is the object UserFile: every request reads its `users`, and add
 * and delete rewrite them whole. Hashing is outside the model: the hashes
 * password_hash would produce are inputs, and password_verify is a parameter.
 */
module UsersApi {
  import opened Wrappers
  import opened Text
  import opened Http

  /** A stored account; `password` holds the hash. */
  datatype StoredUser = StoredUser(id: string, username: string, password: string, role: string)

  /** An account as the endpoint shows it: without the password field. */
  datatype PublicUser = PublicUser(id: string, username: string, role: string)

  function Public(u: StoredUser): PublicUser {
    PublicUser(u.id, u.username, u.role)
  }

  datatype Body =
    | UserList(users: seq<PublicUser>)
    | LoggedIn(user: PublicUser)
    | Created(user: PublicUser)
    | Deleted
    | Error(error: string)
    | NoBody

  datatype Reply = Reply(status: int, body: Body)

  /** The two accounts written when the file does not exist yet. */
  function DefaultUsers(adminHash: string, userHash: string): seq<StoredUser> {
    [StoredUser("1", "admin", adminHash, "admin"), StoredUser("2", "user", userHash, "user")]
  }

  /** users.json. */
  class UserFile {
    var present: bool
    var users: seq<StoredUser>

    constructor ()
      ensures !present && users == []
    {
      present := false;
      users := [];
    }

    /**
     * Runs before every request: writes the default accounts (with the hashes of
     * "admin123" and "user123") only when the file does not exist.
     */
    method SeedDefaults(adminHash: string, userHash: string)
      modifies this
      ensures present
      ensures users == Seeded(old(present), old(users), adminHash, userHash)
    {
      if !present {
        users := DefaultUsers(adminHash, userHash);
        present := true;
      }
    }
  }

  /** isAdmin: a placeholder that grants every caller admin rights. */
  function IsAdmin(): bool {
    true
  }

  /** `i` is the position of the first account called `name`. */
  predicate IsFirstNamed(stored: seq<StoredUser>, name: string, i: int) {
    && 0 <= i < |stored|
    && stored[i].username == name
    && forall j :: 0 <= j < i ==> stored[j].username != name
  }

  /** `i` is the position of the first account with id `id`. */
  predicate IsFirstWithId(stored: seq<StoredUser>, id: string, i: int) {
    && 0 <= i < |stored|
    && stored[i].id == id
    && forall j :: 0 <= j < i ==> stored[j].id != id
  }

  /** getUsers: every account, in stored order, without its password. */
  method GetUsers(stored: seq<StoredUser>) returns (users: seq<PublicUser>)
    ensures |users| == |stored|
    ensures forall i :: 0 <= i < |stored| ==> users[i] == Public(stored[i])
  {
    users := [];
    for i := 0 to |stored|
      invariant |users| == i
      invariant forall k :: 0 <= k < i ==> users[k] == Public(stored[k])
    {
      users := users + [Public(stored[i])];
    }
  }

  /**
   * What login answers over the accounts `stored`: 400 without username or
   * password; 200 with the account (without password) when the first account
   * with that username accepts the password; 401 otherwise.
   */
  ghost predicate LoginOutcome(stored: seq<StoredUser>, data: RequestData, verify: (string, string) -> bool,
                               reply: Reply)
  {
    if !(Isset(data, "username") && Isset(data, "password")) then
      reply == Reply(400, Error("Missing username or password"))
    else
      var name, password := data.value["username"], data.value["password"];
      if exists i :: IsFirstNamed(stored, name, i) && verify(password, stored[i].password)
      then exists i :: IsFirstNamed(stored, name, i) && reply == Reply(200, LoggedIn(Public(stored[i])))
      else reply == Reply(401, Error("Invalid username or password"))
  }

  /**
   * login: 400 without username or password; otherwise success exactly when
   * the first account with that username accepts the password, and 401 for an
   * unknown user and a wrong password alike.
   */
  method Login(stored: seq<StoredUser>, data: RequestData, verify: (string, string) -> bool)
    returns (reply: Reply)
    ensures LoginOutcome(stored, data, verify, reply)
  {
    if !Isset(data, "username") || !Isset(data, "password") {
      return Reply(400, Error("Missing username or password"));
    }
    var name, password := data.value["username"], data.value["password"];
    var found: Option<nat> := None;
    for i := 0 to |stored|
      invariant found.None? ==> forall j :: 0 <= j < i ==> stored[j].username != name
      invariant found.Some? ==> IsFirstNamed(stored, name, found.value)
    {
      if stored[i].username == name {
        found := Some(i);
        break;
      }
    }
    if found.Some? && verify(password, stored[found.value].password) {
      reply := Reply(200, LoggedIn(Public(stored[found.value])));
    } else {
      reply := Reply(401, Error("Invalid username or password"));
    }
  }

  /**
   * What addUser does to the accounts `before`, leaving `after`: in this order,
   * 400 for a missing field, 400 for a role other than admin or user and 400
   * for a username already taken, each leaving the accounts as they were;
   * otherwise exactly one account appended at the end and shown without its
   * password. (The 403 branch cannot be taken: isAdmin always holds.)
   */
  ghost predicate AddOutcome(before: seq<StoredUser>, data: RequestData, newId: string, passwordHash: string,
                             reply: Reply, after: seq<StoredUser>)
  {
    if !(Isset(data, "username") && Isset(data, "password") && Isset(data, "role")) then
      reply == Reply(400, Error("Missing required fields")) && after == before
    else
      var name, role := data.value["username"], data.value["role"];
      if role != "admin" && role != "user" then
        reply == Reply(400, Error("Invalid role")) && after == before
      else if exists u :: u in before && u.username == name then
        reply == Reply(400, Error("Username already exists")) && after == before
      else
        && reply == Reply(200, Created(PublicUser(newId, name, role)))
        && after == before + [StoredUser(newId, name, passwordHash, role)]
  }

  /**
   * addUser: in this order, 400 for a missing field, 403 for a non-admin, 400
   * for a role other than admin or user, 400 for a username already taken;
   * otherwise exactly one account is appended, and the reply shows it without
   * its password. `newId` stands for uniqid() and `passwordHash` for the hash
   * of the given password. The file is left alone on every failure.
   */
  method AddUser(file: UserFile, data: RequestData, newId: string, passwordHash: string)
    returns (reply: Reply)
    modifies file
    ensures reply.status != 403
    ensures file.present == (old(file.present) || reply.status == 200)
    ensures AddOutcome(old(file.users), data, newId, passwordHash, reply, file.users)
  {
    if !Isset(data, "username") || !Isset(data, "password") || !Isset(data, "role") {
      return Reply(400, Error("Missing required fields"));
    }
    if !IsAdmin() {
      return Reply(403, Error("Unauthorized"));
    }
    var name, role := data.value["username"], data.value["role"];
    if role != "admin" && role != "user" {
      return Reply(400, Error("Invalid role"));
    }
    var users := file.users;
    for i := 0 to |users|
      invariant forall j :: 0 <= j < i ==> users[j].username != name
    {
      if users[i].username == name {
        return Reply(400, Error("Username already exists"));
      }
    }
    var newUser := StoredUser(newId, name, passwordHash, role);
    file.users := users + [newUser];
    file.present := true;
    reply := Reply(200, Created(Public(newUser)));
  }

  /**
   * What deleteUser does to the accounts `before`, leaving `after`: 400 without
   * an id and 404 when no account has it, both leaving the accounts as they
   * were; otherwise only the first account with that id is removed and the
   * others are kept in order. (The 403 branch cannot be taken.)
   */
  ghost predicate DeleteOutcome(before: seq<StoredUser>, data: RequestData, reply: Reply, after: seq<StoredUser>)
  {
    if !Isset(data, "id") then
      reply == Reply(400, Error("Missing user ID")) && after == before
    else
      var id := data.value["id"];
      if forall u :: u in before ==> u.id != id then
        reply == Reply(404, Error("User not found")) && after == before
      else
        && reply == Reply(200, Deleted)
        && exists i :: IsFirstWithId(before, id, i) && after == before[..i] + before[i + 1..]
  }

  /**
   * deleteUser: 400 without an id, 403 for a non-admin, 404 when no account
   * has that id; otherwise removes only the first account with that id and
   * keeps the others in order. There is no check against deleting oneself.
   */
  method DeleteUser(file: UserFile, data: RequestData) returns (reply: Reply)
    modifies file
    ensures reply.status != 403
    ensures file.present == (old(file.present) || reply.status == 200)
    ensures DeleteOutcome(old(file.users), data, reply, file.users)
  {
    if !Isset(data, "id") {
      return Reply(400, Error("Missing user ID"));
    }
    if !IsAdmin() {
      return Reply(403, Error("Unauthorized"));
    }
    var id := data.value["id"];
    var users := file.users;
    var k := 0;
    while k < |users| && users[k].id != id
      invariant 0 <= k <= |users|
      invariant forall j :: 0 <= j < k ==> users[j].id != id
    {
      k := k + 1;
    }
    if k == |users| {
      return Reply(404, Error("User not found"));
    }
    file.users := users[..k] + users[k + 1..];
    file.present := true;
    reply := Reply(200, Deleted);
  }

  /** The endpoint name: the path without "/api/users" and the surrounding slashes. */
  function EndpointName(path: string): string {
    Trim(RemoveAll(path, "/api/users"), '/')
  }

  /** The accounts a request works on: the file's, or the defaults just written. */
  function Seeded(present: bool, users: seq<StoredUser>, adminHash: string, userHash: string): seq<StoredUser> {
    if present then users else DefaultUsers(adminHash, userHash)
  }

  /**
   * The request: OPTIONS is answered 200 at once, before anything else. Any
   * other request first seeds the defaults if needed; then GET lists, POST to
   * "login" logs in, any other POST adds a user, DELETE deletes one and every
   * other method is refused with 405.
   */
  method HandleRequest(file: UserFile, httpMethod: string, path: string, data: RequestData,
                       adminHash: string, userHash: string, verify: (string, string) -> bool,
                       newId: string, passwordHash: string)
    returns (reply: Reply)
    modifies file
    ensures httpMethod == "OPTIONS" ==> reply == Reply(200, NoBody) && unchanged(file)
    ensures httpMethod != "OPTIONS" ==> file.present
    ensures httpMethod !in {"GET", "POST", "DELETE", "OPTIONS"} ==>
              reply == Reply(405, Error("Method not allowed"))
              && file.users == Seeded(old(file.present), old(file.users), adminHash, userHash)
    ensures httpMethod == "GET" ==>
              var seeded := Seeded(old(file.present), old(file.users), adminHash, userHash);
              && file.users == seeded
              && reply.status == 200 && reply.body.UserList?
              && |reply.body.users| == |seeded|
              && forall i :: 0 <= i < |seeded| ==> reply.body.users[i] == Public(seeded[i])
    ensures httpMethod == "POST" && EndpointName(path) == "login" ==>
              var seeded := Seeded(old(file.present), old(file.users), adminHash, userHash);
              && file.users == seeded
              && LoginOutcome(seeded, data, verify, reply)
    ensures httpMethod == "POST" && EndpointName(path) != "login" ==>
              AddOutcome(Seeded(old(file.present), old(file.users), adminHash, userHash),
                         data, newId, passwordHash, reply, file.users)
    ensures httpMethod == "DELETE" ==>
              DeleteOutcome(Seeded(old(file.present), old(file.users), adminHash, userHash), data, reply, file.users)
  {
    if httpMethod == "OPTIONS" {
      return Reply(200, NoBody);
    }
    file.SeedDefaults(adminHash, userHash);
    match httpMethod
    case "GET" =>
      var users := GetUsers(file.users);
      reply := Reply(200, UserList(users));
    case "POST" =>
      if EndpointName(path) == "login" {
        reply := Login(file.users, data, verify);
      } else {
        reply := AddUser(file, data, newId, passwordHash);
      }
    case "DELETE" =>
      reply := DeleteUser(file, data);
    case _ =>
      reply := Reply(405, Error("Method not allowed"));
  }
}
