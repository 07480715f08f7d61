/**
 * The authentication routes: registration (validation, username normalisation, the
 * duplicate check), login (a generic 401 for every failure, the session writes on
 * success), `/me` and logout, over a user collection kept in insertion order.
 */
module Auth {
  import opened Wrappers
  import opened Js
  import opened Http
  import Text
  import Items

  /** A stored user. `createdAt` is the registration time in milliseconds. */
  datatype User = User(id: string, username: string, passwordHash: string, createdAt: int)

  /**
   * bcrypt as the routes use it: `hash` with the cost factor and salt fixed, and
   * `compare`. Neither is spelled out; `Sound` is the one promise the routes rely on.
   */
  datatype Bcrypt = Bcrypt(hash: string -> string, compare: (string, string) -> bool)

  /** A password always matches its own hash. */
  ghost predicate Sound(bc: Bcrypt) {
    forall p :: bc.compare(p, bc.hash(p))
  }

  /** The document a user is stored as: its id and exactly the three fields registration writes, no role. */
  function UserDoc(u: User): (doc: map<string, Value>)
    ensures doc.Keys == {"_id", "username", "passwordHash", "createdAt"}
    ensures doc["username"] == Str(u.username) && doc["passwordHash"] == Str(u.passwordHash)
    ensures doc["_id"] == ObjectId(u.id) && doc["createdAt"] == Date(u.createdAt)
  {
    map[
      "_id" := ObjectId(u.id),
      "username" := Str(u.username),
      "passwordHash" := Str(u.passwordHash),
      "createdAt" := Date(u.createdAt)
    ]
  }

  /**
   * `sanitizeUser`: `null` for no user; otherwise every field but `passwordHash`,
   * with `_id` in string form.
   */
  function SanitizeUser(rt: Runtime, user: Option<map<string, Value>>): (r: Value)
    ensures user.None? <==> r == Null
    ensures user.Some? ==> r.Object? && r.fields.Keys == (user.value.Keys - {"passwordHash"}) + {"_id"}
    ensures user.Some? ==> "passwordHash" !in r.fields
    ensures user.Some? ==>
      r.fields["_id"] == Str(if "_id" in user.value then ToStr(rt, user.value["_id"]) else "undefined")
    ensures user.Some? ==> forall k :: k in user.value && k != "_id" && k != "passwordHash" ==> r.fields[k] == user.value[k]
  {
    if user.None? then Null
    else
      var id := if "_id" in user.value then ToStr(rt, user.value["_id"]) else "undefined";
      Object((user.value - {"passwordHash"})["_id" := Str(id)])
  }

  /** The public view of a stored user: its id, username and creation time, never the hash. */
  function PublicUser(u: User): Value {
    Object(map["_id" := Str(u.id), "username" := Str(u.username), "createdAt" := Date(u.createdAt)])
  }

  /** Sanitizing a stored user gives exactly its public view. */
  lemma SanitizeStoredUser(rt: Runtime, u: User)
    ensures SanitizeUser(rt, Some(UserDoc(u))) == PublicUser(u)
  {
    var r := SanitizeUser(rt, Some(UserDoc(u)));
    assert r.fields.Keys == {"_id", "username", "createdAt"};
  }

  /** `s.trim().toLowerCase()`: the form usernames are stored and looked up in. */
  function Normalize(s: string): (r: string)
    ensures |r| <= |s|
    ensures forall i :: 0 <= i < |r| ==> !('A' <= r[i] <= 'Z')
  {
    Text.ToLower(Text.Trim(s))
  }

  /** A string in normal form: no ASCII upper-case letter and no white space at either end. */
  predicate IsNormalized(s: string) {
    && (forall i :: 0 <= i < |s| ==> !('A' <= s[i] <= 'Z'))
    && (s == [] || (!Text.IsJsSpace(s[0]) && !Text.IsJsSpace(s[|s| - 1])))
  }

  /** Normalizing gives a normal form. */
  lemma NormalizeIsNormalized(s: string)
    ensures IsNormalized(Normalize(s))
  {
    LowerKeepsEdges(Text.Trim(s));
  }

  /** Lower-casing a string without white space at either end keeps it so. */
  lemma LowerKeepsEdges(t: string)
    requires t == [] || (!Text.IsJsSpace(t[0]) && !Text.IsJsSpace(t[|t| - 1]))
    ensures var n := Text.ToLower(t); n == [] || (!Text.IsJsSpace(n[0]) && !Text.IsJsSpace(n[|n| - 1]))
  {
    if t != [] {
      var n := Text.ToLower(t);
      assert n[0] == Text.LowerChar(t[0]);
      assert n[|n| - 1] == Text.LowerChar(t[|t| - 1]);
      LowerCharSpace(t[0]);
      LowerCharSpace(t[|t| - 1]);
    }
  }

  /** Lower-casing neither creates nor removes white space. */
  lemma LowerCharSpace(c: char)
    ensures Text.IsJsSpace(Text.LowerChar(c)) == Text.IsJsSpace(c)
  {
  }

  /** A string in normal form is its own normalization. */
  lemma NormalizedIsFixed(s: string)
    requires IsNormalized(s)
    ensures Normalize(s) == s
  {
    Text.TrimNoEdges(s);
  }

  /** Normalizing twice is normalizing once, so a stored username finds itself. */
  lemma NormalizeIdempotent(s: string)
    ensures Normalize(Normalize(s)) == Normalize(s)
  {
    NormalizeIsNormalized(s);
    NormalizedIsFixed(Normalize(s));
  }

  /** The index of the first user named `name`, or `|users|` when there is none. */
  function FindIndex(users: seq<User>, name: string): (i: nat)
    ensures i <= |users|
    ensures forall j :: 0 <= j < i ==> users[j].username != name
    ensures i < |users| ==> users[i].username == name
  {
    if users == [] then 0
    else if users[0].username == name then 0
    else 1 + FindIndex(users[1..], name)
  }

  /** `findOne({ username: name })`: the first user, in natural order, with that username. */
  function FindByUsername(users: seq<User>, name: string): (r: Option<User>)
    ensures r.None? <==> forall j :: 0 <= j < |users| ==> users[j].username != name
    ensures r.Some? ==> r.value in users && r.value.username == name
    ensures r.Some? ==>
      exists i :: 0 <= i < |users| && users[i] == r.value && forall j :: 0 <= j < i ==> users[j].username != name
  {
    var i := FindIndex(users, name);
    if i < |users| then Some(users[i]) else None
  }

  /** No two users share a username. */
  predicate UniqueUsernames(users: seq<User>) {
    forall i, j :: 0 <= i < j < |users| ==> users[i].username != users[j].username
  }

  /** Every stored username is in normal form. */
  predicate NormalizedUsernames(users: seq<User>) {
    forall i :: 0 <= i < |users| ==> IsNormalized(users[i].username)
  }

  /** In a store without duplicates, a user is found by its own username. */
  lemma {:induction false} FindStoredUser(users: seq<User>, u: User)
    requires UniqueUsernames(users) && u in users
    ensures FindByUsername(users, u.username) == Some(u)
  {
    var k :| 0 <= k < |users| && users[k] == u;
    var i := FindIndex(users, u.username);
  }

  /*
   * Registration
   */

  /** A username `register` accepts: a truthy string of at least 3 characters once trimmed. */
  predicate ValidUsername(v: Option<Value>) {
    Truthy(v) && v.value.Str? && Text.Utf16Length(Text.Trim(v.value.s)) >= 3
  }

  /** A password `register` accepts: a truthy string of at least 6 characters, not trimmed. */
  predicate ValidPassword(v: Option<Value>) {
    Truthy(v) && v.value.Str? && Text.Utf16Length(v.value.s) >= 6
  }

  /** What `POST /api/auth/register` answers and the users afterwards. */
  datatype Registration = Registration(response: Response, users: seq<User>)

  /**
   * `POST /api/auth/register`: 400 for a short or missing username, then for a short
   * or missing password, 409 when the normalized username is taken; otherwise a user
   * with the normalized username and the password's hash is appended and answered
   * with 201 and its public view.
   */
  function RegisterOutcome(rt: Runtime, bc: Bcrypt, users: seq<User>, body: Option<Value>, newId: string, now: int)
    : (r: Registration)
    ensures r.response.status == 201 || r.response.status == 400 || r.response.status == 409
    ensures !ValidUsername(Prop(body, "username")) ==>
      r == Registration(ErrorResponse(400, "Username must be at least 3 chars"), users)
    ensures ValidUsername(Prop(body, "username")) && !ValidPassword(Prop(body, "password")) ==>
      r == Registration(ErrorResponse(400, "Password must be at least 6 chars"), users)
    ensures r.response.status == 409 ==> r == Registration(ErrorResponse(409, "User already exists"), users)
    ensures
      && ValidUsername(Prop(body, "username")) && ValidPassword(Prop(body, "password"))
      && FindByUsername(users, Normalize(Prop(body, "username").value.s)).Some?
      ==> r == Registration(ErrorResponse(409, "User already exists"), users)
    ensures r.response.status == 201 <==>
      && ValidUsername(Prop(body, "username")) && ValidPassword(Prop(body, "password"))
      && FindByUsername(users, Normalize(Prop(body, "username").value.s)).None?
    ensures r.response.status == 201 ==>
      var u := User(newId, Normalize(Prop(body, "username").value.s), bc.hash(Prop(body, "password").value.s), now);
      r.users == users + [u] && r.response == Response(201, Object(map["user" := PublicUser(u)]))
  {
    var username := Prop(body, "username");
    var password := Prop(body, "password");
    if !ValidUsername(username) then
      Registration(ErrorResponse(400, "Username must be at least 3 chars"), users)
    else if !ValidPassword(password) then
      Registration(ErrorResponse(400, "Password must be at least 6 chars"), users)
    else
      var name := Normalize(username.value.s);
      if FindByUsername(users, name).Some? then
        Registration(ErrorResponse(409, "User already exists"), users)
      else
        var u := User(newId, name, bc.hash(password.value.s), now);
        SanitizeStoredUser(rt, u);
        Registration(Response(201, Object(map["user" := SanitizeUser(rt, Some(UserDoc(u)))])), users + [u])
  }

  /** Appending a user whose normalized username is not taken keeps both invariants. */
  lemma AppendKeepsUsernames(users: seq<User>, u: User)
    requires UniqueUsernames(users) && NormalizedUsernames(users)
    requires FindByUsername(users, u.username).None? && IsNormalized(u.username)
    ensures UniqueUsernames(users + [u]) && NormalizedUsernames(users + [u])
  {
    var all := users + [u];
    forall i, j | 0 <= i < j < |all| ensures all[i].username != all[j].username {
      assert all[i] == users[i];
    }
    forall i | 0 <= i < |all| ensures IsNormalized(all[i].username) {
      if i < |users| {
        assert all[i] == users[i];
      }
    }
  }

  /** Registration keeps usernames unique and in normal form. */
  lemma RegisterKeepsUsernames(rt: Runtime, bc: Bcrypt, users: seq<User>, body: Option<Value>, newId: string, now: int)
    requires UniqueUsernames(users) && NormalizedUsernames(users)
    ensures UniqueUsernames(RegisterOutcome(rt, bc, users, body, newId, now).users)
    ensures NormalizedUsernames(RegisterOutcome(rt, bc, users, body, newId, now).users)
  {
    var r := RegisterOutcome(rt, bc, users, body, newId, now);
    if r.response.status == 201 {
      var s := Prop(body, "username").value.s;
      var u := User(newId, Normalize(s), bc.hash(Prop(body, "password").value.s), now);
      NormalizeIsNormalized(s);
      AppendKeepsUsernames(users, u);
    }
  }

  /*
   * Login
   */

  /**
   * The user `POST /api/auth/login` signs in, if any: both fields must be truthy, the
   * first user with the normalized username is looked up, and the password must match
   * its hash. Every other case is the same generic failure.
   */
  function LoginUser(rt: Runtime, bc: Bcrypt, users: seq<User>, body: Option<Value>): (r: Option<User>)
    ensures r.Some? ==> Truthy(Prop(body, "username")) && Truthy(Prop(body, "password"))
    ensures r.Some? ==> r == FindByUsername(users, Normalize(ToStr(rt, Prop(body, "username").value)))
    ensures r.Some? ==> bc.compare(ToStr(rt, Prop(body, "password").value), r.value.passwordHash)
    ensures Truthy(Prop(body, "username")) && Truthy(Prop(body, "password")) ==>
      var found := FindByUsername(users, Normalize(ToStr(rt, Prop(body, "username").value)));
      (r.Some? <==> found.Some? && bc.compare(ToStr(rt, Prop(body, "password").value), found.value.passwordHash))
  {
    var username := Prop(body, "username");
    var password := Prop(body, "password");
    if !Truthy(username) || !Truthy(password) then None
    else
      var user := FindByUsername(users, Normalize(ToStr(rt, username.value)));
      if user.None? then None
      else if !bc.compare(ToStr(rt, password.value), user.value.passwordHash) then None
      else user
  }

  /** The login answer: one generic 401 for every failure, or 200 with the public view. */
  function LoginResponse(rt: Runtime, signedIn: Option<User>): (r: Response)
    ensures signedIn.None? ==> r == ErrorResponse(401, "Invalid credentials")
    ensures signedIn.Some? ==>
      r == Response(200, Object(map["ok" := Bool(true), "user" := PublicUser(signedIn.value)]))
  {
    if signedIn.None? then ErrorResponse(401, "Invalid credentials")
    else
      SanitizeStoredUser(rt, signedIn.value);
      Response(200, Object(map["ok" := Bool(true), "user" := SanitizeUser(rt, Some(UserDoc(signedIn.value)))]))
  }

  /**
   * A user who just registered can log in with the same body: the new user is the
   * first one with its username, and its hash matches the password.
   */
  lemma RegisterThenLogin(rt: Runtime, bc: Bcrypt, users: seq<User>, body: Option<Value>, newId: string, now: int)
    requires Sound(bc)
    requires RegisterOutcome(rt, bc, users, body, newId, now).response.status == 201
    ensures LoginUser(rt, bc, RegisterOutcome(rt, bc, users, body, newId, now).users, body)
      == Some(User(newId, Normalize(Prop(body, "username").value.s), bc.hash(Prop(body, "password").value.s), now))
  {
    var r := RegisterOutcome(rt, bc, users, body, newId, now);
    var username, password := Prop(body, "username").value.s, Prop(body, "password").value.s;
    var name := Normalize(username);
    var u := User(newId, name, bc.hash(password), now);
    assert r.users == users + [u];
    assert username != [] && password != [];
    assert Truthy(Prop(body, "username")) && Truthy(Prop(body, "password"));
    assert Normalize(ToStr(rt, Prop(body, "username").value)) == name;
    assert ToStr(rt, Prop(body, "password").value) == password;
    assert FindIndex(users, name) == |users|;
    FindIndexAppend(users, name, u);
    assert FindByUsername(r.users, name) == Some(u);
    assert bc.compare(password, u.passwordHash);
  }

  /** Appending a user does not change where an earlier first match is. */
  lemma {:induction false} FindIndexAppend(users: seq<User>, name: string, u: User)
    requires u.username == name && FindIndex(users, name) == |users|
    ensures FindIndex(users + [u], name) == |users|
  {
    if users != [] {
      assert (users + [u])[1..] == users[1..] + [u];
      FindIndexAppend(users[1..], name, u);
    }
  }

  /**
   * A stored user logs in with any spelling of its username that normalizes to it
   * (extra spaces, upper case) and any password its hash accepts.
   */
  lemma LoginFindsStoredUser(rt: Runtime, bc: Bcrypt, users: seq<User>, u: User, name: string, password: string)
    requires UniqueUsernames(users) && u in users
    requires u.username != "" && Normalize(name) == u.username
    requires password != "" && bc.compare(password, u.passwordHash)
    ensures LoginUser(rt, bc, users, Some(Object(map["username" := Str(name), "password" := Str(password)]))) == Some(u)
  {
    var body := Some(Object(map["username" := Str(name), "password" := Str(password)]));
    var username, pw := Prop(body, "username"), Prop(body, "password");
    assert username == Some(Str(name)) && pw == Some(Str(password));
    assert name != "";
    assert Truthy(username) && Truthy(pw);
    assert Normalize(ToStr(rt, username.value)) == u.username;
    FindStoredUser(users, u);
    assert bc.compare(ToStr(rt, pw.value), u.passwordHash);
  }

  /*
   * Sessions
   */

  /** `GET /api/auth/me`: `{user: null}` unless signed in, else the session's id and username. */
  function MeResponse(userId: Option<string>, username: Option<string>): (r: Response)
    ensures r.status == 200 && r.body.Object? && r.body.fields.Keys == {"user"}
    ensures !SignedIn(userId) <==> r.body.fields["user"] == Null
    ensures SignedIn(userId) ==>
      && r.body.fields["user"].Object?
      && r.body.fields["user"].fields.Keys == (if username.Some? then {"id", "username"} else {"id"})
      && r.body.fields["user"].fields["id"] == Str(userId.value)
      && (username.Some? ==> r.body.fields["user"].fields["username"] == Str(username.value))
  {
    if userId.None? || userId.value == "" then Response(200, Object(map["user" := Null]))
    else
      var who := map["id" := Str(userId.value)];
      Response(200, Object(map["user" := Object(if username.Some? then who["username" := Str(username.value)] else who)]))
  }

  /** The user collection, in natural (insertion) order. */
  class UserStore {
    var users: seq<User>

    /** Ids are object ids; usernames are unique and normalized, as registration keeps them. */
    ghost predicate Valid()
      reads this
    {
      && (forall i :: 0 <= i < |users| ==> Items.IsValidObjectId(users[i].id))
      && UniqueUsernames(users) && NormalizedUsernames(users)
    }

    constructor ()
      ensures users == [] && Valid()
    {
      users := [];
    }

    /** `POST /api/auth/register` against this collection. */
    method Register(rt: Runtime, bc: Bcrypt, body: Option<Value>, newId: string, now: int) returns (resp: Response)
      requires Valid() && Items.IsValidObjectId(newId)
      modifies this
      ensures Registration(resp, users) == RegisterOutcome(rt, bc, old(users), body, newId, now)
      ensures Valid()
    {
      ghost var outcome := RegisterOutcome(rt, bc, users, body, newId, now);
      var username := Prop(body, "username");
      var password := Prop(body, "password");
      if !ValidUsername(username) {
        assert outcome == Registration(ErrorResponse(400, "Username must be at least 3 chars"), users);
        return ErrorResponse(400, "Username must be at least 3 chars");
      }
      if !ValidPassword(password) {
        assert outcome == Registration(ErrorResponse(400, "Password must be at least 6 chars"), users);
        return ErrorResponse(400, "Password must be at least 6 chars");
      }
      var name := Normalize(username.value.s);
      var existing := FindByUsername(users, name);
      if existing.Some? {
        assert outcome == Registration(ErrorResponse(409, "User already exists"), users);
        return ErrorResponse(409, "User already exists");
      }
      var u := User(newId, name, bc.hash(password.value.s), now);
      NormalizeIsNormalized(username.value.s);
      assert outcome.users == users + [u];
      InsertUser(u);
      SanitizeStoredUser(rt, u);
      resp := Response(201, Object(map["user" := SanitizeUser(rt, Some(UserDoc(u)))]));
    }

    /** `insertOne(doc)` of a user whose normalized username is not taken: it is appended. */
    method InsertUser(u: User)
      requires Valid() && Items.IsValidObjectId(u.id)
      requires IsNormalized(u.username) && FindByUsername(users, u.username).None?
      modifies this
      ensures users == old(users) + [u]
      ensures Valid()
    {
      AppendKeepsUsernames(users, u);
      users := users + [u];
      assert users[|users| - 1] == u;
    }

    /**
     * `POST /api/auth/login`: on success the session holds the user's id and username
     * and `/me` reports them; on failure the session is left as it was.
     */
    method Login(rt: Runtime, bc: Bcrypt, session: Session, body: Option<Value>) returns (resp: Response)
      requires Valid()
      modifies session
      ensures resp == LoginResponse(rt, LoginUser(rt, bc, users, body))
      ensures LoginUser(rt, bc, users, body).None? ==>
        session.userId == old(session.userId) && session.username == old(session.username)
      ensures LoginUser(rt, bc, users, body).Some? ==>
        && session.userId == Some(LoginUser(rt, bc, users, body).value.id)
        && session.username == Some(LoginUser(rt, bc, users, body).value.username)
        && MeResponse(session.userId, session.username).body.fields["user"].Object?
    {
      ghost var signedIn := LoginUser(rt, bc, users, body);
      var username := Prop(body, "username");
      var password := Prop(body, "password");
      if !Truthy(username) || !Truthy(password) {
        assert signedIn == None;
        return ErrorResponse(401, "Invalid credentials");
      }
      var user := FindByUsername(users, Normalize(ToStr(rt, username.value)));
      if user.None? {
        assert signedIn == None;
        return ErrorResponse(401, "Invalid credentials");
      }
      if !bc.compare(ToStr(rt, password.value), user.value.passwordHash) {
        assert signedIn == None;
        return ErrorResponse(401, "Invalid credentials");
      }
      assert signedIn == user;
      var k :| 0 <= k < |users| && users[k] == user.value;
      assert Items.IsValidObjectId(users[k].id);
      SignIn(rt, session, user.value);
      resp := LoginResponse(rt, user);
    }
  }

  /**
   * The session writes of a successful login: `String(user._id)` and the username. An
   * object id is never empty, so the session is signed in afterwards.
   */
  method SignIn(rt: Runtime, session: Session, u: User)
    requires Items.IsValidObjectId(u.id)
    modifies session
    ensures session.userId == Some(u.id) && session.username == Some(u.username)
    ensures SignedIn(session.userId)
  {
    session.userId := Some(ToStr(rt, ObjectId(u.id)));
    session.username := Some(u.username);
  }

  /**
   * `POST /api/auth/logout`: the session is destroyed, so the client is signed out, and
   * the `sid` cookie is cleared.
   */
  method Logout(session: Session) returns (resp: Response, clearedCookie: string)
    modifies session
    ensures session.userId == None && session.username == None
    ensures resp == Response(200, Object(map["ok" := Bool(true)])) && clearedCookie == "sid"
    ensures MeResponse(session.userId, session.username).body.fields["user"] == Null
  {
    session.userId := None;
    session.username := None;
    resp := Response(200, Object(map["ok" := Bool(true)]));
    clearedCookie := "sid";
  }
}
