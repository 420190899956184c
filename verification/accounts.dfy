/** User accounts: signup, login, the upgrade to host and the profile lookup, as
    handlers over an in-memory user collection keyed by id. Both the controller
    variants (which also hand out a session token) and the variants mounted by the
    user router (which do not) are modelled; they share one registration rule and one
    credential check. */
module Accounts {
  import opened Wrappers
  import opened Http

  /** A document id, compared as its string form. */
  type Id = string

  /** A stored user; `password` holds what the persistence hook stored (a hash). */
  datatype User = User(username: string, email: string, password: string, role: string)

  /** A user as it leaves the server: every field except the password. */
  datatype PublicUser = PublicUser(id: Id, username: string, email: string, role: string)

  /** The body of a successful controller signup or login. */
  datatype Session = Session(user: PublicUser, token: string)

  /** The body of a successful upgrade to host. */
  datatype Upgrade = Upgrade(message: string, user: PublicUser)

  datatype SignupForm = SignupForm(username: string, email: string, password: string)

  type Users = map<Id, User>

  const DefaultRole: string := "guest"
  const HostRole: string := "host"
  const AdminRole: string := "admin"

  const UserExists: string := "User already exists"
  const InvalidCredentials: string := "Invalid credentials"
  const UserNotFound: string := "User not found"
  const Upgraded: string := "Successfully upgraded to host"

  /** No two users share an email (the unique index on the user collection). */
  predicate UniqueEmails(db: Users)
  {
    forall a, b :: a in db && b in db && db[a].email == db[b].email ==> a == b
  }

  /** No two users share a username (the other unique index). */
  predicate UniqueUsernames(db: Users)
  {
    forall a, b :: a in db && b in db && db[a].username == db[b].username ==> a == b
  }

  predicate Wellformed(db: Users)
  {
    UniqueEmails(db) && UniqueUsernames(db)
  }

  /** `user.toObject()` with the `password` property deleted: every other field is kept. */
  function Expose(id: Id, u: User): (p: PublicUser)
    ensures p.id == id && p.username == u.username && p.email == u.email && p.role == u.role
  {
    PublicUser(id, u.username, u.email, u.role)
  }

  /** Some stored user already has this email or this username:
      `findOne({ $or: [{ email }, { username }] })` finds a document. */
  predicate Taken(db: Users, email: string, username: string)
  {
    exists id :: id in db && (db[id].email == email || db[id].username == username)
  }

  /** The registration rule shared by both signup handlers: refuse a taken email or
      username, otherwise store exactly one new user with the default role and the
      hashed password. */
  function Register(db: Users, form: SignupForm, newId: Id, hash: string -> string): (r: Option<Users>)
    requires newId !in db
    ensures r.None? <==> Taken(db, form.email, form.username)
    ensures r.Some? ==> r.value.Keys == db.Keys + {newId} && |r.value| == |db| + 1
    ensures r.Some? ==> forall id :: id in db ==> r.value[id] == db[id]
    ensures r.Some? ==> r.value[newId] == User(form.username, form.email, hash(form.password), DefaultRole)
    ensures r.Some? && Wellformed(db) ==> Wellformed(r.value)
  {
    if Taken(db, form.email, form.username) then None
    else
      var u := User(form.username, form.email, hash(form.password), DefaultRole);
      AddFreshKeepsWellformed(db, newId, u);
      Some(db[newId := u])
  }

  /** Adding a user under a fresh id whose email and username are free keeps both
      indexes unique. */
  lemma AddFreshKeepsWellformed(db: Users, newId: Id, u: User)
    requires newId !in db && !Taken(db, u.email, u.username)
    ensures Wellformed(db) ==> Wellformed(db[newId := u])
  {
    if Wellformed(db) {
      var next := db[newId := u];
      forall a, b | a in next && b in next && next[a].email == next[b].email
        ensures a == b
      {
        if a != newId && b != newId {
          assert next[a] == db[a] && next[b] == db[b];
        }
      }
      forall a, b | a in next && b in next && next[a].username == next[b].username
        ensures a == b
      {
        if a != newId && b != newId {
          assert next[a] == db[a] && next[b] == db[b];
        }
      }
    }
  }

  /** The user `findOne({ email })` returns; unique emails make it the only candidate. */
  function FindByEmail(db: Users, email: string): (r: Option<Id>)
    requires UniqueEmails(db)
    ensures r.Some? ==> r.value in db && db[r.value].email == email
    ensures r.None? ==> forall id :: id in db ==> db[id].email != email
  {
    if exists id :: id in db && db[id].email == email then
      var id :| id in db && db[id].email == email;
      Some(id)
    else
      None
  }

  /** The credential check shared by both login handlers: the user with this email,
      provided the candidate password matches its stored hash. */
  function CheckCredentials(db: Users, email: string, password: string,
                            matches: (string, string) -> bool): (r: Option<Id>)
    requires UniqueEmails(db)
    ensures r.Some? <==> exists id :: id in db && db[id].email == email && matches(password, db[id].password)
    ensures r.Some? ==> r.value in db && db[r.value].email == email
  {
    match FindByEmail(db, email)
    case None => None
    case Some(id) => if matches(password, db[id].password) then Some(id) else None
  }

  /** `signup` in the user controller: 400 for a taken email or username, otherwise
      201 with the new user (no password) and a token for its id. */
  function Signup(db: Users, form: SignupForm, newId: Id, hash: string -> string,
                  sign: Id -> string): (r: Step<Users, Session>)
    requires newId !in db
    ensures Taken(db, form.email, form.username) ==> r.store == db && r.reply == Reply(400, Error(UserExists))
    ensures !Taken(db, form.email, form.username) ==>
      && r.store == db[newId := User(form.username, form.email, hash(form.password), DefaultRole)]
      && |r.store| == |db| + 1
      && r.reply == Reply(201, Json(Session(Expose(newId, r.store[newId]), sign(newId))))
    ensures Wellformed(db) ==> Wellformed(r.store)
  {
    match Register(db, form, newId, hash)
    case None => Step(db, Reply(400, Error(UserExists)))
    case Some(db') => Step(db', Reply(201, Json(Session(Expose(newId, db'[newId]), sign(newId)))))
  }

  /** `POST /signup` as mounted by the user router: the same rule, but the body is the
      bare user without a token. */
  function SignupRoute(db: Users, form: SignupForm, newId: Id, hash: string -> string): (r: Step<Users, PublicUser>)
    requires newId !in db
    ensures Taken(db, form.email, form.username) ==> r.store == db && r.reply == Reply(400, Error(UserExists))
    ensures !Taken(db, form.email, form.username) ==>
      && r.store == db[newId := User(form.username, form.email, hash(form.password), DefaultRole)]
      && |r.store| == |db| + 1
      && r.reply == Reply(201, Json(Expose(newId, r.store[newId])))
  {
    match Register(db, form, newId, hash)
    case None => Step(db, Reply(400, Error(UserExists)))
    case Some(db') => Step(db', Reply(201, Json(Expose(newId, db'[newId]))))
  }

  /** `login` in the user controller: the same 401 for an unknown email and for a wrong
      password; on success the user (no password) and a token, and the store is untouched. */
  function Login(db: Users, email: string, password: string,
                 matches: (string, string) -> bool, sign: Id -> string): (r: Step<Users, Session>)
    requires UniqueEmails(db)
    ensures r.store == db
    ensures r.reply.status == 200 <==> exists id :: id in db && db[id].email == email && matches(password, db[id].password)
    ensures r.reply.status != 200 ==> r.reply == Reply(401, Error(InvalidCredentials))
    ensures r.reply.status == 200 ==>
      exists id :: id in db && db[id].email == email && r.reply.body == Json(Session(Expose(id, db[id]), sign(id)))
  {
    match CheckCredentials(db, email, password, matches)
    case None => Step(db, Reply(401, Error(InvalidCredentials)))
    case Some(id) => Step(db, Reply(200, Json(Session(Expose(id, db[id]), sign(id)))))
  }

  /** `POST /login` as mounted by the user router: the bare user, no token. */
  function LoginRoute(db: Users, email: string, password: string,
                      matches: (string, string) -> bool): (r: Step<Users, PublicUser>)
    requires UniqueEmails(db)
    ensures r.store == db
    ensures r.reply.status == 200 <==> exists id :: id in db && db[id].email == email && matches(password, db[id].password)
    ensures r.reply.status != 200 ==> r.reply == Reply(401, Error(InvalidCredentials))
  {
    match CheckCredentials(db, email, password, matches)
    case None => Step(db, Reply(401, Error(InvalidCredentials)))
    case Some(id) => Step(db, Reply(200, Json(Expose(id, db[id]))))
  }

  /** The router's signup and login differ from the controller's only in the missing
      token: same status, same store, same user. */
  lemma RoutesAgreeWithController(db: Users, form: SignupForm, newId: Id, hash: string -> string,
                                  sign: Id -> string, email: string, password: string,
                                  matches: (string, string) -> bool)
    requires newId !in db && UniqueEmails(db)
    ensures var c, m := Signup(db, form, newId, hash, sign), SignupRoute(db, form, newId, hash);
      && c.store == m.store && c.reply.status == m.reply.status
      && (c.reply.body.Json? ==> m.reply.body == Json(c.reply.body.value.user))
    ensures var c, m := Login(db, email, password, matches, sign), LoginRoute(db, email, password, matches);
      && c.store == m.store && c.reply.status == m.reply.status
      && (c.reply.body.Json? ==> m.reply.body == Json(c.reply.body.value.user))
  {
  }

  /** A failed login reveals nothing about why it failed: an unknown email and a wrong
      password give the very same reply. */
  lemma LoginFailuresIndistinguishable(db: Users, unknown: string, known: string, wrong: string,
                                       matches: (string, string) -> bool, sign: Id -> string)
    requires UniqueEmails(db)
    requires forall id :: id in db ==> db[id].email != unknown
    requires exists id :: id in db && db[id].email == known && !matches(wrong, db[id].password)
    ensures Login(db, unknown, wrong, matches, sign) == Login(db, known, wrong, matches, sign)
  {
  }

  /** `becomeHost`: 404 for a missing user; otherwise that user's role becomes "host"
      and the reply carries the user without its password. */
  function BecomeHost(db: Users, id: Id): (r: Step<Users, Upgrade>)
    ensures id !in db ==> r.store == db && r.reply == Reply(404, Error(UserNotFound))
    ensures id in db ==>
      && r.store.Keys == db.Keys
      && r.store[id].role == HostRole
      && r.reply == Reply(200, Json(Upgrade(Upgraded, Expose(id, r.store[id]))))
    ensures forall other :: other in db && other != id ==> r.store[other] == db[other]
    ensures Wellformed(db) ==> Wellformed(r.store)
  {
    if id !in db then Step(db, Reply(404, Error(UserNotFound)))
    else
      var u := db[id].(role := HostRole);
      Step(db[id := u], Reply(200, Json(Upgrade(Upgraded, Expose(id, u)))))
  }

  /** Upgrading changes the role and nothing else of that user. */
  lemma BecomeHostOnlyRole(db: Users, id: Id)
    requires id in db
    ensures var u := BecomeHost(db, id).store[id];
      u.username == db[id].username && u.email == db[id].email && u.password == db[id].password
  {
  }

  /** Upgrading twice is upgrading once, in store and in reply. */
  lemma BecomeHostIdempotent(db: Users, id: Id)
    ensures BecomeHost(BecomeHost(db, id).store, id) == BecomeHost(db, id)
  {
    if id in db {
      var once := BecomeHost(db, id).store;
      assert once[id := once[id].(role := HostRole)] == once;
    }
  }

  /** `getProfile`: `findById(...).select('-password')`, so 200 with the user without
      its password, or with `null` when the id is not found. */
  function GetProfile(db: Users, id: Id): (r: Reply<Option<PublicUser>>)
    ensures r.status == 200
    ensures id in db ==> r.body == Json(Some(Expose(id, db[id])))
    ensures id !in db ==> r.body == Json(None)
  {
    Reply(200, Json(if id in db then Some(Expose(id, db[id])) else None))
  }

  /** The profile reply does not depend on any stored password. */
  lemma ProfileHidesPasswords(db: Users, id: Id, k: Id, password: string)
    requires k in db
    ensures GetProfile(db[k := db[k].(password := password)], id) == GetProfile(db, id)
  {
  }
}
