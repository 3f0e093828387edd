/**
 * The authentication server (server/server.js): an in-memory registry of users,
 * the signup and signin handlers, the `authenticateToken` middleware, and the three
 * token-protected lookups `/auth/me`, `/auth/refresh` and `/user/profile`.
 *
 * Password hashing (bcrypt) and token signing and verification (jsonwebtoken) are
 * parameters: `hash`, `compare`, `sign` and `verify`. So are the user id
 * (`Date.now().toString()`) and the creation time.
 */
module AuthServer {
  import opened Wrappers
  import opened Text

  /** A stored user; `password` holds the bcrypt hash, never the password itself. */
  datatype User = User(id: string, name: string, email: string, password: string,
                       avatar: Option<string>, createdAt: string)

  /** `const { password: _, ...userData } = user`: every field but the hash. */
  datatype UserData = UserData(id: string, name: string, email: string,
                               avatar: Option<string>, createdAt: string)

  function WithoutPassword(u: User): UserData {
    UserData(u.id, u.name, u.email, u.avatar, u.createdAt)
  }

  datatype Body =
    | Message(message: string)
    | Session(token: string, user: UserData)
    | Account(user: UserData)

  datatype Reply = Reply(status: nat, body: Body)

  /** The claims a verified token carries; `userId` is absent from a token signed without one. */
  datatype Claims = Claims(userId: Option<string>)

  const FieldsRequired := "Name, email, and password are required"
  const PasswordTooShort := "Password must be at least 6 characters long"
  const EmailTaken := "User already exists with this email"
  const CredentialsRequired := "Email and password are required"
  const UserNotFound := "User not found"
  const InvalidCredentials := "Invalid email or password"
  const TokenRequired := "Access token required"
  const TokenInvalid := "Invalid or expired token"

  const MinPasswordLength := 6

  /** JavaScript truthiness of a request field that is a string or missing:
      a missing field and the empty string are both false. */
  predicate Truthy(v: Option<string>) {
    v.Some? && v.value != ""
  }

  /** `password.length`: the number of UTF-16 code units, so a character outside the
      Basic Multilingual Plane counts twice. */
  function Utf16Length(s: string): (n: nat)
    ensures |s| <= n <= 2 * |s|
  {
    if s == [] then 0 else (if s[0] as int > 0xFFFF then 2 else 1) + Utf16Length(s[1..])
  }

  /** The length bound counts code units: three emoji make a password of length 6,
      five ASCII letters one of length 5. */
  lemma PasswordLengthInCodeUnits()
    ensures Utf16Length("\U{1F600}\U{1F600}\U{1F600}") == 6
    ensures Utf16Length("abcde") == 5
  {
  }

  /** `Array.prototype.find`: the index of the first element satisfying `p`. */
  function FindIndex(users: seq<User>, p: User -> bool): (r: Option<nat>)
    ensures r.Some? ==> r.value < |users| && p(users[r.value])
    ensures r.Some? ==> forall j :: 0 <= j < r.value ==> !p(users[j])
    ensures r.None? <==> forall j :: 0 <= j < |users| ==> !p(users[j])
  {
    if users == [] then None
    else if p(users[0]) then Some(0)
    else match FindIndex(users[1..], p)
      case None => None
      case Some(i) => Some(i + 1)
  }

  /** `u => u.email === email` */
  function HasEmail(email: string): User -> bool {
    (u: User) => u.email == email
  }

  /** `u => u.id === req.user.userId`; an absent claim equals no stored id. */
  function HasId(userId: Option<string>): User -> bool {
    (u: User) => userId == Some(u.id)
  }

  /** No two stored users share an email address. */
  predicate UniqueEmails(users: seq<User>) {
    forall i, j :: 0 <= i < j < |users| ==> users[i].email != users[j].email
  }

  // ---------------------------------------------------------------- signup

  /** The reply of a handler together with the registry it leaves behind. */
  datatype Outcome = Outcome(reply: Reply, users: seq<User>)

  /** The checks of POST /api/auth/signup that run before `await bcrypt.hash`: a refusal,
      or nothing when the request may go on. */
  function SignupRefusal(users: seq<User>, name: Option<string>, email: Option<string>,
                         password: Option<string>): (r: Option<Reply>)
    ensures r.None? ==> Truthy(name) && Truthy(email) && Truthy(password)
                        && Utf16Length(password.value) >= MinPasswordLength
                        && forall i :: 0 <= i < |users| ==> users[i].email != email.value
    ensures r.Some? ==> r.value.status in {400, 409} && r.value.body.Message?
  {
    if !Truthy(name) || !Truthy(email) || !Truthy(password) then
      Some(Reply(400, Message(FieldsRequired)))
    else if Utf16Length(password.value) < MinPasswordLength then
      Some(Reply(400, Message(PasswordTooShort)))
    else if FindIndex(users, HasEmail(email.value)).Some? then
      Some(Reply(409, Message(EmailTaken)))
    else
      None
  }

  /** The rest of signup, after the hash has been computed: the new user is pushed onto
      the registry as it is at that moment, and the reply carries a token and the user. */
  function SignupCommit(users: seq<User>, name: string, email: string, password: string,
                        id: string, createdAt: string, hash: string -> string, sign: string -> string): Outcome
  {
    var u := User(id, name, email, hash(password), None, createdAt);
    Outcome(Reply(201, Session(sign(u.id), WithoutPassword(u))), users + [u])
  }

  /** POST /api/auth/signup, handled with no other request in between its two steps. */
  function SignupOutcome(users: seq<User>, name: Option<string>, email: Option<string>, password: Option<string>,
                         id: string, createdAt: string, hash: string -> string, sign: string -> string): Outcome
  {
    match SignupRefusal(users, name, email, password)
    case Some(refusal) => Outcome(refusal, users)
    case None => SignupCommit(users, name.value, email.value, password.value, id, createdAt, hash, sign)
  }

  /** The three refusals, each with its status, and the one way to succeed. */
  lemma SignupStatus(users: seq<User>, name: Option<string>, email: Option<string>, password: Option<string>,
                     id: string, createdAt: string, hash: string -> string, sign: string -> string)
    ensures var o := SignupOutcome(users, name, email, password, id, createdAt, hash, sign);
      && (o.reply.status == 201 <==>
            Truthy(name) && Truthy(email) && Truthy(password) && Utf16Length(password.value) >= 6
            && forall i :: 0 <= i < |users| ==> users[i].email != email.value)
      && (o.reply.status == 409 <==>
            Truthy(name) && Truthy(email) && Truthy(password) && Utf16Length(password.value) >= 6
            && exists i :: 0 <= i < |users| && users[i].email == email.value)
      && (o.reply.status == 400 <==>
            !Truthy(name) || !Truthy(email) || !Truthy(password) || Utf16Length(password.value) < 6)
  {
    if Truthy(name) && Truthy(email) && Truthy(password) && Utf16Length(password.value) >= 6 {
      var f := FindIndex(users, HasEmail(email.value));
      if f.Some? {
        assert users[f.value].email == email.value;
      } else {
        assert forall i :: 0 <= i < |users| ==> !HasEmail(email.value)(users[i]);
      }
    }
  }

  /** A refused signup leaves the registry as it was; a successful one appends exactly one
      user, with the given name and email and the hash of the password, and returns that
      user without the hash. */
  lemma SignupEffect(users: seq<User>, name: Option<string>, email: Option<string>, password: Option<string>,
                     id: string, createdAt: string, hash: string -> string, sign: string -> string)
    ensures var o := SignupOutcome(users, name, email, password, id, createdAt, hash, sign);
      o.reply.status != 201 ==> o.users == users && o.reply.body.Message?
    ensures var o := SignupOutcome(users, name, email, password, id, createdAt, hash, sign);
      o.reply.status == 201 ==>
        && |o.users| == |users| + 1 && o.users[..|users|] == users
        && o.users[|users|] == User(id, name.value, email.value, hash(password.value), None, createdAt)
        && o.reply.body == Session(sign(id), WithoutPassword(o.users[|users|]))
  {
    var o := SignupOutcome(users, name, email, password, id, createdAt, hash, sign);
    if o.reply.status == 201 {
      assert o.users[..|users|] == users;
    }
  }

  /** Signup never stores a second user with an email already registered. */
  lemma SignupKeepsEmailsUnique(users: seq<User>, name: Option<string>, email: Option<string>, password: Option<string>,
                                id: string, createdAt: string, hash: string -> string, sign: string -> string)
    requires UniqueEmails(users)
    ensures UniqueEmails(SignupOutcome(users, name, email, password, id, createdAt, hash, sign).users)
  {
    var o := SignupOutcome(users, name, email, password, id, createdAt, hash, sign);
    if o.reply.status == 201 {
      var f := FindIndex(users, HasEmail(email.value));
      assert forall i :: 0 <= i < |users| ==> !HasEmail(email.value)(users[i]);
      assert forall i :: 0 <= i < |users| ==> o.users[i] == users[i];
    }
  }

  /** A signup request as it arrives, with the id and time the server gives it. */
  datatype SignupRequest = SignupRequest(name: Option<string>, email: Option<string>, password: Option<string>,
                                         id: string, createdAt: string)

  /** The registry after handling these signups in order. */
  function AfterSignups(users: seq<User>, reqs: seq<SignupRequest>, hash: string -> string, sign: string -> string): seq<User>
    decreases |reqs|
  {
    if reqs == [] then users
    else
      var q := reqs[0];
      AfterSignups(SignupOutcome(users, q.name, q.email, q.password, q.id, q.createdAt, hash, sign).users,
                   reqs[1..], hash, sign)
  }

  /** However the users arrived, starting from the empty registry no email is stored twice. */
  lemma {:induction false} RegisteredEmailsUnique(users: seq<User>, reqs: seq<SignupRequest>,
                                                  hash: string -> string, sign: string -> string)
    requires UniqueEmails(users)
    ensures UniqueEmails(AfterSignups(users, reqs, hash, sign))
    decreases |reqs|
  {
    if reqs != [] {
      var q := reqs[0];
      SignupKeepsEmailsUnique(users, q.name, q.email, q.password, q.id, q.createdAt, hash, sign);
      RegisteredEmailsUnique(SignupOutcome(users, q.name, q.email, q.password, q.id, q.createdAt, hash, sign).users,
                             reqs[1..], hash, sign);
    }
  }

  /** Once an email is registered, a second signup with it is refused with 409,
      whatever name and password it carries. */
  lemma SecondSignupConflicts(users: seq<User>, name: Option<string>, email: Option<string>, password: Option<string>,
                              id: string, createdAt: string, hash: string -> string, sign: string -> string,
                              name2: Option<string>, password2: Option<string>, id2: string, createdAt2: string)
    requires SignupOutcome(users, name, email, password, id, createdAt, hash, sign).reply.status == 201
    requires Truthy(name2) && Truthy(password2) && Utf16Length(password2.value) >= 6
    ensures var after := SignupOutcome(users, name, email, password, id, createdAt, hash, sign).users;
      SignupOutcome(after, name2, email, password2, id2, createdAt2, hash, sign).reply == Reply(409, Message(EmailTaken))
  {
    var after := SignupOutcome(users, name, email, password, id, createdAt, hash, sign).users;
    assert HasEmail(email.value)(after[|users|]);
  }

  /** The handler is not atomic: it awaits `bcrypt.hash` between its checks and its push.
      Two signups for the same new email whose checks both run before either push both
      succeed, and the registry then holds that email twice. */
  lemma InterleavedSignupsStoreEmailTwice(users: seq<User>, email: string, hash: string -> string, sign: string -> string,
                                          name1: Option<string>, password1: Option<string>, id1: string, createdAt1: string,
                                          name2: Option<string>, password2: Option<string>, id2: string, createdAt2: string)
    requires SignupRefusal(users, name1, Some(email), password1).None?
    requires SignupRefusal(users, name2, Some(email), password2).None?
    ensures var first := SignupCommit(users, name1.value, email, password1.value, id1, createdAt1, hash, sign);
      var second := SignupCommit(first.users, name2.value, email, password2.value, id2, createdAt2, hash, sign);
      first.reply.status == 201 && second.reply.status == 201 && !UniqueEmails(second.users)
  {
    var first := SignupCommit(users, name1.value, email, password1.value, id1, createdAt1, hash, sign);
    var second := SignupCommit(first.users, name2.value, email, password2.value, id2, createdAt2, hash, sign);
    assert second.users[|users|].email == email;
    assert second.users[|users| + 1].email == email;
  }

  // ---------------------------------------------------------------- signin

  /** POST /api/auth/signin; it never changes the registry. */
  function SigninReply(users: seq<User>, email: Option<string>, password: Option<string>,
                       compare: (string, string) -> bool, sign: string -> string): Reply
  {
    if !Truthy(email) || !Truthy(password) then Reply(400, Message(CredentialsRequired))
    else match FindIndex(users, HasEmail(email.value))
      case None => Reply(404, Message(UserNotFound))
      case Some(i) =>
        if !compare(password.value, users[i].password) then Reply(401, Message(InvalidCredentials))
        else Reply(200, Session(sign(users[i].id), WithoutPassword(users[i])))
  }

  /** Signin is refused with 400 for a missing field, 404 for an unknown email and 401 for
      a password that does not match the stored hash; otherwise it returns a token for the
      registered user with that email. */
  lemma SigninStatus(users: seq<User>, email: Option<string>, password: Option<string>,
                     compare: (string, string) -> bool, sign: string -> string)
    ensures var r := SigninReply(users, email, password, compare, sign);
      && (r.status == 400 <==> !Truthy(email) || !Truthy(password))
      && (r.status == 404 <==> Truthy(email) && Truthy(password)
                               && forall i :: 0 <= i < |users| ==> users[i].email != email.value)
      && (r.status in {200, 400, 401, 404})
    ensures var r := SigninReply(users, email, password, compare, sign);
      r.status == 200 ==>
        exists i :: 0 <= i < |users| && users[i].email == email.value && compare(password.value, users[i].password)
                    && r.body == Session(sign(users[i].id), WithoutPassword(users[i]))
    ensures var r := SigninReply(users, email, password, compare, sign);
      var found := if Truthy(email) then FindIndex(users, HasEmail(email.value)) else None;
      Truthy(email) && Truthy(password) && found.Some? ==>
        var u := users[found.value];
        && (r.status == 401 <==> !compare(password.value, u.password))
        && (r.status == 200 <==> compare(password.value, u.password))
        && (r.status == 200 ==> r.body == Session(sign(u.id), WithoutPassword(u)))
  {
    if Truthy(email) && Truthy(password) {
      var f := FindIndex(users, HasEmail(email.value));
      if f.Some? {
        assert users[f.value].email == email.value;
      } else {
        assert forall i :: 0 <= i < |users| ==> !HasEmail(email.value)(users[i]);
      }
    }
  }

  /** `find` on a registry extended at the end: earlier users are found first. */
  lemma FindInExtended(users: seq<User>, u: User, p: User -> bool)
    requires FindIndex(users, p).None? && p(u)
    ensures FindIndex(users + [u], p) == Some(|users|)
  {
    var s := users + [u];
    assert forall j :: 0 <= j < |users| ==> s[j] == users[j];
    assert s[|users|] == u;
  }

  /** Signing in right after signing up, with the same email and password, succeeds and
      returns the new user's data, provided `compare` accepts a password against its own
      hash. Nothing is said about the token: jsonwebtoken stamps each token with its
      issue time. */
  lemma SigninAfterSignup(users: seq<User>, name: Option<string>, email: Option<string>, password: Option<string>,
                          id: string, createdAt: string, hash: string -> string, sign: string -> string,
                          compare: (string, string) -> bool)
    requires SignupOutcome(users, name, email, password, id, createdAt, hash, sign).reply.status == 201
    requires compare(password.value, hash(password.value))
    ensures var o := SignupOutcome(users, name, email, password, id, createdAt, hash, sign);
      var r := SigninReply(o.users, email, password, compare, sign);
      r.status == 200 && r.body.Session? && r.body.user == o.reply.body.user
  {
    var u := User(id, name.value, email.value, hash(password.value), None, createdAt);
    FindInExtended(users, u, HasEmail(email.value));
  }

  // ---------------------------------------------------------------- the middleware

  /** `authHeader && authHeader.split(' ')[1]`, kept only when it is a non-empty string. */
  function BearerToken(header: Option<string>): Option<string> {
    if !Truthy(header) then None
    else
      var fields := Split(header.value, ' ');
      if |fields| < 2 || fields[1] == "" then None else Some(fields[1])
  }

  /** The outcome of `authenticateToken`: a reply that ends the request, or the claims
      passed on to the handler through `next`. */
  datatype Gate = Denied(reply: Reply) | Admitted(claims: Claims)

  function Authenticate(header: Option<string>, verify: string -> Option<Claims>): Gate {
    match BearerToken(header)
    case None => Denied(Reply(401, Message(TokenRequired)))
    case Some(t) =>
      match verify(t)
      case None => Denied(Reply(403, Message(TokenInvalid)))
      case Some(c) => Admitted(c)
  }

  /** The handler runs exactly when there is a token and it verifies; a missing token is
      401 and a token that does not verify is 403. */
  lemma AuthenticateStatus(header: Option<string>, verify: string -> Option<Claims>)
    ensures Authenticate(header, verify).Admitted? <==>
            BearerToken(header).Some? && verify(BearerToken(header).value).Some?
    ensures Authenticate(header, verify).Denied? ==>
            Authenticate(header, verify).reply.status == (if BearerToken(header).None? then 401 else 403)
    ensures Authenticate(header, verify).Admitted? ==>
            Some(Authenticate(header, verify).claims) == verify(BearerToken(header).value)
  {
  }

  /** `Bearer <token>`: the token is the field after the first space. */
  lemma {:induction false} TokenAfterScheme(scheme: string, token: string)
    requires ' ' !in scheme && ' ' !in token && token != ""
    ensures BearerToken(Some(scheme + " " + token)) == Some(token)
  {
    SplitAfterPiece(scheme, ' ', token);
    SplitWithoutSeparator(token, ' ');
    assert Split(scheme + " " + token, ' ') == [scheme, token];
  }

  /** A header holding only the token, without a scheme, has no second field and is
      refused as if no token had been sent. */
  lemma {:induction false} TokenWithoutScheme(token: string, verify: string -> Option<Claims>)
    requires ' ' !in token
    ensures Authenticate(Some(token), verify) == Denied(Reply(401, Message(TokenRequired)))
  {
    if token != "" {
      SplitWithoutSeparator(token, ' ');
    }
  }

  // ---------------------------------------------------------------- token-protected lookups

  /** GET /api/auth/me and GET /api/user/profile: the stored user the token names. */
  function AccountReply(users: seq<User>, header: Option<string>, verify: string -> Option<Claims>): Reply {
    match Authenticate(header, verify)
    case Denied(r) => r
    case Admitted(c) =>
      match FindIndex(users, HasId(c.userId))
      case None => Reply(404, Message(UserNotFound))
      case Some(i) => Reply(200, Account(WithoutPassword(users[i])))
  }

  /** POST /api/auth/refresh: a new token for the stored user the token names. */
  function RefreshReply(users: seq<User>, header: Option<string>, verify: string -> Option<Claims>,
                        sign: string -> string): Reply {
    match Authenticate(header, verify)
    case Denied(r) => r
    case Admitted(c) =>
      match FindIndex(users, HasId(c.userId))
      case None => Reply(404, Message(UserNotFound))
      case Some(i) => Reply(200, Session(sign(users[i].id), WithoutPassword(users[i])))
  }

  /** The lookups answer 404 exactly when the token is accepted but names no stored user,
      and a 200 carries that user without the password hash. */
  lemma LookupStatus(users: seq<User>, header: Option<string>, verify: string -> Option<Claims>, sign: string -> string)
    ensures var g := Authenticate(header, verify);
      var unknown := g.Admitted? && forall i :: 0 <= i < |users| ==> Some(users[i].id) != g.claims.userId;
      (AccountReply(users, header, verify).status == 404 <==> unknown)
      && (RefreshReply(users, header, verify, sign).status == 404 <==> unknown)
    ensures var g := Authenticate(header, verify);
      var r := AccountReply(users, header, verify);
      r.status == 200 ==>
        g.Admitted? && exists i :: 0 <= i < |users| && Some(users[i].id) == g.claims.userId
                                   && r.body == Account(WithoutPassword(users[i]))
    ensures var g := Authenticate(header, verify);
      var r := RefreshReply(users, header, verify, sign);
      r.status == 200 ==>
        g.Admitted? && exists i :: 0 <= i < |users| && Some(users[i].id) == g.claims.userId
                                   && r.body == Session(sign(users[i].id), WithoutPassword(users[i]))
  {
    var g := Authenticate(header, verify);
    AuthenticateStatus(header, verify);
    if g.Admitted? {
      var f := FindIndex(users, HasId(g.claims.userId));
      if f.Some? {
        assert Some(users[f.value].id) == g.claims.userId;
      } else {
        assert forall i :: 0 <= i < |users| ==> !HasId(g.claims.userId)(users[i]);
      }
    }
  }

  /** A token naming a freshly registered user, whose id no earlier user has, finds that user. */
  lemma AccountAfterSignup(users: seq<User>, name: Option<string>, email: Option<string>, password: Option<string>,
                           id: string, createdAt: string, hash: string -> string, sign: string -> string,
                           token: string, verify: string -> Option<Claims>)
    requires SignupOutcome(users, name, email, password, id, createdAt, hash, sign).reply.status == 201
    requires forall i :: 0 <= i < |users| ==> users[i].id != id
    requires ' ' !in token && token != "" && verify(token) == Some(Claims(Some(id)))
    ensures var o := SignupOutcome(users, name, email, password, id, createdAt, hash, sign);
      AccountReply(o.users, Some("Bearer " + token), verify) == Reply(200, Account(o.reply.body.user))
  {
    var u := User(id, name.value, email.value, hash(password.value), None, createdAt);
    assert "Bearer " + token == "Bearer" + " " + token;
    TokenAfterScheme("Bearer", token);
    assert forall i :: 0 <= i < |users| ==> !HasId(Some(id))(users[i]);
    FindInExtended(users, u, HasId(Some(id)));
  }

  // ---------------------------------------------------------------- the server's state

  /** The module-level `users` array and the handlers that read and extend it. */
  class UserRegistry {
    var users: seq<User>

    constructor()
      ensures users == []
    {
      users := [];
    }

    /** Signup up to `await bcrypt.hash`: the checks, against the registry as it is now. */
    method CheckSignup(name: Option<string>, email: Option<string>, password: Option<string>)
      returns (refusal: Option<Reply>)
      ensures refusal == SignupRefusal(users, name, email, password)
    {
      if !Truthy(name) || !Truthy(email) || !Truthy(password) {
        return Some(Reply(400, Message(FieldsRequired)));
      }
      if Utf16Length(password.value) < MinPasswordLength {
        return Some(Reply(400, Message(PasswordTooShort)));
      }
      var existing := FindIndex(users, HasEmail(email.value));
      if existing.Some? {
        return Some(Reply(409, Message(EmailTaken)));
      }
      refusal := None;
    }

    /** Signup after the `await`: the user is pushed onto the registry as it is then,
        which other requests may have changed since `CheckSignup`. */
    method CommitSignup(name: string, email: string, password: string,
                        id: string, createdAt: string, hash: string -> string, sign: string -> string)
      returns (reply: Reply)
      modifies this
      ensures Outcome(reply, users) == SignupCommit(old(users), name, email, password, id, createdAt, hash, sign)
    {
      var hashed := hash(password);
      var user := User(id, name, email, hashed, None, createdAt);
      users := users + [user];
      var token := sign(user.id);
      reply := Reply(201, Session(token, WithoutPassword(user)));
    }

    /** One signup with no other request between its two steps. */
    method Signup(name: Option<string>, email: Option<string>, password: Option<string>,
                  id: string, createdAt: string, hash: string -> string, sign: string -> string)
      returns (reply: Reply)
      modifies this
      ensures Outcome(reply, users) == SignupOutcome(old(users), name, email, password, id, createdAt, hash, sign)
      ensures UniqueEmails(old(users)) ==> UniqueEmails(users)
    {
      if UniqueEmails(users) {
        SignupKeepsEmailsUnique(users, name, email, password, id, createdAt, hash, sign);
      }
      var refusal := CheckSignup(name, email, password);
      if refusal.Some? {
        return refusal.value;
      }
      reply := CommitSignup(name.value, email.value, password.value, id, createdAt, hash, sign);
    }

    method Signin(email: Option<string>, password: Option<string>,
                  compare: (string, string) -> bool, sign: string -> string)
      returns (reply: Reply)
      ensures reply == SigninReply(users, email, password, compare, sign)
    {
      if !Truthy(email) || !Truthy(password) {
        return Reply(400, Message(CredentialsRequired));
      }
      var found := FindIndex(users, HasEmail(email.value));
      if found.None? {
        return Reply(404, Message(UserNotFound));
      }
      var user := users[found.value];
      var valid := compare(password.value, user.password);
      if !valid {
        return Reply(401, Message(InvalidCredentials));
      }
      reply := Reply(200, Session(sign(user.id), WithoutPassword(user)));
    }

    method Me(header: Option<string>, verify: string -> Option<Claims>) returns (reply: Reply)
      ensures reply == AccountReply(users, header, verify)
    {
      reply := Lookup(header, verify);
    }

    method Profile(header: Option<string>, verify: string -> Option<Claims>) returns (reply: Reply)
      ensures reply == AccountReply(users, header, verify)
    {
      reply := Lookup(header, verify);
    }

    method Refresh(header: Option<string>, verify: string -> Option<Claims>, sign: string -> string)
      returns (reply: Reply)
      ensures reply == RefreshReply(users, header, verify, sign)
    {
      var gate := Authenticate(header, verify);
      if gate.Denied? {
        return gate.reply;
      }
      var found := FindIndex(users, HasId(gate.claims.userId));
      if found.None? {
        return Reply(404, Message(UserNotFound));
      }
      var user := users[found.value];
      reply := Reply(200, Session(sign(user.id), WithoutPassword(user)));
    }

    /** The shared body of `/auth/me` and `/user/profile`. */
    method Lookup(header: Option<string>, verify: string -> Option<Claims>) returns (reply: Reply)
      ensures reply == AccountReply(users, header, verify)
    {
      var gate := Authenticate(header, verify);
      if gate.Denied? {
        return gate.reply;
      }
      var found := FindIndex(users, HasId(gate.claims.userId));
      if found.None? {
        return Reply(404, Message(UserNotFound));
      }
      reply := Reply(200, Account(WithoutPassword(users[found.value])));
    }
  }
}
