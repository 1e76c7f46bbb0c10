/** The account verification lifecycle of routes/auth.js: register, login,
    verify-email and resend-verification over the users collection.

    Each handler is a method on the database that assigns the user's fields step
    by step, and is proved equal to a pure step function over the users sequence;
    the lemmas relating several requests (a consumed token cannot be replayed, a
    resent token replaces the old one, register then verify then login) are
    stated over those functions. The clock (`now`, in milliseconds), the random
    verification token and the password hash are parameters; a JWT is a Session
    value carrying its subject and expiry. */
module Auth {
  import opened Common
  import opened UserModel
  import opened Store

  const DayMs: int := 24 * 60 * 60 * 1000
  /** A verification token lives 24 hours. */
  const VerificationTtlMs: int := DayMs
  /** A JWT is signed with `expiresIn: '30d'`. */
  const SessionTtlMs: int := 30 * DayMs
  const MinUsernameLength: nat := 3
  const MinPasswordLength: nat := 6

  /** A signed JWT `{ id }`; the signature itself is not modelled. */
  datatype Session = Session(subject: Id, expiresAt: int)

  function IssueSession(id: Id, now: int): Session {
    Session(id, now + SessionTtlMs)
  }

  datatype AuthError =
    | Invalid(fields: seq<string>)
    | UserExists
    | InvalidCredentials
    | EmailNotVerified
    | TokenExpired
    | TokenInvalid
    | UserNotFound
    | AlreadyVerified

  datatype Reply =
    | Registered(user: Id, session: Session)
    | LoggedIn(user: Id, session: Session)
    | Verified
    | VerificationSent
    | Rejected(error: AuthError)

  function ErrorStatus(e: AuthError): int {
    match e
    case InvalidCredentials => 401
    case EmailNotVerified => 403
    case UserNotFound => 404
    case _ => 400
  }

  function Status(r: Reply): int {
    match r
    case Registered(_, _) => 201
    case Rejected(e) => ErrorStatus(e)
    case _ => 200
  }

  // ---------------------------------------------------------------------------
  // Request validation (express-validator)

  /** A simplified `isEmail`: no white space, exactly one '@' with a non-empty local
      part before it, and after it a domain holding a dot that neither starts nor
      ends it. */
  predicate IsEmail(s: string) {
    match FindFirst(s, (c: char) => c == '@')
    case None => false
    case Some(at) =>
      var domain := s[at + 1..];
      && at > 0
      && (forall k :: 0 <= k < |s| ==> !IsSpace(s[k]))
      && (forall k :: 0 <= k < |domain| ==> domain[k] != '@')
      && 2 < |domain| && domain[0] != '.' && domain[|domain| - 1] != '.'
      && (exists k :: 0 < k < |domain| - 1 && domain[k] == '.')
  }

  /** The fields whose validators fail, in declaration order: the username is
      trimmed before its length is checked, the password is not. */
  function RegisterErrors(username: string, email: string, password: string): seq<string> {
    (if ValidatorLength(Trim(username)) >= MinUsernameLength then [] else ["username"])
    + (if IsEmail(email) then [] else ["email"])
    + (if ValidatorLength(password) >= MinPasswordLength then [] else ["password"])
  }

  predicate RegisterInputOk(username: string, email: string, password: string) {
    ValidatorLength(Trim(username)) >= MinUsernameLength && IsEmail(email) && ValidatorLength(password) >= MinPasswordLength
  }

  function LoginErrors(email: string, password: string): seq<string> {
    (if IsEmail(email) then [] else ["email"]) + (if password != "" then [] else ["password"])
  }

  // ---------------------------------------------------------------------------
  // The handlers as functions of the users collection

  /** What a request does: the new users collection, the mails sent, the reply. */
  datatype Outcome = Outcome(users: seq<User>, mail: seq<Mail>, reply: Reply)

  /** POST /api/auth/register; `id` is the ObjectId the new document receives. */
  function RegisterStep(users: seq<User>, id: Id, username: string, email: string, password: string,
                        token: string, now: int): Outcome
  {
    var errors := RegisterErrors(username, email, password);
    if errors != [] then Outcome(users, [], Rejected(Invalid(errors)))
    else
      var name := Trim(username);
      if FindByEmailOrUsername(users, email, name).Some? then Outcome(users, [], Rejected(UserExists))
      else
        var user := User(id, name, email, password, DefaultRole, false, Some(token), Some(now + VerificationTtlMs), now);
        Outcome(users + [user], [VerificationMail(email, name, token)], Registered(id, IssueSession(id, now)))
  }

  /** POST /api/auth/login: unknown email and wrong password share one reply; the
      password is checked before the verification flag. */
  function LoginStep(users: seq<User>, email: string, password: string, now: int): Reply {
    var errors := LoginErrors(email, password);
    if errors != [] then Rejected(Invalid(errors))
    else match FindByEmail(users, email)
      case None => Rejected(InvalidCredentials)
      case Some(i) =>
        if users[i].password != password then Rejected(InvalidCredentials)
        else if !users[i].isVerified then Rejected(EmailNotVerified)
        else LoggedIn(users[i].id, IssueSession(users[i].id, now))
  }

  /** The user after a successful verification. */
  function MarkVerified(u: User): User {
    u.(isVerified := true, verificationToken := None, verificationTokenExpires := None)
  }

  /** GET /api/auth/verify-email/:token. */
  function VerifyStep(users: seq<User>, token: string, now: int): Outcome {
    match FindByLiveToken(users, token, now)
    case Some(i) =>
      Outcome(users[i := MarkVerified(users[i])], [WelcomeMail(users[i].email, users[i].username)], Verified)
    case None =>
      Outcome(users, [], Rejected(if FindByToken(users, token).Some? then TokenExpired else TokenInvalid))
  }

  /** POST /api/auth/resend-verification. */
  function ResendStep(users: seq<User>, email: string, token: string, now: int): Outcome {
    if !IsEmail(email) then Outcome(users, [], Rejected(Invalid(["email"])))
    else match FindByEmail(users, email)
      case None => Outcome(users, [], Rejected(UserNotFound))
      case Some(i) =>
        if users[i].isVerified then Outcome(users, [], Rejected(AlreadyVerified))
        else
          var u := users[i].(verificationToken := Some(token), verificationTokenExpires := Some(now + VerificationTtlMs));
          Outcome(users[i := u], [VerificationMail(u.email, u.username, token)], VerificationSent)
  }

  // ---------------------------------------------------------------------------
  // The handlers on the database

  method Register(db: Database, username: string, email: string, password: string, token: string, now: int)
    returns (reply: Reply)
    requires db.Valid()
    modifies db`users, db`nextId, db`outbox
    ensures db.Valid()
    ensures var o := RegisterStep(old(db.users), old(db.nextId), username, email, password, token, now);
      reply == o.reply && db.users == o.users && db.outbox == old(db.outbox) + o.mail
    ensures db.nextId == if reply.Registered? then old(db.nextId) + 1 else old(db.nextId)
  {
    var errors := RegisterErrors(username, email, password);
    if errors != [] {
      return Rejected(Invalid(errors));
    }
    var name := Trim(username);
    if FindByEmailOrUsername(db.users, email, name).Some? {
      return Rejected(UserExists);
    }
    assert forall k :: 0 <= k < |db.users| ==> db.users[k].email != email && db.users[k].username != name;
    var id := db.NewId();
    var user := User(id, name, email, password, DefaultRole, false, Some(token), Some(now + VerificationTtlMs), now);
    db.AddUser(user);
    db.Send(VerificationMail(email, name, token));
    reply := Registered(id, IssueSession(id, now));
    assert RegisterStep(old(db.users), old(db.nextId), username, email, password, token, now)
      == Outcome(db.users, [VerificationMail(email, name, token)], reply);
  }

  method Login(db: Database, email: string, password: string, now: int) returns (reply: Reply)
    ensures reply == LoginStep(db.users, email, password, now)
  {
    var errors := LoginErrors(email, password);
    if errors != [] {
      return Rejected(Invalid(errors));
    }
    var found := FindByEmail(db.users, email);
    if found.None? {
      return Rejected(InvalidCredentials);
    }
    var user := db.users[found.value];
    if user.password != password {
      return Rejected(InvalidCredentials);
    }
    if !user.isVerified {
      return Rejected(EmailNotVerified);
    }
    reply := LoggedIn(user.id, IssueSession(user.id, now));
  }

  method VerifyEmail(db: Database, token: string, now: int) returns (reply: Reply)
    requires db.Valid()
    modifies db`users, db`outbox
    ensures db.Valid()
    ensures var o := VerifyStep(old(db.users), token, now);
      reply == o.reply && db.users == o.users && db.outbox == old(db.outbox) + o.mail
  {
    var found := FindByLiveToken(db.users, token, now);
    if found.None? {
      if FindByToken(db.users, token).Some? {
        return Rejected(TokenExpired);
      }
      return Rejected(TokenInvalid);
    }
    var i := found.value;
    var user := db.users[i];
    user := user.(isVerified := true);
    user := user.(verificationToken := None);
    user := user.(verificationTokenExpires := None);
    db.ReplaceUserAt(i, user);
    db.Send(WelcomeMail(user.email, user.username));
    reply := Verified;
  }

  method ResendVerification(db: Database, email: string, token: string, now: int) returns (reply: Reply)
    requires db.Valid()
    modifies db`users, db`outbox
    ensures db.Valid()
    ensures var o := ResendStep(old(db.users), email, token, now);
      reply == o.reply && db.users == o.users && db.outbox == old(db.outbox) + o.mail
  {
    if !IsEmail(email) {
      return Rejected(Invalid(["email"]));
    }
    var found := FindByEmail(db.users, email);
    if found.None? {
      return Rejected(UserNotFound);
    }
    var i := found.value;
    var user := db.users[i];
    if user.isVerified {
      return Rejected(AlreadyVerified);
    }
    user := user.(verificationToken := Some(token));
    user := user.(verificationTokenExpires := Some(now + VerificationTtlMs));
    db.ReplaceUserAt(i, user);
    db.Send(VerificationMail(user.email, user.username, token));
    reply := VerificationSent;
  }

  // ---------------------------------------------------------------------------
  // Properties of register

  /** Input that fails a validator is refused with 400, naming the failing fields,
      and nothing is created or sent. */
  lemma RegisterRejectsInvalidInput(users: seq<User>, id: Id, username: string, email: string,
                                    password: string, token: string, now: int)
    requires !RegisterInputOk(username, email, password)
    ensures var o := RegisterStep(users, id, username, email, password, token, now);
      && o.users == users && o.mail == []
      && o.reply.Rejected? && o.reply.error.Invalid? && Status(o.reply) == 400
      && ("username" in o.reply.error.fields <==> ValidatorLength(Trim(username)) < MinUsernameLength)
      && ("email" in o.reply.error.fields <==> !IsEmail(email))
      && ("password" in o.reply.error.fields <==> ValidatorLength(password) < MinPasswordLength)
  {
  }

  /** Any existing user with the same email, or with the same (trimmed) username,
      makes register fail with 400 and leaves the store unchanged. */
  lemma RegisterRejectsDuplicate(users: seq<User>, i: nat, id: Id, username: string, email: string,
                                 password: string, token: string, now: int)
    requires RegisterInputOk(username, email, password)
    requires i < |users| && (users[i].email == email || users[i].username == Trim(username))
    ensures var o := RegisterStep(users, id, username, email, password, token, now);
      o == Outcome(users, [], Rejected(UserExists)) && Status(o.reply) == 400
  {
  }

  /** A successful register adds exactly one unverified user holding the token with a
      24-hour expiry, mails the token, and returns a 30-day session for the new id. */
  lemma RegisterCreatesUnverifiedUser(users: seq<User>, id: Id, username: string, email: string,
                                      password: string, token: string, now: int)
    requires RegisterInputOk(username, email, password)
    requires forall k :: 0 <= k < |users| ==> users[k].email != email && users[k].username != Trim(username)
    ensures var o := RegisterStep(users, id, username, email, password, token, now);
      && |o.users| == |users| + 1 && o.users[..|users|] == users
      && var u := o.users[|users|];
      && u.id == id && u.username == Trim(username) && u.email == email && u.role == DefaultRole
      && !u.isVerified && u.verificationToken == Some(token)
      && u.verificationTokenExpires == Some(now + 86400000)
      && o.mail == [VerificationMail(email, Trim(username), token)]
      && o.reply == Registered(id, Session(id, now + 30 * 86400000)) && Status(o.reply) == 201
  {
  }

  // ---------------------------------------------------------------------------
  // Properties of login

  /** An unknown email and a wrong password get the same 401 reply. */
  lemma LoginUniformFailure(users: seq<User>, email: string, password: string, now: int)
    requires UniqueUsers(users)
    requires IsEmail(email) && password != ""
    requires (forall k :: 0 <= k < |users| ==> users[k].email != email)
          || (exists k :: 0 <= k < |users| && users[k].email == email && users[k].password != password)
    ensures LoginStep(users, email, password, now) == Rejected(InvalidCredentials)
    ensures Status(LoginStep(users, email, password, now)) == 401
  {
    match FindByEmail(users, email)
    case None =>
    case Some(i) =>
      var k :| 0 <= k < |users| && users[k].email == email && users[k].password != password;
      assert !(i < k) && !(k < i);
  }

  /** The right password on an unverified account gets 403 and no session; the right
      password on a verified account gets a 30-day session for that user. */
  lemma LoginChecksVerification(users: seq<User>, i: nat, password: string, now: int)
    requires UniqueUsers(users)
    requires i < |users| && IsEmail(users[i].email) && password != "" && users[i].password == password
    ensures var r := LoginStep(users, users[i].email, password, now);
      && (!users[i].isVerified ==> r == Rejected(EmailNotVerified) && Status(r) == 403)
      && (users[i].isVerified ==> r == LoggedIn(users[i].id, Session(users[i].id, now + SessionTtlMs)))
  {
    var email := users[i].email;
    var j := FindByEmail(users, email).value;
    assert !(j < i) && !(i < j);
  }

  /** The password is checked first: a wrong password gets 401 whether or not the
      account is verified. */
  lemma LoginWrongPasswordBeforeVerification(users: seq<User>, i: nat, password: string, now: int)
    requires UniqueUsers(users)
    requires i < |users| && IsEmail(users[i].email) && password != "" && users[i].password != password
    ensures LoginStep(users, users[i].email, password, now) == Rejected(InvalidCredentials)
  {
    LoginUniformFailure(users, users[i].email, password, now);
  }

  // ---------------------------------------------------------------------------
  // Properties of verify-email

  /** Verification succeeds exactly when some user holds the token with an expiry
      strictly after `now`. */
  lemma VerifySucceedsIff(users: seq<User>, token: string, now: int)
    ensures VerifyStep(users, token, now).reply == Verified
        <==> exists i :: 0 <= i < |users| && HoldsLiveToken(users[i], token, now)
  {
    if exists i :: 0 <= i < |users| && HoldsLiveToken(users[i], token, now) {
      var i :| 0 <= i < |users| && HoldsLiveToken(users[i], token, now);
      assert !(FindByLiveToken(users, token, now).None?);
    }
  }

  /** A successful verification marks the token holder verified, clears its token and
      expiry, and changes no other user. */
  lemma VerifyClearsToken(users: seq<User>, i: nat, token: string, now: int)
    requires i < |users| && HoldsLiveToken(users[i], token, now)
    requires forall k :: 0 <= k < |users| && k != i ==> users[k].verificationToken != Some(token)
    ensures var o := VerifyStep(users, token, now);
      && o.reply == Verified
      && |o.users| == |users|
      && o.users[i].isVerified && o.users[i].verificationToken.None? && o.users[i].verificationTokenExpires.None?
      && o.users[i] == users[i].(isVerified := true, verificationToken := None, verificationTokenExpires := None)
      && (forall k :: 0 <= k < |users| && k != i ==> o.users[k] == users[k])
      && o.mail == [WelcomeMail(users[i].email, users[i].username)]
  {
    var j := FindByLiveToken(users, token, now).value;
    assert !(j < i) && !(i < j);
  }

  /** A held token whose expiry is not after `now` gets the "expired" 400 and the user
      stays unverified. */
  lemma VerifyExpiredToken(users: seq<User>, i: nat, token: string, now: int)
    requires i < |users| && users[i].verificationToken == Some(token)
    requires forall k :: 0 <= k < |users| ==> !HoldsLiveToken(users[k], token, now)
    ensures var o := VerifyStep(users, token, now);
      o == Outcome(users, [], Rejected(TokenExpired)) && Status(o.reply) == 400
      && o.users[i].isVerified == users[i].isVerified
  {
    assert FindByToken(users, token).Some?;
  }

  /** A token that no user holds gets the "invalid" 400. */
  lemma VerifyUnknownToken(users: seq<User>, token: string, now: int)
    requires forall k :: 0 <= k < |users| ==> users[k].verificationToken != Some(token)
    ensures VerifyStep(users, token, now) == Outcome(users, [], Rejected(TokenInvalid))
  {
  }

  /** At most one user holds the token (random tokens do not collide). */
  ghost predicate TokenHeldAtMostOnce(users: seq<User>, token: string) {
    forall i, j ::
      (0 <= i < |users| && 0 <= j < |users|
       && users[i].verificationToken == Some(token) && users[j].verificationToken == Some(token)) ==> i == j
  }

  /** A consumed token cannot be replayed: once verification succeeded, the same token
      gets the "invalid" 400 at any later time. */
  lemma {:induction false} VerifyReplayIsInvalid(users: seq<User>, token: string, now: int, later: int)
    requires TokenHeldAtMostOnce(users, token)
    requires VerifyStep(users, token, now).reply == Verified
    ensures var after := VerifyStep(users, token, now).users;
      VerifyStep(after, token, later) == Outcome(after, [], Rejected(TokenInvalid))
  {
    var i := FindByLiveToken(users, token, now).value;
    var after := VerifyStep(users, token, now).users;
    forall k | 0 <= k < |after| ensures after[k].verificationToken != Some(token) {
      if k != i {
        assert after[k] == users[k];
      }
    }
    VerifyUnknownToken(after, token, later);
  }

  // ---------------------------------------------------------------------------
  // Properties of resend-verification

  /** An unknown email gets 404 and an already verified account gets 400, with no change. */
  lemma ResendRefusals(users: seq<User>, email: string, token: string, now: int)
    requires UniqueUsers(users) && IsEmail(email)
    ensures (forall k :: 0 <= k < |users| ==> users[k].email != email) ==>
      ResendStep(users, email, token, now) == Outcome(users, [], Rejected(UserNotFound))
    ensures (exists k :: 0 <= k < |users| && users[k].email == email && users[k].isVerified) ==>
      ResendStep(users, email, token, now) == Outcome(users, [], Rejected(AlreadyVerified))
  {
    if exists k :: 0 <= k < |users| && users[k].email == email && users[k].isVerified {
      var k :| 0 <= k < |users| && users[k].email == email && users[k].isVerified;
      var j := FindByEmail(users, email).value;
      assert !(j < k) && !(k < j);
    }
  }

  /** Resending to an unverified account replaces its token and restarts the 24-hour
      expiry, so the old token no longer matches that user; nobody else changes. */
  lemma ResendReplacesToken(users: seq<User>, i: nat, token: string, now: int)
    requires UniqueUsers(users)
    requires i < |users| && IsEmail(users[i].email) && !users[i].isVerified
    ensures var o := ResendStep(users, users[i].email, token, now);
      && o.reply == VerificationSent
      && |o.users| == |users|
      && o.users[i] == users[i].(verificationToken := Some(token), verificationTokenExpires := Some(now + DayMs))
      && (forall k :: 0 <= k < |users| && k != i ==> o.users[k] == users[k])
      && (forall old_token :: old_token != token ==> o.users[i].verificationToken != Some(old_token))
      && o.mail == [VerificationMail(users[i].email, users[i].username, token)]
  {
    var j := FindByEmail(users, users[i].email).value;
    assert !(j < i) && !(i < j);
  }

  /** The old token is dead after a resend: if the account was its only holder,
      verifying with it now gets the "invalid" 400. */
  lemma {:induction false} ResendInvalidatesOldToken(users: seq<User>, i: nat, oldToken: string,
                                                     token: string, now: int, later: int)
    requires UniqueUsers(users)
    requires i < |users| && IsEmail(users[i].email) && !users[i].isVerified
    requires users[i].verificationToken == Some(oldToken) && TokenHeldAtMostOnce(users, oldToken)
    requires token != oldToken
    ensures var after := ResendStep(users, users[i].email, token, now).users;
      VerifyStep(after, oldToken, later).reply == Rejected(TokenInvalid)
  {
    ResendReplacesToken(users, i, token, now);
    var after := ResendStep(users, users[i].email, token, now).users;
    forall k | 0 <= k < |after| ensures after[k].verificationToken != Some(oldToken) {
      if k != i {
        assert after[k] == users[k];
      }
    }
    VerifyUnknownToken(after, oldToken, later);
  }

  // ---------------------------------------------------------------------------
  // The whole lifecycle

  /** Register, then verify with the mailed token within 24 hours, then log in with the
      same credentials: the login succeeds with a session for the new user. */
  lemma {:induction false} RegisterVerifyLogin(users: seq<User>, id: Id, username: string, email: string,
                                               password: string, token: string, now: int, t1: int, t2: int)
    requires UniqueUsers(users)
    requires RegisterInputOk(username, email, password)
    requires forall k :: 0 <= k < |users| ==>
      users[k].id != id && users[k].email != email && users[k].username != Trim(username)
    requires forall k :: 0 <= k < |users| ==> users[k].verificationToken != Some(token)
    requires t1 < now + VerificationTtlMs
    ensures var registered := RegisterStep(users, id, username, email, password, token, now).users;
      var verified := VerifyStep(registered, token, t1);
      && verified.reply == Verified
      && LoginStep(verified.users, email, password, t2) == LoggedIn(id, IssueSession(id, t2))
  {
    RegisterCreatesUnverifiedUser(users, id, username, email, password, token, now);
    var registered := RegisterStep(users, id, username, email, password, token, now).users;
    var n := |users|;
    assert HoldsLiveToken(registered[n], token, t1);
    VerifyClearsToken(registered, n, token, t1);
    var verified := VerifyStep(registered, token, t1).users;
    AppendKeepsUnique(users, registered[n]);
    assert registered == users + [registered[n]];
    ReplaceKeepsUnique(registered, n, verified[n]);
    assert verified == registered[n := verified[n]];
    LoginChecksVerification(verified, n, password, t2);
  }
}
