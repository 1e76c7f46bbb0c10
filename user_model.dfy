/** The user record as the auth and admin routes read and write it. The schema
    file itself (models/User.js) is not part of this model: its password hashing
    is abstracted to an equality test, and its unique indexes on email and
    username are taken as given (each email and each username names at most one
    user; the routes rely on it). */
module UserModel {
  import opened Common

  const DefaultRole: string := "user"

  datatype User = User(
    id: Id,
    username: string,
    email: string,
    /** the secret bcrypt hashed; `comparePassword` is modelled as equality with it */
    password: string,
    role: string,
    isVerified: bool,
    verificationToken: Option<string>,
    verificationTokenExpires: Option<int>,
    createdAt: int)

  /** A user as `.select('-password')` returns it: every field but the password. */
  datatype PublicUser = PublicUser(
    id: Id,
    username: string,
    email: string,
    role: string,
    isVerified: bool,
    verificationToken: Option<string>,
    verificationTokenExpires: Option<int>,
    createdAt: int)

  function WithoutPassword(u: User): PublicUser {
    PublicUser(u.id, u.username, u.email, u.role, u.isVerified, u.verificationToken,
               u.verificationTokenExpires, u.createdAt)
  }

  /** The projection forgets the password and nothing else: two users look the same
      through it exactly when they differ at most in their password. */
  lemma WithoutPasswordForgetsOnlyPassword(u: User, v: User)
    ensures WithoutPassword(u) == WithoutPassword(v) <==> u.(password := v.password) == v
  {
  }

  /** What the unique indexes guarantee of the users collection. */
  ghost predicate UniqueUsers(users: seq<User>) {
    forall i, j :: 0 <= i < j < |users| ==>
      && users[i].id != users[j].id
      && users[i].email != users[j].email
      && users[i].username != users[j].username
  }

  /** `User.findById(id)`. */
  function FindUserById(users: seq<User>, id: Id): Option<nat> {
    FindFirst(users, (u: User) => u.id == id)
  }

  /** `User.findOne({ email })`. */
  function FindByEmail(users: seq<User>, email: string): Option<nat> {
    FindFirst(users, (u: User) => u.email == email)
  }

  /** `User.findOne({ $or: [{ email }, { username }] })`. */
  function FindByEmailOrUsername(users: seq<User>, email: string, username: string): Option<nat> {
    FindFirst(users, (u: User) => u.email == email || u.username == username)
  }

  /** `User.findOne({ verificationToken: token })`. */
  function FindByToken(users: seq<User>, token: string): Option<nat> {
    FindFirst(users, (u: User) => u.verificationToken == Some(token))
  }

  /** A token that is present on the user and whose expiry lies strictly after `now`. */
  predicate HoldsLiveToken(u: User, token: string, now: int) {
    && u.verificationToken == Some(token)
    && u.verificationTokenExpires.Some?
    && u.verificationTokenExpires.value > now
  }

  /** `User.findOne({ verificationToken: token, verificationTokenExpires: { $gt: now } })`. */
  function FindByLiveToken(users: seq<User>, token: string, now: int): Option<nat> {
    FindFirst(users, (u: User) => HoldsLiveToken(u, token, now))
  }

  /** Replacing a user by one with the same id, email and username keeps the indexes unique. */
  lemma ReplaceKeepsUnique(users: seq<User>, i: nat, u: User)
    requires UniqueUsers(users)
    requires i < |users|
    requires u.id == users[i].id && u.email == users[i].email && u.username == users[i].username
    ensures UniqueUsers(users[i := u])
  {
  }

  /** Appending a user whose id, email and username are all new keeps the indexes unique. */
  lemma AppendKeepsUnique(users: seq<User>, u: User)
    requires UniqueUsers(users)
    requires forall k :: 0 <= k < |users| ==>
      users[k].id != u.id && users[k].email != u.email && users[k].username != u.username
    ensures UniqueUsers(users + [u])
  {
  }

  /** Replacing a user by one with the same id whose email and username no other user
      holds keeps the indexes unique. */
  lemma ReplaceDistinctKeepsUnique(users: seq<User>, i: nat, u: User)
    requires UniqueUsers(users)
    requires i < |users| && u.id == users[i].id
    requires forall k :: 0 <= k < |users| && k != i ==>
      users[k].email != u.email && users[k].username != u.username
    ensures UniqueUsers(users[i := u])
  {
  }

  /** Removing a user keeps the indexes unique. */
  lemma RemoveKeepsUnique(users: seq<User>, i: nat)
    requires UniqueUsers(users)
    requires i < |users|
    ensures UniqueUsers(RemoveAt(users, i))
  {
    var r := RemoveAt(users, i);
    forall a, b | 0 <= a < b < |r|
      ensures r[a].id != r[b].id && r[a].email != r[b].email && r[a].username != r[b].username
    {
      var a' := if a < i then a else a + 1;
      var b' := if b < i then b else b + 1;
      assert r[a] == users[a'] && r[b] == users[b'];
    }
  }
}
