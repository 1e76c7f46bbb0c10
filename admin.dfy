/** The administration routes of routes/admin.js: the admin gate every route sits
    behind, user creation with its conditional verification token, the partial
    user update, user deletion with its self-delete guard and recipe cascade, the
    allowed-field recipe update, recipe deletion, and the platform statistics.

    As in the account routes, each handler is a method on the database that makes
    the source's assignments one by one and is proved equal to a pure step
    function; the lemmas speak about the step functions. The random token and the
    clock are parameters. JSON request bodies are values of the types below. */
module Admin {
  import opened Common
  import opened UserModel
  import opened RecipeModel
  import opened Store
  import Auth
  import RecipeRoutes

  datatype AdminError =
    | Unauthenticated
    | NotAdmin
    | Invalid(fields: seq<string>)
    | UserExists
    | UserNotFound
    | RecipeNotFound
    | SelfDelete
    | ServerError

  datatype Reply = Done(status: int) | Refused(error: AdminError)

  function ErrorStatus(e: AdminError): int {
    match e
    case Unauthenticated => 401
    case NotAdmin => 403
    case UserNotFound => 404
    case RecipeNotFound => 404
    case ServerError => 500
    case _ => 400
  }

  function Status(r: Reply): int {
    match r
    case Done(s) => s
    case Refused(e) => ErrorStatus(e)
  }

  /** What a request does: the new users collection, the mails sent, the reply. */
  datatype Outcome = Outcome(users: seq<User>, mail: seq<Mail>, reply: Reply)

  // ---------------------------------------------------------------------------
  // router.use(protect, admin)

  /** `protect` refuses a request without a valid session, then `admin` refuses any
      role but 'admin'. The middleware source is not part of this model; the caller
      it resolves comes in as a parameter. */
  function Gate(caller: Option<Caller>): (e: Option<AdminError>)
    ensures e.None? <==> caller.Some? && caller.value.role == AdminRole
    ensures e.Some? ==> Status(Refused(e.value)) == if caller.None? then 401 else 403
  {
    if caller.None? then Some(Unauthenticated)
    else if caller.value.role != AdminRole then Some(NotAdmin)
    else None
  }

  // ---------------------------------------------------------------------------
  // POST /api/admin/users

  const Roles: seq<string> := ["user", "admin"]

  /** The JSON body; `role` and `isVerified` may be absent (None). */
  datatype NewUserForm = NewUserForm(
    username: string,
    email: string,
    password: string,
    role: Option<string>,
    isVerified: Option<bool>)

  /** The validators that fail, in declaration order: the username is trimmed before
      its length is checked, and a role, when present, must be 'user' or 'admin'. */
  function CreateUserErrors(f: NewUserForm): seq<string> {
    (if ValidatorLength(Trim(f.username)) >= Auth.MinUsernameLength then [] else ["username"])
    + (if Auth.IsEmail(f.email) then [] else ["email"])
    + (if ValidatorLength(f.password) >= Auth.MinPasswordLength then [] else ["password"])
    + (if f.role.None? || f.role.value in Roles then [] else ["role"])
  }

  /** A JSON value's truthiness for an optional boolean. */
  predicate Truthy(b: Option<bool>) {
    b == Some(true)
  }

  /** The user `User.create` stores for a validated body and the ObjectId `id`: the
      role defaults to 'user' and the flag to false; only an unverified user gets a
      token, valid 24 hours. */
  function NewUser(id: Id, f: NewUserForm, token: string, now: int): User {
    var verified := Truthy(f.isVerified);
    User(id, Trim(f.username), f.email, f.password,
         if f.role.Some? && f.role.value != "" then f.role.value else DefaultRole,
         verified,
         if verified then None else Some(token),
         if verified then None else Some(now + Auth.VerificationTtlMs),
         now)
  }

  /** POST /api/admin/users: the new user is mailed its token unless it is created
      verified. */
  function CreateUserStep(users: seq<User>, id: Id, f: NewUserForm, token: string, now: int): Outcome {
    var errors := CreateUserErrors(f);
    if errors != [] then Outcome(users, [], Refused(Invalid(errors)))
    else
      var name := Trim(f.username);
      if FindByEmailOrUsername(users, f.email, name).Some? then Outcome(users, [], Refused(UserExists))
      else
        Outcome(users + [NewUser(id, f, token, now)],
                if Truthy(f.isVerified) then [] else [VerificationMail(f.email, name, token)],
                Done(201))
  }

  method CreateUser(db: Database, caller: Option<Caller>, f: NewUserForm, token: string, now: int)
    returns (reply: Reply)
    requires db.Valid()
    modifies db`users, db`nextId, db`outbox
    ensures db.Valid()
    ensures Gate(caller).Some? ==>
      reply == Refused(Gate(caller).value) && db.users == old(db.users) && db.outbox == old(db.outbox)
    ensures Gate(caller).None? ==>
      var o := CreateUserStep(old(db.users), old(db.nextId), f, token, now);
      reply == o.reply && db.users == o.users && db.outbox == old(db.outbox) + o.mail
  {
    var denied := Gate(caller);
    if denied.Some? {
      return Refused(denied.value);
    }
    var errors := CreateUserErrors(f);
    if errors != [] {
      return Refused(Invalid(errors));
    }
    var name := Trim(f.username);
    if FindByEmailOrUsername(db.users, f.email, name).Some? {
      return Refused(UserExists);
    }
    assert forall k :: 0 <= k < |db.users| ==> db.users[k].email != f.email && db.users[k].username != name;
    var id := db.NewId();
    var user := NewUser(id, f, token, now);
    db.AddUser(user);
    if !Truthy(f.isVerified) {
      db.Send(VerificationMail(f.email, name, token));
    }
    reply := Done(201);
  }

  /** A created user holds a token, with a 24-hour expiry, and is mailed it exactly
      when the body does not mark it verified; the role defaults to 'user' and the
      verification flag to false. */
  lemma CreateUserTokenIffUnverified(users: seq<User>, id: Id, f: NewUserForm, token: string, now: int)
    requires CreateUserErrors(f) == []
    requires forall k :: 0 <= k < |users| ==> users[k].email != f.email && users[k].username != Trim(f.username)
    ensures var o := CreateUserStep(users, id, f, token, now);
      && o.reply == Done(201) && |o.users| == |users| + 1 && o.users[..|users|] == users
      && var u := o.users[|users|];
      && u.id == id && u.username == Trim(f.username) && u.email == f.email
      && (u.isVerified <==> f.isVerified == Some(true))
      && (f.role.None? ==> u.role == "user")
      && (f.role.Some? ==> u.role == f.role.value && u.role in Roles)
      && (u.verificationToken.Some? <==> !u.isVerified)
      && (!u.isVerified ==> u.verificationToken == Some(token) && u.verificationTokenExpires == Some(now + 86400000))
      && (u.isVerified ==> u.verificationTokenExpires.None? && o.mail == [])
      && (!u.isVerified ==> o.mail == [VerificationMail(f.email, Trim(f.username), token)])
  {
  }

  /** An existing user with the email or the trimmed username makes creation fail with
      400, changing nothing and sending nothing. */
  lemma CreateUserRejectsDuplicate(users: seq<User>, i: nat, id: Id, f: NewUserForm, token: string, now: int)
    requires CreateUserErrors(f) == []
    requires i < |users| && (users[i].email == f.email || users[i].username == Trim(f.username))
    ensures CreateUserStep(users, id, f, token, now) == Outcome(users, [], Refused(UserExists))
    ensures Status(CreateUserStep(users, id, f, token, now).reply) == 400
  {
  }

  /** A role other than 'user' or 'admin' is refused before anything is looked up. */
  lemma CreateUserRejectsUnknownRole(users: seq<User>, id: Id, f: NewUserForm, token: string, now: int)
    requires f.role.Some? && f.role.value !in Roles
    ensures var o := CreateUserStep(users, id, f, token, now);
      o.users == users && o.mail == [] && o.reply.Refused? && o.reply.error.Invalid?
      && "role" in o.reply.error.fields
  {
  }

  // ---------------------------------------------------------------------------
  // PUT /api/admin/users/:id

  /** The JSON body: an empty string stands for an absent or falsy value, and
      `isVerified` is None when it is undefined. */
  datatype UserPatch = UserPatch(username: string, email: string, role: string, isVerified: Option<bool>)

  /** `if (username) user.username = username` and so on; isVerified whenever it is
      defined. */
  function PatchUser(u: User, p: UserPatch): User {
    u.(username := if p.username != "" then p.username else u.username,
       email := if p.email != "" then p.email else u.email,
       role := if p.role != "" then p.role else u.role,
       isVerified := if p.isVerified.Some? then p.isVerified.value else u.isVerified)
  }

  /** Another user already holds the email or the username the patched user would have:
      the unique index refuses the save. */
  predicate Collides(users: seq<User>, i: nat, u: User) {
    exists k :: 0 <= k < |users| && k != i && (users[k].email == u.email || users[k].username == u.username)
  }

  function UpdateUserStep(users: seq<User>, userId: Id, p: UserPatch): Outcome {
    match FindUserById(users, userId)
    case None => Outcome(users, [], Refused(UserNotFound))
    case Some(i) =>
      var v := PatchUser(users[i], p);
      if Collides(users, i, v) then Outcome(users, [], Refused(ServerError))
      else Outcome(users[i := v], [], Done(200))
  }

  method UpdateUser(db: Database, caller: Option<Caller>, userId: Id, p: UserPatch) returns (reply: Reply)
    requires db.Valid()
    modifies db`users
    ensures db.Valid()
    ensures Gate(caller).Some? ==> reply == Refused(Gate(caller).value) && db.users == old(db.users)
    ensures Gate(caller).None? ==>
      var o := UpdateUserStep(old(db.users), userId, p);
      reply == o.reply && db.users == o.users
  {
    var denied := Gate(caller);
    if denied.Some? {
      return Refused(denied.value);
    }
    var found := FindUserById(db.users, userId);
    if found.None? {
      return Refused(UserNotFound);
    }
    var i := found.value;
    var user := db.users[i];
    if p.username != "" {
      user := user.(username := p.username);
    }
    if p.email != "" {
      user := user.(email := p.email);
    }
    if p.role != "" {
      user := user.(role := p.role);
    }
    if p.isVerified.Some? {
      user := user.(isVerified := p.isVerified.value);
    }
    assert user == PatchUser(db.users[i], p);
    if Collides(db.users, i, user) {
      return Refused(ServerError);
    }
    db.ReplaceUserAt(i, user);
    reply := Done(200);
  }

  /** The update touches the named fields only: username, email and role take a
      non-empty new value, isVerified any defined one (so a verified user can be
      unverified); the password, the verification token and its expiry, the id and
      createdAt are kept, and no other user changes. */
  lemma UpdateUserChangesOnlyNamedFields(users: seq<User>, userId: Id, p: UserPatch)
    requires UniqueUsers(users)
    ensures var o := UpdateUserStep(users, userId, p);
      && o.mail == []
      && (o.reply == Done(200) ==>
            exists i :: 0 <= i < |users| && users[i].id == userId && o.users == users[i := o.users[i]]
              && var u, v := users[i], o.users[i];
              && v.id == u.id && v.password == u.password && v.createdAt == u.createdAt
              && v.verificationToken == u.verificationToken
              && v.verificationTokenExpires == u.verificationTokenExpires
              && v.username == (if p.username != "" then p.username else u.username)
              && v.email == (if p.email != "" then p.email else u.email)
              && v.role == (if p.role != "" then p.role else u.role)
              && v.isVerified == (if p.isVerified.Some? then p.isVerified.value else u.isVerified))
      && (o.reply != Done(200) ==> o.users == users)
  {
    match FindUserById(users, userId)
    case None =>
    case Some(i) =>
  }

  /** An unknown id gets 404 and changes nothing; an empty patch saves the user as it
      was. */
  lemma UpdateUserEdgeCases(users: seq<User>, userId: Id)
    requires UniqueUsers(users)
    ensures (forall k :: 0 <= k < |users| ==> users[k].id != userId) ==>
      UpdateUserStep(users, userId, UserPatch("", "", "", None)) == Outcome(users, [], Refused(UserNotFound))
    ensures (exists k :: 0 <= k < |users| && users[k].id == userId) ==>
      UpdateUserStep(users, userId, UserPatch("", "", "", None)) == Outcome(users, [], Done(200))
  {
    match FindUserById(users, userId)
    case None =>
    case Some(i) =>
      var v := PatchUser(users[i], UserPatch("", "", "", None));
      assert v == users[i];
      assert !Collides(users, i, v);
      assert users[i := v] == users;
  }

  // ---------------------------------------------------------------------------
  // DELETE /api/admin/users/:id and its recipe cascade

  /** `Recipe.deleteMany({ user: id })` as written: `user` is not a path of the Recipe
      schema (the owner is stored in `author`). With Mongoose's strictQuery on, the
      unknown path is stripped and the empty filter matches every recipe; with it
      off, the filter reaches MongoDB and matches no stored recipe, since none has a
      top-level `user` field. The recipes that remain. */
  function CascadeAsWritten(recipes: seq<Recipe>, userId: Id, strictQuery: bool): (kept: seq<Recipe>)
    ensures strictQuery ==> kept == []
    ensures !strictQuery ==> kept == recipes
  {
    if strictQuery then [] else recipes
  }

  /** The evident intent, "the user and their recipes": every recipe authored by the
      user is deleted and every other recipe remains, in order. */
  function CascadeByAuthor(recipes: seq<Recipe>, userId: Id): (kept: seq<Recipe>)
    ensures forall k :: 0 <= k < |kept| ==> kept[k].author != userId && kept[k] in recipes
    ensures forall k :: 0 <= k < |recipes| && recipes[k].author != userId ==> recipes[k] in kept
    ensures |kept| == |recipes| - Count(recipes, (r: Recipe) => r.author == userId)
  {
    var p := (r: Recipe) => r.author != userId;
    var kept := Filter(recipes, p);
    FilterLength(recipes, p);
    CountComplement(recipes, (r: Recipe) => r.author == userId, p);
    forall k | 0 <= k < |kept| ensures kept[k] in recipes {
      assert kept[k] in multiset(kept);
    }
    kept
  }

  /** The cascade as written never does what the reply claims: without strictQuery a
      recipe by the deleted user survives, and with it a recipe by another user is
      deleted. */
  lemma CascadeAsWrittenMissesAuthor(recipes: seq<Recipe>, userId: Id, k: nat, strictQuery: bool)
    requires k < |recipes|
    ensures recipes[k].author == userId && !strictQuery ==> recipes[k] in CascadeAsWritten(recipes, userId, strictQuery)
    ensures recipes[k].author != userId && strictQuery ==> recipes[k] !in CascadeAsWritten(recipes, userId, strictQuery)
    ensures recipes[k].author == userId ==> recipes[k] !in CascadeByAuthor(recipes, userId)
    ensures recipes[k].author != userId ==> recipes[k] in CascadeByAuthor(recipes, userId)
  {
  }

  /** A concrete store: one recipe by user 1 and one by user 2, deleting user 1. */
  lemma CascadeAsWrittenExample(a: Recipe, b: Recipe)
    requires a.author == 1 && b.author == 2
    ensures CascadeAsWritten([a, b], 1, false) == [a, b]
    ensures CascadeAsWritten([a, b], 1, true) == []
    ensures CascadeByAuthor([a, b], 1) == [b]
  {
    var kept := CascadeByAuthor([a, b], 1);
    assert b in kept;
    assert |kept| == 1 by {
      assert Count([a, b], (r: Recipe) => r.author == 1) == 1 by {
        assert [a, b][1..] == [b];
        assert [b][1..] == [];
      }
    }
  }

  /** The route as written, cascading through `CascadeAsWritten`. */
  method DeleteUser(db: Database, caller: Option<Caller>, userId: Id, strictQuery: bool) returns (reply: Reply)
    requires db.Valid()
    modifies db`users, db`recipes
    ensures db.Valid()
    ensures Gate(caller).Some? ==>
      reply == Refused(Gate(caller).value) && db.users == old(db.users) && db.recipes == old(db.recipes)
    ensures Gate(caller).None? ==> match FindUserById(old(db.users), userId)
      case None => reply == Refused(UserNotFound) && db.users == old(db.users) && db.recipes == old(db.recipes)
      case Some(i) =>
        if userId == caller.value.id then
          reply == Refused(SelfDelete) && db.users == old(db.users) && db.recipes == old(db.recipes)
        else
          && reply == Done(200)
          && db.users == RemoveAt(old(db.users), i)
          && db.recipes == CascadeAsWritten(old(db.recipes), userId, strictQuery)
  {
    var denied := Gate(caller);
    if denied.Some? {
      return Refused(denied.value);
    }
    var found := FindUserById(db.users, userId);
    if found.None? {
      return Refused(UserNotFound);
    }
    var i := found.value;
    if db.users[i].id == caller.value.id {
      return Refused(SelfDelete);
    }
    var kept := CascadeAsWritten(db.recipes, userId, strictQuery);
    db.KeepRecipes(kept);
    db.DeleteUserAt(i);
    reply := Done(200);
  }

  /** The route with the cascade it evidently intends, `CascadeByAuthor`. */
  method DeleteUserCorrected(db: Database, caller: Option<Caller>, userId: Id) returns (reply: Reply)
    requires db.Valid()
    modifies db`users, db`recipes
    ensures db.Valid()
    ensures Gate(caller).Some? ==>
      reply == Refused(Gate(caller).value) && db.users == old(db.users) && db.recipes == old(db.recipes)
    ensures Gate(caller).None? ==> match FindUserById(old(db.users), userId)
      case None => reply == Refused(UserNotFound) && db.users == old(db.users) && db.recipes == old(db.recipes)
      case Some(i) =>
        if userId == caller.value.id then
          reply == Refused(SelfDelete) && db.users == old(db.users) && db.recipes == old(db.recipes)
        else
          && reply == Done(200)
          && db.users == RemoveAt(old(db.users), i)
          && db.recipes == CascadeByAuthor(old(db.recipes), userId)
  {
    var denied := Gate(caller);
    if denied.Some? {
      return Refused(denied.value);
    }
    var found := FindUserById(db.users, userId);
    if found.None? {
      return Refused(UserNotFound);
    }
    var i := found.value;
    if db.users[i].id == caller.value.id {
      return Refused(SelfDelete);
    }
    var kept := CascadeByAuthor(db.recipes, userId);
    FilterKeepsDistinctKeys(db.recipes, (r: Recipe) => r.author != userId, (r: Recipe) => r.id);
    db.KeepRecipes(kept);
    db.DeleteUserAt(i);
    reply := Done(200);
  }

  /** After a delete the user is gone and so are their recipes; an admin can never
      delete their own account. */
  lemma DeleteUserRemovesUserAndRecipes(users: seq<User>, recipes: seq<Recipe>, i: nat)
    requires UniqueUsers(users) && i < |users|
    ensures forall k :: 0 <= k < |RemoveAt(users, i)| ==> RemoveAt(users, i)[k].id != users[i].id
    ensures forall k :: 0 <= k < |CascadeByAuthor(recipes, users[i].id)| ==>
      CascadeByAuthor(recipes, users[i].id)[k].author != users[i].id
  {
    var r := RemoveAt(users, i);
    forall k | 0 <= k < |r| ensures r[k].id != users[i].id {
      if k < i { assert r[k] == users[k]; } else { assert r[k] == users[k + 1]; }
    }
  }

  // ---------------------------------------------------------------------------
  // PUT /api/admin/recipes/:id

  /** The recipe paths the admin update may assign. */
  datatype Path = Title | Description | Ingredients | Instructions | Category | Difficulty
                | PrepTime | CookTime | Servings

  /** The body key naming a path. */
  function PathName(p: Path): string {
    match p
    case Title => "title"
    case Description => "description"
    case Ingredients => "ingredients"
    case Instructions => "instructions"
    case Category => "category"
    case Difficulty => "difficulty"
    case PrepTime => "prepTime"
    case CookTime => "cookTime"
    case Servings => "servings"
  }

  /** The fields the admin update copies, in the order it copies them. */
  const AllowedFields: seq<Path> :=
    [Title, Description, Ingredients, Instructions, Category, Difficulty, PrepTime, CookTime, Servings]

  /** The list names every path once, under distinct keys. */
  lemma AllowedFieldsDistinct()
    ensures forall p: Path :: p in AllowedFields
    ensures forall i, j :: 0 <= i < j < |AllowedFields| ==> PathName(AllowedFields[i]) != PathName(AllowedFields[j])
  {
    forall p: Path ensures p in AllowedFields {
      var k := match p
        case Title => 0 case Description => 1 case Ingredients => 2 case Instructions => 3
        case Category => 4 case Difficulty => 5 case PrepTime => 6 case CookTime => 7 case Servings => 8;
      assert AllowedFields[k] == p;
    }
  }

  /** A JSON value in the body: a string, an integer or an array of strings. */
  datatype FieldValue = Text(text: string) | Number(number: int) | Texts(items: seq<string>)

  /** The value a path holds after `recipe[path] = v`: a String path takes a string or
      the decimal form of a number (the title through its trim) and refuses an array;
      an array path takes an array or wraps a single value; a Number path takes a
      number or casts a string. None is a CastError, which fails the save. */
  function Cast(p: Path, v: FieldValue): Option<FieldValue> {
    match p
    case Ingredients | Instructions =>
      (match v
       case Texts(items) => Some(Texts(items))
       case Text(s) => Some(Texts([s]))
       case Number(n) => Some(Texts([DecimalString(n)])))
    case PrepTime | CookTime | Servings =>
      (match v
       case Number(n) => Some(Number(n))
       case Text(s) => (match RecipeRoutes.CastNumber(s) case None => None case Some(n) => Some(Number(n)))
       case Texts(_) => None)
    case _ =>
      (match v
       case Text(s) => Some(Text(if p == Title then Trim(s) else s))
       case Number(n) => Some(Text(DecimalString(n)))
       case Texts(_) => None)
  }

  /** The current value at a path. */
  function Field(r: Recipe, p: Path): FieldValue {
    match p
    case Title => Text(r.title)
    case Description => Text(r.description)
    case Ingredients => Texts(r.ingredients)
    case Instructions => Texts(r.instructions)
    case Category => Text(r.category)
    case Difficulty => Text(r.difficulty)
    case PrepTime => Number(r.prepTime)
    case CookTime => Number(r.cookTime)
    case Servings => Number(r.servings)
  }

  /** Stores a value cast for the path. */
  function Put(r: Recipe, p: Path, c: FieldValue): Recipe {
    match (p, c)
    case (Title, Text(s)) => r.(title := s)
    case (Description, Text(s)) => r.(description := s)
    case (Ingredients, Texts(items)) => r.(ingredients := items)
    case (Instructions, Texts(items)) => r.(instructions := items)
    case (Category, Text(s)) => r.(category := s)
    case (Difficulty, Text(s)) => r.(difficulty := s)
    case (PrepTime, Number(n)) => r.(prepTime := n)
    case (CookTime, Number(n)) => r.(cookTime := n)
    case (Servings, Number(n)) => r.(servings := n)
    case _ => r
  }

  /** `recipe[path] = v`. */
  function SetField(r: Recipe, p: Path, v: FieldValue): Option<Recipe> {
    match Cast(p, v)
    case None => None
    case Some(c) => Some(Put(r, p, c))
  }

  /** The copy loop over the first paths of the list: each path whose key the body
      defines is assigned; a CastError on any of them fails the whole update. */
  function ApplyFields(r: Recipe, body: map<string, FieldValue>, paths: seq<Path>): Option<Recipe> {
    if paths == [] then Some(r)
    else
      match ApplyFields(r, body, paths[..|paths| - 1])
      case None => None
      case Some(m) =>
        var p := paths[|paths| - 1];
        if PathName(p) in body then SetField(m, p, body[PathName(p)]) else Some(m)
  }

  /** `b` agrees with `a` on everything outside the nine allowed paths. */
  predicate OnlyAllowedDiffer(a: Recipe, b: Recipe) {
    b == a.(title := b.title, description := b.description, ingredients := b.ingredients,
            instructions := b.instructions, category := b.category, difficulty := b.difficulty,
            prepTime := b.prepTime, cookTime := b.cookTime, servings := b.servings)
  }

  /** Assigning one path sets that path to the cast value and leaves every other path
      as it was. */
  lemma SetFieldChangesOnlyItsPath(r: Recipe, p: Path, v: FieldValue)
    ensures SetField(r, p, v).None? <==> Cast(p, v).None?
    ensures SetField(r, p, v).Some? ==>
      var m := SetField(r, p, v).value;
      && OnlyAllowedDiffer(r, m)
      && Field(m, p) == Cast(p, v).value
      && (forall o :: o != p ==> Field(m, o) == Field(r, o))
  {
    match p
    case Title =>
    case Description =>
    case Ingredients =>
    case Instructions =>
    case Category =>
    case Difficulty =>
    case PrepTime =>
    case CookTime =>
    case Servings =>
  }

  /** The copy loop over distinct paths: it fails exactly when some listed path the
      body defines fails to cast; otherwise each listed path the body defines holds
      its cast value, every other path is unchanged, and nothing outside the allowed
      paths changes. */
  lemma {:induction false} ApplyFieldsSpec(r: Recipe, body: map<string, FieldValue>, paths: seq<Path>)
    requires forall i, j :: 0 <= i < j < |paths| ==> paths[i] != paths[j]
    ensures ApplyFields(r, body, paths).None? <==>
      exists k :: 0 <= k < |paths| && PathName(paths[k]) in body && Cast(paths[k], body[PathName(paths[k])]).None?
    ensures ApplyFields(r, body, paths).Some? ==>
      var m := ApplyFields(r, body, paths).value;
      && OnlyAllowedDiffer(r, m)
      && (forall o :: Field(m, o) ==
            if o in paths && PathName(o) in body then Cast(o, body[PathName(o)]).value else Field(r, o))
  {
    if paths != [] {
      var init := paths[..|paths| - 1];
      var p := paths[|paths| - 1];
      ApplyFieldsSpec(r, body, init);
      assert forall k :: 0 <= k < |init| ==> init[k] == paths[k];
      assert paths == init + [p];
      assert p !in init;
      match ApplyFields(r, body, init)
      case None =>
        var k :| 0 <= k < |init| && PathName(init[k]) in body && Cast(init[k], body[PathName(init[k])]).None?;
        assert paths[k] == init[k];
      case Some(m) =>
        if PathName(p) in body {
          SetFieldChangesOnlyItsPath(m, p, body[PathName(p)]);
        }
    }
  }

  /** The admin update over the nine allowed fields: it copies exactly the fields the
      body defines, falsy ones included (a prepTime of 0 is stored and then refused by
      the schema, unlike the owner's update, which keeps the old value), and never
      touches images, attachments, links, author, ratings, likes or timestamps. */
  lemma AdminMergeCopiesDefinedFields(r: Recipe, body: map<string, FieldValue>, parses: string -> bool)
    ensures ApplyFields(r, body, AllowedFields).None? <==>
      exists p :: PathName(p) in body && Cast(p, body[PathName(p)]).None?
    ensures ApplyFields(r, body, AllowedFields).Some? ==>
      var m := ApplyFields(r, body, AllowedFields).value;
      && OnlyAllowedDiffer(r, m)
      && (forall p :: Field(m, p) == if PathName(p) in body then Cast(p, body[PathName(p)]).value else Field(r, p))
    ensures body == map["prepTime" := Number(0)] ==>
      && ApplyFields(r, body, AllowedFields) == Some(r.(prepTime := 0))
      && !RecipeValid(r.(prepTime := 0), parses)
  {
    AllowedFieldsDistinct();
    ApplyFieldsSpec(r, body, AllowedFields);
    if ApplyFields(r, body, AllowedFields).None? {
      var k :| 0 <= k < |AllowedFields| && PathName(AllowedFields[k]) in body
        && Cast(AllowedFields[k], body[PathName(AllowedFields[k])]).None?;
      assert PathName(AllowedFields[k]) in body;
    }
    if body == map["prepTime" := Number(0)] {
      ZeroPrepTimeStored(r, body, parses);
    }
  }

  /** The body `{ prepTime: 0 }` assigns exactly prepTime, and the schema then refuses
      the recipe. */
  lemma ZeroPrepTimeStored(r: Recipe, body: map<string, FieldValue>, parses: string -> bool)
    requires body == map["prepTime" := Number(0)]
    ensures ApplyFields(r, body, AllowedFields) == Some(r.(prepTime := 0))
    ensures !RecipeValid(r.(prepTime := 0), parses)
  {
    AllowedFieldsDistinct();
    ApplyFieldsSpec(r, body, AllowedFields);
    forall p | PathName(p) in body ensures p == PrepTime {
    }
    var m := ApplyFields(r, body, AllowedFields).value;
    assert Field(m, PrepTime) == Number(0);
    assert Field(m, Title) == Field(r, Title);
    assert Field(m, Description) == Field(r, Description);
    assert Field(m, Ingredients) == Field(r, Ingredients);
    assert Field(m, Instructions) == Field(r, Instructions);
    assert Field(m, Category) == Field(r, Category);
    assert Field(m, Difficulty) == Field(r, Difficulty);
    assert Field(m, CookTime) == Field(r, CookTime);
    assert Field(m, Servings) == Field(r, Servings);
  }

  /** The admin update never changes the document's id. */
  lemma ApplyFieldsKeepsId(r: Recipe, body: map<string, FieldValue>)
    ensures ApplyFields(r, body, AllowedFields).Some? ==> ApplyFields(r, body, AllowedFields).value.id == r.id
  {
    AllowedFieldsDistinct();
    ApplyFieldsSpec(r, body, AllowedFields);
  }

  /** The loop that copies each allowed path present in the body onto the document. */
  method MergeAllowed(recipe: Recipe, body: map<string, FieldValue>) returns (merged: Option<Recipe>)
    ensures merged == ApplyFields(recipe, body, AllowedFields)
  {
    merged := Some(recipe);
    for k := 0 to |AllowedFields|
      invariant merged == ApplyFields(recipe, body, AllowedFields[..k])
    {
      assert AllowedFields[..k + 1][..k] == AllowedFields[..k];
      var field := AllowedFields[k];
      if PathName(field) in body && merged.Some? {
        merged := SetField(merged.value, field, body[PathName(field)]);
      }
    }
    assert AllowedFields[..|AllowedFields|] == AllowedFields;
  }

  method UpdateRecipe(db: Database, caller: Option<Caller>, recipeId: Id, body: map<string, FieldValue>, now: int)
    returns (reply: Reply)
    requires db.Valid()
    modifies db`recipes
    ensures db.Valid()
    ensures Gate(caller).Some? ==> reply == Refused(Gate(caller).value) && db.recipes == old(db.recipes)
    ensures Gate(caller).None? ==> match FindRecipe(old(db.recipes), recipeId)
      case None => reply == Refused(RecipeNotFound) && db.recipes == old(db.recipes)
      case Some(i) =>
        match ApplyFields(old(db.recipes)[i], body, AllowedFields)
        case None => reply == Refused(ServerError) && db.recipes == old(db.recipes)
        case Some(m) =>
          if RecipeValid(m, db.parses) then reply == Done(200) && db.recipes == old(db.recipes)[i := m.(updatedAt := now)]
          else reply == Refused(ServerError) && db.recipes == old(db.recipes)
  {
    var denied := Gate(caller);
    if denied.Some? {
      return Refused(denied.value);
    }
    var found := FindRecipe(db.recipes, recipeId);
    if found.None? {
      return Refused(RecipeNotFound);
    }
    var i := found.value;
    var recipe := db.recipes[i];
    var merged := MergeAllowed(recipe, body);
    if merged.None? {
      return Refused(ServerError);
    }
    ApplyFieldsKeepsId(recipe, body);
    var ok := db.SaveRecipeAt(i, merged.value, now);
    reply := if ok then Done(200) else Refused(ServerError);
  }

  // ---------------------------------------------------------------------------
  // DELETE /api/admin/recipes/:id

  method DeleteRecipe(db: Database, caller: Option<Caller>, recipeId: Id) returns (reply: Reply)
    requires db.Valid()
    modifies db`recipes
    ensures db.Valid()
    ensures Gate(caller).Some? ==> reply == Refused(Gate(caller).value) && db.recipes == old(db.recipes)
    ensures Gate(caller).None? ==> match FindRecipe(old(db.recipes), recipeId)
      case None => reply == Refused(RecipeNotFound) && db.recipes == old(db.recipes)
      case Some(i) => reply == Done(200) && db.recipes == RemoveAt(old(db.recipes), i)
  {
    var denied := Gate(caller);
    if denied.Some? {
      return Refused(denied.value);
    }
    var found := FindRecipe(db.recipes, recipeId);
    if found.None? {
      return Refused(RecipeNotFound);
    }
    db.DeleteRecipeAt(found.value);
    reply := Done(200);
  }

  // ---------------------------------------------------------------------------
  // GET /api/admin/stats

  const RecentLimit: int := 5

  datatype Stats = Stats(
    totalUsers: nat,
    verifiedUsers: nat,
    unverifiedUsers: int,
    adminUsers: nat,
    totalRecipes: nat,
    recentUsers: seq<PublicUser>,
    recentRecipes: seq<Recipe>)

  predicate UserNewestFirst(a: User, b: User) {
    a.createdAt >= b.createdAt
  }

  predicate RecipeNewestFirst(a: Recipe, b: Recipe) {
    a.createdAt >= b.createdAt
  }

  /** `.sort({ createdAt: -1 }).limit(5)`. */
  function RecentUsers(users: seq<User>): (r: seq<User>)
    ensures |r| == if |users| < 5 then |users| else 5
    ensures multiset(r) <= multiset(users)
    ensures SortedBy(r, UserNewestFirst)
    ensures forall y, i :: y in multiset(users) - multiset(r) && 0 <= i < |r| ==> r[i].createdAt >= y.createdAt
  {
    var n := SliceEnd(|users|, RecentLimit);
    NewestUsers(users, n);
    SortBy(users, UserNewestFirst)[..n]
  }

  /** The first `n` users sorted newest first are drawn from the list, in order, and
      none is older than a user left out. */
  lemma NewestUsers(users: seq<User>, n: nat)
    requires n <= |users|
    ensures var r := SortBy(users, UserNewestFirst)[..n];
      && |r| == n && multiset(r) <= multiset(users) && SortedBy(r, UserNewestFirst)
      && forall y, i :: y in multiset(users) - multiset(r) && 0 <= i < |r| ==> r[i].createdAt >= y.createdAt
  {
    assert TotalPreorder(UserNewestFirst);
    SortedTop(users, UserNewestFirst, n);
    var r := SortBy(users, UserNewestFirst)[..n];
    forall y, i | y in multiset(users) - multiset(r) && 0 <= i < |r| ensures r[i].createdAt >= y.createdAt {
      assert UserNewestFirst(r[i], y);
    }
  }

  function RecentRecipes(recipes: seq<Recipe>): (r: seq<Recipe>)
    ensures |r| == if |recipes| < 5 then |recipes| else 5
    ensures multiset(r) <= multiset(recipes)
    ensures SortedBy(r, RecipeNewestFirst)
    ensures forall y, i :: y in multiset(recipes) - multiset(r) && 0 <= i < |r| ==> r[i].createdAt >= y.createdAt
  {
    var n := SliceEnd(|recipes|, RecentLimit);
    NewestRecipes(recipes, n);
    SortBy(recipes, RecipeNewestFirst)[..n]
  }

  /** The first `n` recipes sorted newest first are drawn from the list, in order, and
      none is older than a recipe left out. */
  lemma NewestRecipes(recipes: seq<Recipe>, n: nat)
    requires n <= |recipes|
    ensures var r := SortBy(recipes, RecipeNewestFirst)[..n];
      && |r| == n && multiset(r) <= multiset(recipes) && SortedBy(r, RecipeNewestFirst)
      && forall y, i :: y in multiset(recipes) - multiset(r) && 0 <= i < |r| ==> r[i].createdAt >= y.createdAt
  {
    assert TotalPreorder(RecipeNewestFirst);
    SortedTop(recipes, RecipeNewestFirst, n);
    var r := SortBy(recipes, RecipeNewestFirst)[..n];
    forall y, i | y in multiset(recipes) - multiset(r) && 0 <= i < |r| ensures r[i].createdAt >= y.createdAt {
      assert RecipeNewestFirst(r[i], y);
    }
  }

  /** `.select('-password')` on each user found. */
  function PublicUsers(users: seq<User>): (r: seq<PublicUser>)
    ensures |r| == |users| && forall k :: 0 <= k < |r| ==> r[k] == WithoutPassword(users[k])
  {
    seq(|users|, k requires 0 <= k < |users| => WithoutPassword(users[k]))
  }

  /** The four counts; unverifiedUsers is the difference of two of them. The recent
      users are sent without their passwords. */
  function GetStats(users: seq<User>, recipes: seq<Recipe>): (s: Stats)
    ensures |s.recentUsers| == |RecentUsers(users)|
    ensures forall k :: 0 <= k < |s.recentUsers| ==> s.recentUsers[k] == WithoutPassword(RecentUsers(users)[k])
  {
    var total := |users|;
    var verified := Count(users, (u: User) => u.isVerified);
    Stats(total, verified, total - verified, Count(users, (u: User) => u.role == AdminRole), |recipes|,
          PublicUsers(RecentUsers(users)), RecentRecipes(recipes))
  }

  predicate PublicNewestFirst(a: PublicUser, b: PublicUser) {
    a.createdAt >= b.createdAt
  }

  /** The stats reply reveals nothing of the passwords: two user lists that agree on
      everything but passwords give the same reply. */
  lemma StatsIgnorePasswords(users1: seq<User>, users2: seq<User>, recipes: seq<Recipe>)
    requires SameUnder(users1, users2, WithoutPassword)
    ensures GetStats(users1, recipes) == GetStats(users2, recipes)
  {
    CountsIgnorePasswords(users1, users2);
    RecentUsersIgnorePasswords(users1, users2);
  }

  /** The verified and admin counts see no password. */
  lemma CountsIgnorePasswords(users1: seq<User>, users2: seq<User>)
    requires SameUnder(users1, users2, WithoutPassword)
    ensures Count(users1, (u: User) => u.isVerified) == Count(users2, (u: User) => u.isVerified)
    ensures Count(users1, (u: User) => u.role == AdminRole) == Count(users2, (u: User) => u.role == AdminRole)
  {
    forall k | 0 <= k < |users1|
      ensures users1[k].isVerified == users2[k].isVerified && users1[k].role == users2[k].role
    {
      assert WithoutPassword(users1[k]) == WithoutPassword(users2[k]);
    }
    CountPointwise(users1, users2, (u: User) => u.isVerified, (u: User) => u.isVerified);
    CountPointwise(users1, users2, (u: User) => u.role == AdminRole, (u: User) => u.role == AdminRole);
  }

  /** The recent users, once their passwords are dropped, see no password either. */
  lemma RecentUsersIgnorePasswords(users1: seq<User>, users2: seq<User>)
    requires SameUnder(users1, users2, WithoutPassword)
    ensures PublicUsers(RecentUsers(users1)) == PublicUsers(RecentUsers(users2))
  {
    assert forall a, b :: UserNewestFirst(a, b) == PublicNewestFirst(WithoutPassword(a), WithoutPassword(b));
    SortBySameUnder(users1, users2, UserNewestFirst, WithoutPassword, PublicNewestFirst);
    var r1, r2 := RecentUsers(users1), RecentUsers(users2);
    var p1, p2 := PublicUsers(r1), PublicUsers(r2);
    assert |p1| == |p2|;
    forall k | 0 <= k < |p1| ensures p1[k] == p2[k] {
      assert r1[k] == SortBy(users1, UserNewestFirst)[k] && r2[k] == SortBy(users2, UserNewestFirst)[k];
    }
  }

  /** Changing one user's password leaves the stats reply as it was. */
  lemma StatsIgnoreOnePassword(users: seq<User>, recipes: seq<Recipe>, i: nat, password: string)
    requires i < |users|
    ensures GetStats(users[i := users[i].(password := password)], recipes) == GetStats(users, recipes)
  {
    var changed := users[i := users[i].(password := password)];
    assert SameUnder(changed, users, WithoutPassword);
    StatsIgnorePasswords(changed, users, recipes);
  }

  /** The subtraction counts exactly the unverified users, so it is never negative, and
      verified plus unverified is the total. */
  lemma StatsUnverifiedCount(users: seq<User>, recipes: seq<Recipe>)
    ensures var s := GetStats(users, recipes);
      && s.unverifiedUsers == Count(users, (u: User) => !u.isVerified)
      && s.unverifiedUsers >= 0
      && s.verifiedUsers + s.unverifiedUsers == s.totalUsers
      && s.adminUsers <= s.totalUsers
  {
    CountComplement(users, (u: User) => u.isVerified, (u: User) => !u.isVerified);
  }
}
