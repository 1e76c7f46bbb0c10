/** The MongoDB collections the routes read and write, the ObjectId generator,
    and the mails handed to utils/emailService.js (which is not part of this
    model: a sent mail is an entry appended to an outbox). Documents are values
    held in sequences; `save()` on a document is a method that validates it,
    runs the pre-save hook and writes it back at its position. */
module Store {
  import opened Common
  import opened UserModel
  import opened RecipeModel
  import opened CommentModel

  datatype Mail =
    | VerificationMail(to: string, username: string, token: string)
    | WelcomeMail(to: string, username: string)

  /** `Recipe.findById(id)`. */
  function FindRecipe(recipes: seq<Recipe>, id: Id): Option<nat> {
    FindFirst(recipes, (r: Recipe) => r.id == id)
  }

  /** `Comment.findById(id)`. */
  function FindComment(comments: seq<Comment>, id: Id): Option<nat> {
    FindFirst(comments, (c: Comment) => c.id == id)
  }

  class Database {
    var users: seq<User>
    var recipes: seq<Recipe>
    var comments: seq<Comment>
    /** The next unused ObjectId. */
    var nextId: nat
    var outbox: seq<Mail>
    /** The WHATWG URL parser behind the referenceUrls validator (a foreign library). */
    const parses: string -> bool

    /** Ids are unique and already issued, users satisfy the unique indexes, and every
        stored recipe and comment passed its schema validators when it was saved. */
    ghost predicate Valid()
      reads this
    {
      && UniqueUsers(users)
      && (forall i :: 0 <= i < |users| ==> users[i].id < nextId)
      && (forall i, j :: 0 <= i < j < |recipes| ==> recipes[i].id != recipes[j].id)
      && (forall i :: 0 <= i < |recipes| ==> recipes[i].id < nextId && RecipeValid(recipes[i], parses))
      && (forall i, j :: 0 <= i < j < |comments| ==> comments[i].id != comments[j].id)
      && (forall i :: 0 <= i < |comments| ==> comments[i].id < nextId && CommentValid(comments[i]))
    }

    constructor (parses: string -> bool)
      ensures Valid()
      ensures users == [] && recipes == [] && comments == [] && outbox == []
      ensures this.parses == parses
    {
      users, recipes, comments, nextId, outbox := [], [], [], 0, [];
      this.parses := parses;
    }

    /** Issues a fresh ObjectId, distinct from every stored document's id. */
    method NewId() returns (id: Id)
      requires Valid()
      modifies this`nextId
      ensures Valid()
      ensures id == old(nextId) && nextId == id + 1
      ensures forall i :: 0 <= i < |users| ==> users[i].id != id
      ensures forall i :: 0 <= i < |recipes| ==> recipes[i].id != id
      ensures forall i :: 0 <= i < |comments| ==> comments[i].id != id
    {
      id := nextId;
      nextId := nextId + 1;
    }

    /** `recipe.save()` on the document stored at position `i`: the validators run,
        then the pre-save hook stamps updatedAt, then the document is written back.
        A failed validation stores nothing. */
    method SaveRecipeAt(i: nat, doc: Recipe, now: int) returns (ok: bool)
      requires Valid()
      requires i < |recipes| && doc.id == recipes[i].id
      modifies this`recipes
      ensures Valid()
      ensures ok <==> Save(doc, parses, now).Some?
      ensures recipes == if ok then old(recipes)[i := Save(doc, parses, now).value] else old(recipes)
    {
      ok := RecipeValid(doc, parses);
      if ok {
        var stamped := doc.(updatedAt := now);
        recipes := recipes[i := stamped];
      }
    }

    /** `new Recipe({...}).save()` for a document whose id was issued by NewId. */
    method InsertRecipe(doc: Recipe, now: int) returns (ok: bool)
      requires Valid()
      requires doc.id < nextId
      requires forall i :: 0 <= i < |recipes| ==> recipes[i].id != doc.id
      modifies this`recipes
      ensures Valid()
      ensures ok <==> Save(doc, parses, now).Some?
      ensures recipes == if ok then old(recipes) + [Save(doc, parses, now).value] else old(recipes)
    {
      ok := RecipeValid(doc, parses);
      if ok {
        var stamped := doc.(updatedAt := now);
        recipes := recipes + [stamped];
      }
    }

    /** `Recipe.findByIdAndDelete(id)` for the document at position `i`. */
    method DeleteRecipeAt(i: nat)
      requires Valid() && i < |recipes|
      modifies this`recipes
      ensures Valid()
      ensures recipes == RemoveAt(old(recipes), i)
    {
      recipes := recipes[..i] + recipes[i + 1..];
    }

    /** `comment.save()` on the document stored at position `i`. */
    method SaveCommentAt(i: nat, doc: Comment, now: int) returns (ok: bool)
      requires Valid()
      requires i < |comments| && doc.id == comments[i].id
      modifies this`comments
      ensures Valid()
      ensures ok <==> SaveComment(doc, now).Some?
      ensures comments == if ok then old(comments)[i := SaveComment(doc, now).value] else old(comments)
    {
      ok := CommentValid(doc);
      if ok {
        var stamped := doc.(updatedAt := now);
        comments := comments[i := stamped];
      }
    }

    /** `Comment.create(...)` for a document whose id was issued by NewId. */
    method InsertComment(doc: Comment, now: int) returns (ok: bool)
      requires Valid()
      requires doc.id < nextId
      requires forall i :: 0 <= i < |comments| ==> comments[i].id != doc.id
      modifies this`comments
      ensures Valid()
      ensures ok <==> SaveComment(doc, now).Some?
      ensures comments == if ok then old(comments) + [SaveComment(doc, now).value] else old(comments)
    {
      ok := CommentValid(doc);
      if ok {
        var stamped := doc.(updatedAt := now);
        comments := comments + [stamped];
      }
    }

    /** `comment.deleteOne()` for the document at position `i`. */
    method DeleteCommentAt(i: nat)
      requires Valid() && i < |comments|
      modifies this`comments
      ensures Valid()
      ensures comments == RemoveAt(old(comments), i)
    {
      comments := comments[..i] + comments[i + 1..];
    }

    /** `User.create(...)` for a user whose id was issued by NewId and whose email and
        username no stored user holds. */
    method AddUser(u: User)
      requires Valid()
      requires u.id < nextId
      requires forall k :: 0 <= k < |users| ==>
        users[k].id != u.id && users[k].email != u.email && users[k].username != u.username
      modifies this`users
      ensures Valid()
      ensures users == old(users) + [u]
    {
      AppendKeepsUnique(users, u);
      users := users + [u];
    }

    /** `user.save()` on the user stored at position `i`, when no other user holds the
        new email or username. */
    method ReplaceUserAt(i: nat, u: User)
      requires Valid()
      requires i < |users| && u.id == users[i].id
      requires forall k :: 0 <= k < |users| && k != i ==>
        users[k].email != u.email && users[k].username != u.username
      modifies this`users
      ensures Valid()
      ensures users == old(users)[i := u]
    {
      ReplaceDistinctKeepsUnique(users, i, u);
      users := users[i := u];
    }

    /** `User.findByIdAndDelete(id)` for the user at position `i`. */
    method DeleteUserAt(i: nat)
      requires Valid() && i < |users|
      modifies this`users
      ensures Valid()
      ensures users == RemoveAt(old(users), i)
    {
      RemoveKeepsUnique(users, i);
      users := RemoveAt(users, i);
    }

    /** `Recipe.deleteMany(filter)`: the recipes the filter does not select remain. */
    method KeepRecipes(kept: seq<Recipe>)
      requires Valid()
      requires forall k :: 0 <= k < |kept| ==> kept[k] in recipes
      requires forall i, j :: 0 <= i < j < |kept| ==> kept[i].id != kept[j].id
      modifies this`recipes
      ensures Valid()
      ensures recipes == kept
    {
      recipes := kept;
    }

    /** Queues a mail for utils/emailService.js. */
    method Send(m: Mail)
      modifies this`outbox
      ensures outbox == old(outbox) + [m]
    {
      outbox := outbox + [m];
    }
  }
}
