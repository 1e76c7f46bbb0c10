/** The comment routes of routes/comments.js: create with its request validation,
    the owner-only edit, the owner-or-admin delete, and the per-recipe listing.
    The authenticated caller that `protect` resolves comes in as a parameter; a
    recipe id that the body leaves out or sends empty is None. */
module CommentRoutes {
  import opened Common
  import opened CommentModel
  import opened Store

  datatype CommentError =
    | Invalid(fields: seq<string>)
    | RecipeNotFound
    | CommentNotFound
    | Forbidden
    | ServerError

  datatype Reply = Success(status: int) | Failure(error: CommentError)

  function ErrorStatus(e: CommentError): int {
    match e
    case Invalid(_) => 400
    case Forbidden => 403
    case ServerError => 500
    case _ => 404
  }

  /** `body('text').trim().isLength({ min: 1, max: 1000 })`, counted as validator.js
      counts. */
  predicate TextAccepted(text: string) {
    1 <= ValidatorLength(Trim(text)) <= MaxCommentLength
  }

  /** The create validators that fail, in declaration order. */
  function CreateErrors(recipeId: Option<Id>, text: string): seq<string> {
    (if recipeId.Some? then [] else ["recipeId"]) + (if TextAccepted(text) then [] else ["text"])
  }

  /** The stored text of a comment created or edited with `text`: the sanitiser has
      trimmed it and the schema's setter trims it again. */
  function StoredText(text: string): (t: string)
    ensures t == Trim(text)
  {
    TrimIdempotent(text);
    Trim(Trim(text))
  }

  /** A text the validator accepts is stored as its trim, and the schema accepts it
      exactly when that trim takes at most 1000 UTF-16 code units: the validator
      counts an astral code point once, the schema twice. */
  lemma AcceptedTextIsValid(c: Comment, text: string)
    requires TextAccepted(text)
    ensures CommentValid(c.(text := StoredText(text))) <==> Utf16Length(Trim(text)) <= MaxCommentLength
  {
  }

  /** Without astral code points and presentation selectors, the two counts agree and
      an accepted text always saves. */
  lemma AcceptedBasicTextIsValid(c: Comment, text: string)
    requires TextAccepted(text)
    requires forall k :: 0 <= k < |Trim(text)| ==> !IsAstral(Trim(text)[k]) && !IsPresentationSelector(Trim(text)[k])
    ensures CommentValid(c.(text := StoredText(text)))
  {
    Utf16LengthOfBasic(Trim(text));
    ValidatorLengthWithoutSelectors(Trim(text));
  }

  /** 600 emoji pass the validator (600 code points) but not the schema (1200 UTF-16
      code units): the save fails and the route answers 500. A text padded with
      presentation selectors, which the validator does not count, fails the same way. */
  lemma AstralTextAcceptedButInvalid(c: Comment)
    ensures var text := seq(600, _ => '\U{1F600}');
      TextAccepted(text) && !CommentValid(c.(text := StoredText(text)))
  {
    var text := seq(600, _ => '\U{1F600}');
    TrimKeepsUnpadded(text);
    ValidatorLengthWithoutSelectors(text);
    Utf16LengthOfAstral(text);
  }

  /** A text the validator refuses: once trimmed it is nothing but presentation
      selectors (the empty text included), or more than 1000 code points that are
      not. */
  lemma RejectedTextIsBlankOrLong(text: string)
    requires !TextAccepted(text)
    ensures (forall k :: 0 <= k < |Trim(text)| ==> IsPresentationSelector(Trim(text)[k]))
      || ValidatorLength(Trim(text)) > MaxCommentLength
  {
    ValidatorLengthZero(Trim(text));
  }

  /** A lone emoji presentation selector is not blank, yet the validator refuses it. */
  lemma SelectorOnlyTextRefused()
    ensures !AllSpace("\U{FE0F}") && !TextAccepted("\U{FE0F}")
  {
    TrimKeepsUnpadded("\U{FE0F}");
    assert ValidatorLength("\U{FE0F}") == 0 by {
      assert "\U{FE0F}"[1..] == [];
    }
  }

  method Create(db: Database, caller: Caller, recipeId: Option<Id>, text: string, now: int) returns (reply: Reply)
    requires db.Valid()
    modifies db`comments, db`nextId
    ensures db.Valid()
    ensures CreateErrors(recipeId, text) != [] ==>
      reply == Failure(Invalid(CreateErrors(recipeId, text))) && db.comments == old(db.comments)
    ensures CreateErrors(recipeId, text) == [] && FindRecipe(db.recipes, recipeId.value).None? ==>
      reply == Failure(RecipeNotFound) && db.comments == old(db.comments)
    ensures CreateErrors(recipeId, text) == [] && FindRecipe(db.recipes, recipeId.value).Some? ==>
      var c := NewComment(old(db.nextId), recipeId.value, caller.id, Trim(text), now);
      if CommentValid(c) then reply == Success(201) && db.comments == old(db.comments) + [c]
      else reply == Failure(ServerError) && db.comments == old(db.comments)
  {
    var errors := CreateErrors(recipeId, text);
    if errors != [] {
      return Failure(Invalid(errors));
    }
    if FindRecipe(db.recipes, recipeId.value).None? {
      return Failure(RecipeNotFound);
    }
    var id := db.NewId();
    var comment := NewComment(id, recipeId.value, caller.id, Trim(text), now);
    assert SaveComment(comment, now) == if CommentValid(comment) then Some(comment) else None;
    var ok := db.InsertComment(comment, now);
    reply := if ok then Success(201) else Failure(ServerError);
  }

  /** Only the author of a comment may edit it; an admin may not edit another's. */
  predicate MayEdit(c: Comment, caller: Caller) {
    c.user == caller.id
  }

  /** The author or an admin may delete a comment. */
  predicate MayDelete(c: Comment, caller: Caller) {
    OwnerOrAdmin(c.user, caller)
  }

  /** Whoever may edit a comment may delete it, and an admin may delete, but not edit,
      a comment of someone else. */
  lemma EditRightsWithinDeleteRights(c: Comment, caller: Caller)
    ensures MayEdit(c, caller) ==> MayDelete(c, caller)
    ensures caller.role == AdminRole && c.user != caller.id ==> MayDelete(c, caller) && !MayEdit(c, caller)
    ensures caller.role != AdminRole ==> (MayDelete(c, caller) <==> MayEdit(c, caller))
  {
  }

  method Update(db: Database, caller: Caller, commentId: Id, text: string, now: int) returns (reply: Reply)
    requires db.Valid()
    modifies db`comments
    ensures db.Valid()
    ensures !TextAccepted(text) ==> reply == Failure(Invalid(["text"])) && db.comments == old(db.comments)
    ensures TextAccepted(text) ==> match FindComment(old(db.comments), commentId)
      case None => reply == Failure(CommentNotFound) && db.comments == old(db.comments)
      case Some(i) =>
        var c := old(db.comments)[i];
        if !MayEdit(c, caller) then reply == Failure(Forbidden) && db.comments == old(db.comments)
        else
          var e := c.(text := StoredText(text));
          if CommentValid(e) then reply == Success(200) && db.comments == old(db.comments)[i := e.(updatedAt := now)]
          else reply == Failure(ServerError) && db.comments == old(db.comments)
  {
    if !TextAccepted(text) {
      return Failure(Invalid(["text"]));
    }
    var found := FindComment(db.comments, commentId);
    if found.None? {
      return Failure(CommentNotFound);
    }
    var i := found.value;
    var comment := db.comments[i];
    if comment.user != caller.id {
      return Failure(Forbidden);
    }
    comment := comment.(text := Trim(Trim(text)));
    var ok := db.SaveCommentAt(i, comment, now);
    reply := if ok then Success(200) else Failure(ServerError);
  }

  /** An accepted edit saves exactly when the trimmed text fits the schema, and then
      changes the text and updatedAt and nothing else: the recipe, the author and
      createdAt stay. */
  lemma EditChangesOnlyText(c: Comment, text: string, now: int)
    requires TextAccepted(text)
    ensures SaveComment(c.(text := StoredText(text)), now).Some? <==> Utf16Length(Trim(text)) <= MaxCommentLength
    ensures SaveComment(c.(text := StoredText(text)), now).Some? ==>
      var e := SaveComment(c.(text := StoredText(text)), now).value;
      && e.id == c.id && e.recipe == c.recipe && e.user == c.user && e.createdAt == c.createdAt
      && e.text == Trim(text) && e.updatedAt == now
  {
  }

  method Delete(db: Database, caller: Caller, commentId: Id) returns (reply: Reply)
    requires db.Valid()
    modifies db`comments
    ensures db.Valid()
    ensures match FindComment(old(db.comments), commentId)
      case None => reply == Failure(CommentNotFound) && db.comments == old(db.comments)
      case Some(i) =>
        if MayDelete(old(db.comments)[i], caller)
        then reply == Success(200) && db.comments == RemoveAt(old(db.comments), i)
        else reply == Failure(Forbidden) && db.comments == old(db.comments)
  {
    var found := FindComment(db.comments, commentId);
    if found.None? {
      return Failure(CommentNotFound);
    }
    var i := found.value;
    var comment := db.comments[i];
    if comment.user != caller.id && caller.role != AdminRole {
      return Failure(Forbidden);
    }
    db.DeleteCommentAt(i);
    reply := Success(200);
  }

  predicate NewestFirst(a: Comment, b: Comment) {
    a.createdAt >= b.createdAt
  }

  /** `Comment.find({ recipe }).sort({ createdAt: -1 })`: exactly the recipe's comments,
      each once, newest first. */
  function CommentsFor(comments: seq<Comment>, recipeId: Id): (r: seq<Comment>)
    ensures forall k :: 0 <= k < |r| ==> r[k].recipe == recipeId && r[k] in comments
    ensures forall k :: 0 <= k < |comments| && comments[k].recipe == recipeId ==> comments[k] in r
    ensures |r| == Count(comments, (c: Comment) => c.recipe == recipeId)
    ensures SortedBy(r, NewestFirst)
  {
    var p := (c: Comment) => c.recipe == recipeId;
    var own := Filter(comments, p);
    FilterLength(comments, p);
    assert TotalPreorder(NewestFirst);
    SortBySorted(own, NewestFirst);
    var r := SortBy(own, NewestFirst);
    assert |r| == |multiset(r)| == |own|;
    forall k | 0 <= k < |r| ensures r[k].recipe == recipeId && r[k] in comments {
      assert r[k] in multiset(own);
      assert r[k] in multiset(comments);
    }
    forall k | 0 <= k < |comments| && comments[k].recipe == recipeId ensures comments[k] in r {
      assert comments[k] in multiset(r);
    }
    r
  }
}
