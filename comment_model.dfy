/** The Comment schema (models/Comment.js): required recipe and user references
    (always present in this model), text trimmed on set with length 1..1000,
    createdAt/updatedAt defaulting to the creation time, and a pre-save hook
    that refreshes updatedAt. */
module CommentModel {
  import opened Common

  const MaxCommentLength: nat := 1000

  datatype Comment = Comment(
    id: Id,
    recipe: Id,
    user: Id,
    text: string,
    createdAt: int,
    updatedAt: int)

  /** The text validators: `minlength: 1` and `maxlength: 1000`, counted in UTF-16
      code units. */
  predicate CommentValid(c: Comment) {
    1 <= Utf16Length(c.text) <= MaxCommentLength
  }

  /** `save()`: validators first, then the pre-save hook sets updatedAt. */
  function SaveComment(c: Comment, now: int): Option<Comment> {
    if CommentValid(c) then Some(c.(updatedAt := now)) else None
  }

  /** `Comment.create(...)`: the text setter trims, and both timestamps default to now.
      The stored text survives the setter again unchanged, and the save that
      `create` runs at the same instant stores the document as built, or nothing. */
  function NewComment(id: Id, recipe: Id, user: Id, text: string, now: int): (c: Comment)
    ensures Trim(c.text) == c.text && |c.text| <= |text|
    ensures c.text == "" <==> AllSpace(text)
    ensures SaveComment(c, now) == if CommentValid(c) then Some(c) else None
  {
    TrimIdempotent(text);
    Comment(id, recipe, user, Trim(text), now, now)
  }

  /** A successful save refreshes updatedAt and leaves everything else as it was. */
  lemma SaveCommentTouchesOnlyUpdatedAt(c: Comment, now: int)
    ensures SaveComment(c, now).Some? <==> CommentValid(c)
    ensures SaveComment(c, now).Some? ==>
      SaveComment(c, now).value == c.(updatedAt := now) && SaveComment(c, now).value.createdAt == c.createdAt
  {
  }
}
