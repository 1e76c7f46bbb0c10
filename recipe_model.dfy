/** The Recipe schema (models/Recipe.js): the document shape, the validators
    that `save()` runs, the averageRating / ratingsCount / likesCount virtuals,
    and the pre-save hook that stamps updatedAt. */
module RecipeModel {
  import opened Common

  const Categories: seq<string> :=
    ["Breakfast", "Lunch", "Dinner", "Dessert", "Snack", "Beverage", "Appetizer", "Other"]
  const Difficulties: seq<string> := ["Easy", "Medium", "Hard"]
  const DefaultDifficulty: string := "Medium"
  const MinTitleLength: nat := 3
  const MinDescriptionLength: nat := 10

  datatype Attachment = Attachment(filename: string, path: string)

  datatype Rating = Rating(user: Id, rating: int, createdAt: int)

  datatype Recipe = Recipe(
    id: Id,
    title: string,
    description: string,
    ingredients: seq<string>,
    instructions: seq<string>,
    category: string,
    prepTime: int,
    cookTime: int,
    servings: int,
    difficulty: string,
    images: seq<string>,
    attachments: seq<Attachment>,
    referenceUrls: seq<string>,
    author: Id,
    ratings: seq<Rating>,
    likes: seq<Id>,
    createdAt: int,
    updatedAt: int)

  /** A rating entry: `rating` is required, with min 1 and max 5 (the user reference
      is always present in this model). */
  predicate RatingValid(r: Rating) {
    1 <= r.rating <= 5
  }

  /** Every element of a string array with `required: true` is a non-empty string. */
  predicate NoEmptyEntry(items: seq<string>) {
    forall k :: 0 <= k < |items| ==> items[k] != ""
  }

  /** The referenceUrls element validator: blank entries always pass; any other entry
      passes when the WHATWG URL parser accepts it as written or with an `https://`
      prefix. The parser is a foreign library and comes in as `parses`. */
  predicate ReferenceUrlAccepted(v: string, parses: string -> bool) {
    IsBlank(v) || parses(v) || parses("https://" + v)
  }

  /** The validator runs on every entry of the referenceUrls array. */
  predicate UrlsAccepted(urls: seq<string>, parses: string -> bool) {
    forall k :: 0 <= k < |urls| ==> ReferenceUrlAccepted(urls[k], parses)
  }

  /** The schema validators that `save()` runs. The title is trimmed when it is set
      (`trim: true`), so its minimum length is counted on the trimmed value; Mongoose
      counts lengths in UTF-16 code units. */
  predicate RecipeValid(r: Recipe, parses: string -> bool) {
    && Utf16Length(r.title) >= MinTitleLength
    && Utf16Length(r.description) >= MinDescriptionLength
    && NoEmptyEntry(r.ingredients)
    && NoEmptyEntry(r.instructions)
    && r.category in Categories
    && r.prepTime >= 1
    && r.cookTime >= 1
    && r.servings >= 1
    && r.difficulty in Difficulties
    && UrlsAccepted(r.referenceUrls, parses)
    && (forall k :: 0 <= k < |r.ratings| ==> RatingValid(r.ratings[k]))
  }

  /** A blank entry is accepted whatever the URL parser says. */
  lemma BlankReferenceUrlAccepted(v: string, parses: string -> bool)
    requires AllSpace(v)
    ensures ReferenceUrlAccepted(v, parses)
  {
  }

  // ---------------------------------------------------------------------------
  // Virtuals

  function RatingSum(ratings: seq<Rating>): int {
    if ratings == [] then 0 else ratings[0].rating + RatingSum(ratings[1..])
  }

  /** Valid ratings sum to between 1 and 5 per entry. */
  lemma {:induction false} RatingSumBounds(ratings: seq<Rating>)
    requires forall k :: 0 <= k < |ratings| ==> RatingValid(ratings[k])
    ensures |ratings| <= RatingSum(ratings) <= 5 * |ratings|
  {
    if ratings != [] {
      RatingSumBounds(ratings[1..]);
    }
  }

  /** The averageRating virtual in tenths: 0 with no ratings, otherwise the mean
      rounded half up to one decimal place (`(sum / length).toFixed(1)`). */
  function AverageTenths(ratings: seq<Rating>): (t: int)
    ensures ratings == [] ==> t == 0
    ensures ratings != [] ==>
      2 * |ratings| * t <= 20 * RatingSum(ratings) + |ratings| < 2 * |ratings| * t + 2 * |ratings|
  {
    if ratings == [] then 0
    else
      var n := 2 * |ratings|;
      var q := (20 * RatingSum(ratings) + |ratings|) / n;
      assert n * q <= 20 * RatingSum(ratings) + |ratings| < n * q + n;
      q
  }

  /** With valid ratings a rated recipe averages between 1.0 and 5.0. */
  lemma AverageTenthsBounds(ratings: seq<Rating>)
    requires ratings != []
    requires forall k :: 0 <= k < |ratings| ==> RatingValid(ratings[k])
    ensures 10 <= AverageTenths(ratings) <= 50
  {
    RatingSumBounds(ratings);
    var n := |ratings|;
    var s := RatingSum(ratings);
    var t := AverageTenths(ratings);
    if t < 10 {
      // 2n(t + 1) <= 20n <= 20s < 20s + n
      MulMono(2 * n, t + 1, 10);
      assert false;
    }
    if t > 50 {
      // 2nt >= 102n > 101n >= 20s + n
      MulMono(2 * n, 51, t);
      assert false;
    }
  }

  /** A recipe is "rated" for the featured ordering when its average is non-zero,
      which for valid ratings is exactly when it has ratings. */
  lemma RatedIffHasRatings(r: Recipe)
    requires forall k :: 0 <= k < |r.ratings| ==> RatingValid(r.ratings[k])
    ensures AverageTenths(r.ratings) > 0 <==> r.ratings != []
  {
    if r.ratings != [] {
      AverageTenthsBounds(r.ratings);
    }
  }

  function RatingsCount(r: Recipe): nat {
    |r.ratings|
  }

  function LikesCount(r: Recipe): nat {
    |r.likes|
  }

  // ---------------------------------------------------------------------------
  // save()

  /** `save()`: the validators run before any pre-save hook; when they pass, the
      pre-save hook sets updatedAt to the current time and the document is written. */
  function Save(r: Recipe, parses: string -> bool, now: int): Option<Recipe> {
    if RecipeValid(r, parses) then Some(r.(updatedAt := now)) else None
  }

  /** A successful save changes updatedAt and nothing else, createdAt included. */
  lemma SaveTouchesOnlyUpdatedAt(r: Recipe, parses: string -> bool, now: int)
    ensures Save(r, parses, now).Some? <==> RecipeValid(r, parses)
    ensures Save(r, parses, now).Some? ==>
      && Save(r, parses, now).value.updatedAt == now
      && Save(r, parses, now).value.createdAt == r.createdAt
      && Save(r, parses, now).value.(updatedAt := r.updatedAt) == r
  {
  }
}
