/** The recipe routes of routes/recipes.js: the featured ordering, the listing
    with its filters and page arithmetic, create with its request validation,
    the owner-or-admin update merge and delete, the rating upsert, like and
    unlike.

    Handlers that change a stored recipe are methods on the database that edit
    the document field by field and save it; what they compute is stated through
    the pure functions below, about which the lemmas speak. Multipart bodies
    carry every scalar as a string: numbers are cast the way Mongoose casts a
    string to Number, and JSON array fields arrive already parsed (None when the
    field is absent). */
module RecipeRoutes {
  import opened Common
  import opened RecipeModel
  import opened Store

  datatype RecipeError =
    | NotFound
    | Forbidden
    | BadRating
    | AlreadyLiked
    | NotLiked
    | Invalid(fields: seq<string>)
    | ServerError

  datatype Reply = Success(status: int) | Failure(error: RecipeError)

  function ErrorStatus(e: RecipeError): int {
    match e
    case NotFound => 404
    case Forbidden => 403
    case ServerError => 500
    case _ => 400
  }

  // ---------------------------------------------------------------------------
  // Numbers in multipart bodies

  predicate IsDigit(c: char) {
    '0' <= c <= '9'
  }

  predicate AllDigits(s: string) {
    forall k :: 0 <= k < |s| ==> IsDigit(s[k])
  }

  function DigitsValue(s: string): nat
    requires AllDigits(s)
  {
    if s == [] then 0 else 10 * DigitsValue(s[..|s| - 1]) + (s[|s| - 1] as int - '0' as int)
  }

  /** An optional sign followed by one or more decimal digits, the shape
      express-validator's `isInt()` accepts with its default options. */
  function ParseInteger(s: string): Option<int> {
    if |s| > 0 && (s[0] == '-' || s[0] == '+') then
      var digits := s[1..];
      if digits != [] && AllDigits(digits) then
        var v: int := DigitsValue(digits);
        Some(if s[0] == '-' then -v else v)
      else None
    else if s != [] && AllDigits(s) then Some(DigitsValue(s))
    else None
  }

  /** `isInt({ min: 1 })`. */
  predicate IsIntAtLeastOne(s: string) {
    ParseInteger(s).Some? && ParseInteger(s).value >= 1
  }

  /** Mongoose's cast of a string to Number: the empty string casts to null (which
      fails `required`, modelled as None), otherwise `Number(s)`, which ignores
      surrounding white space and reads a blank string as 0. Only integer literals
      are modelled; any other string is a CastError (None). */
  function CastNumber(s: string): Option<int> {
    if s == "" then None
    else
      var t := Trim(s);
      if t == "" then Some(0) else ParseInteger(t)
  }

  /** A value that passed `isInt({ min: 1 })` casts to the same integer, so the
      schema's `min: 1` holds for it. */
  lemma CastAgreesWithIsInt(s: string)
    requires IsIntAtLeastOne(s)
    ensures CastNumber(s) == ParseInteger(s)
    ensures CastNumber(s).Some? && CastNumber(s).value >= 1
  {
    assert !IsSpace(s[0]) && !IsSpace(s[|s| - 1]);
    TrimKeepsUnpadded(s);
  }

  lemma DigitCharValue(d: nat)
    requires d < 10
    ensures DigitChar(d) as int - '0' as int == d
  {
  }

  /** The digits of a natural number read back as that number. */
  lemma {:induction false} NaturalStringValue(n: nat)
    ensures AllDigits(NaturalString(n)) && DigitsValue(NaturalString(n)) == n
    decreases n
  {
    var s := NaturalString(n);
    DigitCharValue(n % 10);
    if n < 10 {
      assert s[..0] == [];
    } else {
      NaturalStringValue(n / 10);
      assert s[..|s| - 1] == NaturalString(n / 10);
    }
  }

  lemma DigitNotSpace(c: char)
    requires '0' <= c <= '9' || c == '-'
    ensures !IsSpace(c)
  {
  }

  /** A number written with `String(n)` (as a form field or a query parameter is)
      parses back to that number. */
  lemma DecimalParses(n: int)
    ensures ParseInteger(DecimalString(n)) == Some(n)
  {
    if n < 0 {
      NaturalParses(-n);
      assert DecimalString(n) == "-" + NaturalString(-n);
    } else {
      NaturalParses(n);
    }
  }

  /** The digits of a natural number parse back to it, with or without a minus sign. */
  lemma NaturalParses(m: nat)
    ensures ParseInteger(NaturalString(m)) == Some(m)
    ensures ParseInteger("-" + NaturalString(m)) == Some(-(m as int))
  {
    var digits := NaturalString(m);
    NaturalStringValue(m);
    ParseNegative(digits);
    ParseUnsigned(digits);
  }

  /** A minus sign before digits parses to the negated value of the digits. */
  lemma ParseNegative(digits: string)
    requires digits != [] && AllDigits(digits)
    ensures ParseInteger("-" + digits) == Some(-(DigitsValue(digits) as int))
  {
    var s := "-" + digits;
    assert s[0] == '-' && s[1..] == digits;
  }

  /** Digits without a sign parse to their value. */
  lemma ParseUnsigned(digits: string)
    requires digits != [] && AllDigits(digits)
    ensures ParseInteger(digits) == Some(DigitsValue(digits))
  {
    assert IsDigit(digits[0]);
  }

  /** The Number cast reads `String(n)` back as `n` too. */
  lemma DecimalCasts(n: int)
    ensures DecimalString(n) != ""
    ensures CastNumber(DecimalString(n)) == Some(n)
  {
    var s := DecimalString(n);
    DecimalParses(n);
    if n < 0 {
      assert s[|s| - 1] == NaturalString(-n)[|NaturalString(-n)| - 1];
    }
    DigitNotSpace(s[0]);
    DigitNotSpace(s[|s| - 1]);
    TrimKeepsUnpadded(s);
  }

  // ---------------------------------------------------------------------------
  // GET /api/recipes/featured

  const DefaultFeaturedLimit: int := 6

  /** `averageRating > 0`: the recipe has a non-zero average. */
  predicate Rated(r: Recipe) {
    AverageTenths(r.ratings) > 0
  }

  /** The featured comparator returns a value <= 0 for (a, b): both rated and a's
      average is at least b's (no createdAt fallback), or only a is rated, or
      neither is rated and a is at least as new as b. */
  predicate FeaturedLe(a: Recipe, b: Recipe) {
    if Rated(a) && Rated(b) then AverageTenths(a.ratings) >= AverageTenths(b.ratings)
    else if Rated(a) then true
    else if Rated(b) then false
    else a.createdAt >= b.createdAt
  }

  /** The comparator is consistent, so a stable sort by it is well defined. */
  lemma FeaturedLeIsTotalPreorder()
    ensures TotalPreorder(FeaturedLe)
  {
    forall a: Recipe, b: Recipe, c: Recipe | FeaturedLe(a, b) && FeaturedLe(b, c)
      ensures FeaturedLe(a, c)
    {
    }
  }

  /** `recipes.sort(comparator).slice(0, limit * 1)`. */
  function Featured(recipes: seq<Recipe>, limit: int): seq<Recipe> {
    var sorted := SortBy(recipes, FeaturedLe);
    assert |sorted| == |multiset(sorted)| == |recipes|;
    sorted[..SliceEnd(|sorted|, limit)]
  }

  /** The featured list is drawn from the recipes, has at most `limit` entries (all of
      them when there are fewer), puts every rated recipe before every unrated one,
      orders rated recipes by descending average and unrated ones newest first, and
      ranks each of its entries before every recipe left out. */
  lemma FeaturedOrder(recipes: seq<Recipe>, limit: int)
    ensures var f := Featured(recipes, limit);
      && multiset(f) <= multiset(recipes)
      && (limit >= 0 ==> |f| == if limit <= |recipes| then limit else |recipes|)
      && (forall i, j :: 0 <= i < j < |f| && Rated(f[j]) ==> Rated(f[i]))
      && (forall i, j :: 0 <= i < j < |f| && Rated(f[i]) && Rated(f[j]) ==>
            AverageTenths(f[i].ratings) >= AverageTenths(f[j].ratings))
      && (forall i, j :: 0 <= i < j < |f| && !Rated(f[i]) && !Rated(f[j]) ==>
            f[i].createdAt >= f[j].createdAt)
      && (forall y, i :: y in multiset(recipes) - multiset(f) && 0 <= i < |f| ==> FeaturedLe(f[i], y))
  {
    FeaturedLeIsTotalPreorder();
    var n := SliceEnd(|recipes|, limit);
    SortedTop(recipes, FeaturedLe, n);
    var f := Featured(recipes, limit);
    assert f == SortBy(recipes, FeaturedLe)[..n];
    FeaturedSortedMeans(f);
  }

  /** What a list sorted by the comparator looks like: rated entries first, by
      descending average, then unrated ones newest first. */
  lemma FeaturedSortedMeans(f: seq<Recipe>)
    requires SortedBy(f, FeaturedLe)
    ensures forall i, j :: 0 <= i < j < |f| && Rated(f[j]) ==> Rated(f[i])
    ensures forall i, j :: 0 <= i < j < |f| && Rated(f[i]) && Rated(f[j]) ==>
      AverageTenths(f[i].ratings) >= AverageTenths(f[j].ratings)
    ensures forall i, j :: 0 <= i < j < |f| && !Rated(f[i]) && !Rated(f[j]) ==>
      f[i].createdAt >= f[j].createdAt
  {
    forall i, j | 0 <= i < j < |f| ensures FeaturedLe(f[i], f[j]) {
    }
  }

  /** With no `limit` in the query, at most six recipes are featured. */
  lemma FeaturedDefaultLimit(recipes: seq<Recipe>)
    ensures |Featured(recipes, DefaultFeaturedLimit)| <= 6
    ensures |recipes| >= 6 ==> |Featured(recipes, DefaultFeaturedLimit)| == 6
  {
    FeaturedOrder(recipes, DefaultFeaturedLimit);
  }

  // ---------------------------------------------------------------------------
  // GET /api/recipes

  const DefaultPage: int := 1
  const DefaultListLimit: int := 12

  datatype ListQuery = ListQuery(search: string, category: string, difficulty: string, page: int, limit: int)

  datatype ListPage = ListPage(recipes: seq<Recipe>, totalPages: Option<int>, currentPage: int, total: nat)

  /** `category && category !== 'All'` (and the same for difficulty). */
  predicate FilterApplies(v: string) {
    v != "" && v != "All"
  }

  /** The query document: the search alternatives (title, description or category
      matching the pattern, abstracted as `matches`) only when a search is given,
      category and difficulty by equality only when they apply. */
  predicate ListSelects(q: ListQuery, matches: Recipe -> bool, r: Recipe) {
    && (q.search != "" ==> matches(r))
    && (FilterApplies(q.category) ==> r.category == q.category)
    && (FilterApplies(q.difficulty) ==> r.difficulty == q.difficulty)
  }

  /** `.sort({ createdAt: -1 })`. */
  predicate NewestFirst(a: Recipe, b: Recipe) {
    a.createdAt >= b.createdAt
  }

  /** `Math.ceil(count / limit)`: null for a zero limit (Infinity or NaN), and for a
      negative limit the ceiling of a non-positive quotient. */
  function TotalPages(count: nat, limit: int): (t: Option<int>)
    ensures limit == 0 <==> t.None?
    ensures limit > 0 ==> t.value >= 0 && count <= t.value * limit
    ensures limit > 0 && t.value > 0 ==> (t.value - 1) * limit < count
  {
    if limit == 0 then None
    else if limit > 0 then
      var q := (count + limit - 1) / limit;
      assert limit * q <= count + limit - 1 < limit * q + limit;
      Some(q)
    else Some(-(count / -limit))
  }

  function Abs(x: int): nat {
    if x < 0 then -x else x
  }

  /** The recipes the query document selects, in store order. */
  function Selected(recipes: seq<Recipe>, q: ListQuery, matches: Recipe -> bool): (s: seq<Recipe>)
    ensures |s| == Count(recipes, (x: Recipe) => ListSelects(q, matches, x))
    ensures forall k :: 0 <= k < |s| ==> ListSelects(q, matches, s[k]) && s[k] in recipes
  {
    var p := (x: Recipe) => ListSelects(q, matches, x);
    FilterLength(recipes, p);
    var s := Filter(recipes, p);
    forall k | 0 <= k < |s| ensures s[k] in recipes {
      assert s[k] in multiset(s);
    }
    s
  }

  /** `skip(skip).limit(limit)` on a cursor: 0 means no limit, a negative limit its
      absolute value. */
  function Window(sorted: seq<Recipe>, skip: nat, limit: int): (w: seq<Recipe>)
    ensures limit != 0 ==> |w| <= Abs(limit)
    ensures skip >= |sorted| ==> w == []
    ensures skip < |sorted| && limit != 0 ==> |w| > 0
    ensures skip <= |sorted| ==>
      |w| == if limit == 0 || |sorted| - skip <= Abs(limit) then |sorted| - skip else Abs(limit)
    ensures forall k :: 0 <= k < |w| ==> skip + k < |sorted| && w[k] == sorted[skip + k]
  {
    var rest := if skip <= |sorted| then sorted[skip..] else [];
    var size := if limit == 0 then |rest| else Abs(limit);
    var n := if size <= |rest| then size else |rest|;
    rest[..n]
  }

  /** One page of an already sorted result: the window at `(page - 1) * limit`; a
      negative skip is refused by the database (None: 500). */
  function Paginate(sorted: seq<Recipe>, page: int, limit: int): Option<ListPage> {
    var skip := (page - 1) * limit;
    if skip < 0 then None
    else Some(ListPage(Window(sorted, skip, limit), TotalPages(|sorted|, limit), page, |sorted|))
  }

  /** The listing: the selected recipes newest first, then one page of them. */
  function ListRecipes(recipes: seq<Recipe>, q: ListQuery, matches: Recipe -> bool): Option<ListPage> {
    Paginate(SortBy(Selected(recipes, q, matches), NewestFirst), q.page, q.limit)
  }

  /** For a positive page and limit a page holds at most `limit` consecutive entries
      of the sorted result, in its order, and reports the size of the whole result. */
  lemma PaginateContents(sorted: seq<Recipe>, page: int, limit: int)
    requires page >= 1 && limit >= 1
    requires SortedBy(sorted, NewestFirst)
    ensures var r := Paginate(sorted, page, limit);
      && r.Some?
      && |r.value.recipes| <= limit
      && (var skip := (page - 1) * limit;
          && |r.value.recipes| == (if skip >= |sorted| then 0 else if |sorted| - skip <= limit then |sorted| - skip else limit)
          && (forall k :: 0 <= k < |r.value.recipes| ==> skip + k < |sorted| && r.value.recipes[k] == sorted[skip + k]))
      && (forall k :: 0 <= k < |r.value.recipes| ==> r.value.recipes[k] in sorted)
      && SortedBy(r.value.recipes, NewestFirst)
      && r.value.total == |sorted| && r.value.currentPage == page
  {
    MulMono(limit, 0, page - 1);
    var skip := (page - 1) * limit;
    var w := Window(sorted, skip, limit);
    forall i, j | 0 <= i < j < |w| ensures NewestFirst(w[i], w[j]) {
      assert w[i] == sorted[skip + i] && w[j] == sorted[skip + j];
    }
  }

  /** For a positive page and limit the listing answers with at most `limit` recipes,
      each selected by the query and taken from the store, newest first, and reports
      the number of selected recipes as `total`. */
  lemma ListPageContents(recipes: seq<Recipe>, q: ListQuery, matches: Recipe -> bool)
    requires q.page >= 1 && q.limit >= 1
    ensures var r := ListRecipes(recipes, q, matches);
      && r.Some?
      && |r.value.recipes| <= q.limit
      && (var n, skip := r.value.total, (q.page - 1) * q.limit;
          |r.value.recipes| == if skip >= n then 0 else if n - skip <= q.limit then n - skip else q.limit)
      && (forall k :: 0 <= k < |r.value.recipes| ==>
            ListSelects(q, matches, r.value.recipes[k]) && r.value.recipes[k] in recipes)
      && SortedBy(r.value.recipes, NewestFirst)
      && r.value.total == Count(recipes, (x: Recipe) => ListSelects(q, matches, x))
      && r.value.currentPage == q.page
  {
    var sorted := SortBy(Selected(recipes, q, matches), NewestFirst);
    SortedSelection(recipes, q, matches);
    PaginateContents(sorted, q.page, q.limit);
    var r := Paginate(sorted, q.page, q.limit);
    assert ListRecipes(recipes, q, matches) == r;
  }

  /** The selection, sorted newest first, keeps its size and holds only selected
      recipes of the store. */
  lemma SortedSelection(recipes: seq<Recipe>, q: ListQuery, matches: Recipe -> bool)
    ensures var sorted := SortBy(Selected(recipes, q, matches), NewestFirst);
      && SortedBy(sorted, NewestFirst)
      && |sorted| == Count(recipes, (x: Recipe) => ListSelects(q, matches, x))
      && forall k :: 0 <= k < |sorted| ==> ListSelects(q, matches, sorted[k]) && sorted[k] in recipes
  {
    var selected := Selected(recipes, q, matches);
    var sorted := SortBy(selected, NewestFirst);
    assert |sorted| == |multiset(sorted)| == |selected|;
    assert TotalPreorder(NewestFirst);
    SortBySorted(selected, NewestFirst);
    forall k | 0 <= k < |sorted| ensures ListSelects(q, matches, sorted[k]) && sorted[k] in recipes {
      assert sorted[k] in multiset(selected);
      var m :| 0 <= m < |selected| && selected[m] == sorted[k];
    }
  }

  /** The page starting at `(page - 1) * limit` reaches into `count` items exactly
      when the page number is at most the page count. */
  lemma SkipWithinCount(count: nat, page: int, limit: int)
    requires page >= 1 && limit >= 1
    ensures (page - 1) * limit < count <==> page <= TotalPages(count, limit).value
  {
    var t := TotalPages(count, limit).value;
    if page <= t {
      MulMono(limit, page - 1, t - 1);
    } else {
      MulMono(limit, t, page - 1);
    }
  }

  /** A page is non-empty exactly when its number is at most totalPages. */
  lemma ListPageNonEmptyIff(recipes: seq<Recipe>, q: ListQuery, matches: Recipe -> bool)
    requires q.page >= 1 && q.limit >= 1
    ensures match ListRecipes(recipes, q, matches)
      case Some(r) => r.totalPages.Some? && (|r.recipes| > 0 <==> q.page <= r.totalPages.value)
      case None => false
  {
    var sorted := SortBy(Selected(recipes, q, matches), NewestFirst);
    MulMono(q.limit, 0, q.page - 1);
    SkipWithinCount(|sorted|, q.page, q.limit);
  }

  /** Two queries that select the same recipes and ask for the same page give the
      same listing. */
  lemma SameSelectionSameListing(recipes: seq<Recipe>, q1: ListQuery, q2: ListQuery, matches: Recipe -> bool)
    requires forall x :: ListSelects(q1, matches, x) == ListSelects(q2, matches, x)
    requires q1.page == q2.page && q1.limit == q2.limit
    ensures ListRecipes(recipes, q1, matches) == ListRecipes(recipes, q2, matches)
  {
    var p1 := (x: Recipe) => ListSelects(q1, matches, x);
    var p2 := (x: Recipe) => ListSelects(q2, matches, x);
    FilterCongruent(recipes, p1, p2);
    assert Selected(recipes, q1, matches) == Selected(recipes, q2, matches);
  }

  /** 'All' and an absent filter value select the same recipes. */
  lemma ListAllMeansNoFilter(recipes: seq<Recipe>, q: ListQuery, matches: Recipe -> bool)
    ensures ListRecipes(recipes, q.(category := "All"), matches) == ListRecipes(recipes, q.(category := ""), matches)
    ensures ListRecipes(recipes, q.(difficulty := "All"), matches) == ListRecipes(recipes, q.(difficulty := ""), matches)
  {
    SameSelectionSameListing(recipes, q.(category := "All"), q.(category := ""), matches);
    SameSelectionSameListing(recipes, q.(difficulty := "All"), q.(difficulty := ""), matches);
  }

  // ---------------------------------------------------------------------------
  // POST /api/recipes and PUT /api/recipes/:id: the request body

  datatype RecipeForm = RecipeForm(
    title: string,
    description: string,
    ingredients: Option<seq<string>>,
    instructions: Option<seq<string>>,
    category: string,
    prepTime: string,
    cookTime: string,
    servings: string,
    difficulty: string,
    referenceUrls: Option<seq<string>>)

  /** The schema's `trim: true` on each referenceUrls entry. */
  function TrimAll(items: seq<string>): (r: seq<string>)
    ensures |r| == |items|
    ensures forall k :: 0 <= k < |items| ==> r[k] == Trim(items[k])
  {
    if items == [] then [] else [Trim(items[0])] + TrimAll(items[1..])
  }

  lemma {:induction false} TrimAllIdempotent(items: seq<string>)
    ensures TrimAll(TrimAll(items)) == TrimAll(items)
  {
    forall k | 0 <= k < |items| ensures TrimAll(TrimAll(items))[k] == TrimAll(items)[k] {
      TrimIdempotent(items[k]);
    }
  }

  /** The create validators that fail, in declaration order. */
  function CreateErrors(f: RecipeForm): seq<string> {
    (if ValidatorLength(Trim(f.title)) >= MinTitleLength then [] else ["title"])
    + (if ValidatorLength(Trim(f.description)) >= MinDescriptionLength then [] else ["description"])
    + (if f.category != "" then [] else ["category"])
    + (if IsIntAtLeastOne(f.prepTime) then [] else ["prepTime"])
    + (if IsIntAtLeastOne(f.cookTime) then [] else ["cookTime"])
    + (if IsIntAtLeastOne(f.servings) then [] else ["servings"])
  }

  /** The document `Recipe.create` builds from a validated body: title and description
      as sanitised, absent arrays empty, difficulty defaulting to Medium, reference
      URLs trimmed, the uploaded files attached and the caller as author. */
  function NewRecipe(id: Id, author: Id, f: RecipeForm, images: seq<string>, attachments: seq<Attachment>,
                     now: int): Recipe
    requires CreateErrors(f) == []
  {
    CastAgreesWithIsInt(f.prepTime);
    CastAgreesWithIsInt(f.cookTime);
    CastAgreesWithIsInt(f.servings);
    Recipe(
      id,
      Trim(f.title),
      Trim(f.description),
      if f.ingredients.Some? then f.ingredients.value else [],
      if f.instructions.Some? then f.instructions.value else [],
      f.category,
      CastNumber(f.prepTime).value,
      CastNumber(f.cookTime).value,
      CastNumber(f.servings).value,
      if f.difficulty != "" then f.difficulty else DefaultDifficulty,
      images,
      attachments,
      if f.referenceUrls.Some? then TrimAll(f.referenceUrls.value) else [],
      author,
      [],
      [],
      now,
      now)
  }

  /** Once the request validators pass, the schema can refuse a new recipe only for
      its category, its difficulty, an empty ingredient or instruction, or a reference
      URL the URL parser refuses. The length checks cannot fail: the request
      validator's count never exceeds the schema's UTF-16 count. */
  lemma CreateSchemaCheck(id: Id, author: Id, f: RecipeForm, images: seq<string>,
                          attachments: seq<Attachment>, now: int, parses: string -> bool)
    requires CreateErrors(f) == []
    ensures var r := NewRecipe(id, author, f, images, attachments, now);
      RecipeValid(r, parses) <==>
        && f.category in Categories
        && (f.difficulty == "" || f.difficulty in Difficulties)
        && NoEmptyEntry(r.ingredients)
        && NoEmptyEntry(r.instructions)
        && UrlsAccepted(r.referenceUrls, parses)
  {
    CastAgreesWithIsInt(f.prepTime);
    CastAgreesWithIsInt(f.cookTime);
    CastAgreesWithIsInt(f.servings);
  }

  /** With a listed category and difficulty and no empty row, a validated body makes a
      recipe the schema accepts exactly when the URL validator accepts every link it
      stores. */
  lemma CreateSchemaCheckForRows(id: Id, author: Id, f: RecipeForm, images: seq<string>,
                                 attachments: seq<Attachment>, now: int, parses: string -> bool)
    requires CreateErrors(f) == []
    requires f.category in Categories && f.difficulty in Difficulties
    requires f.ingredients.Some? && NoEmptyEntry(f.ingredients.value)
    requires f.instructions.Some? && NoEmptyEntry(f.instructions.value)
    ensures RecipeValid(NewRecipe(id, author, f, images, attachments, now), parses) <==>
      UrlsAccepted(if f.referenceUrls.Some? then TrimAll(f.referenceUrls.value) else [], parses)
  {
    CreateSchemaCheck(id, author, f, images, attachments, now, parses);
  }

  /** The request validator and the schema count differently: two emoji are two
      characters to the create validator, too short for a title, but four UTF-16 code
      units to the schema, long enough; an update, which has no request validator,
      stores such a title. */
  lemma TitleCountsDiffer()
    ensures var t := "\U{1F600}\U{1F600}";
      ValidatorLength(Trim(t)) < MinTitleLength <= Utf16Length(t)
  {
    var t := "\U{1F600}\U{1F600}";
    TrimKeepsUnpadded(t);
    Utf16LengthOfAstral(t);
    ValidatorLengthWithoutSelectors(t);
  }

  /** `value || old`: a non-empty string replaces the stored value. */
  function PickText(value: string, old_value: string): string {
    if value != "" then value else old_value
  }

  /** The update merge: each scalar takes the new value only when it is truthy, the
      title through the schema's trim, numbers through the Number cast (None: a
      CastError, which fails the save); arrays are replaced when provided, reference
      URLs even by an empty list; new images and attachments are appended. */
  function MergeUpdate(r: Recipe, f: RecipeForm, newImages: seq<string>, newAttachments: seq<Attachment>)
    : Option<Recipe>
  {
    var prep := if f.prepTime != "" then CastNumber(f.prepTime) else Some(r.prepTime);
    var cook := if f.cookTime != "" then CastNumber(f.cookTime) else Some(r.cookTime);
    var serv := if f.servings != "" then CastNumber(f.servings) else Some(r.servings);
    if prep.None? || cook.None? || serv.None? then None
    else Some(AppendFiles(r.(
      title := if f.title != "" then Trim(f.title) else r.title,
      description := PickText(f.description, r.description),
      ingredients := if f.ingredients.Some? then f.ingredients.value else r.ingredients,
      instructions := if f.instructions.Some? then f.instructions.value else r.instructions,
      category := PickText(f.category, r.category),
      prepTime := prep.value,
      cookTime := cook.value,
      servings := serv.value,
      difficulty := PickText(f.difficulty, r.difficulty),
      referenceUrls := if f.referenceUrls.Some? then TrimAll(f.referenceUrls.value) else r.referenceUrls),
      newImages, newAttachments))
  }

  /** The uploaded files are appended after the stored ones. */
  function AppendFiles(r: Recipe, newImages: seq<string>, newAttachments: seq<Attachment>): Recipe {
    r.(images := r.images + newImages, attachments := r.attachments + newAttachments)
  }

  function EmptyForm(): RecipeForm {
    RecipeForm("", "", None, None, "", "", "", "", "", None)
  }

  /** An update that provides nothing changes nothing. */
  lemma MergeEmptyIsIdentity(r: Recipe)
    ensures MergeUpdate(r, EmptyForm(), [], []) == Some(r)
  {
    assert r.images + [] == r.images;
    assert r.attachments + [] == r.attachments;
  }

  /** The merge keeps what it is not given: the author, ratings, likes and timestamps
      are never touched; the stored images and attachments stay as a prefix, so files
      are only ever added; a provided list of links replaces the old one even when
      it is empty. */
  lemma MergePreserves(r: Recipe, f: RecipeForm, newImages: seq<string>, newAttachments: seq<Attachment>)
    requires MergeUpdate(r, f, newImages, newAttachments).Some?
    ensures var m := MergeUpdate(r, f, newImages, newAttachments).value;
      && m.id == r.id && m.author == r.author && m.ratings == r.ratings && m.likes == r.likes
      && m.createdAt == r.createdAt
      && m.images[..|r.images|] == r.images && |m.images| == |r.images| + |newImages|
      && m.attachments[..|r.attachments|] == r.attachments
      && (f.referenceUrls == Some([]) ==> m.referenceUrls == [])
      && (f.title == "" ==> m.title == r.title)
  {
  }

  /** Sending the same update twice without new files gives the same recipe as
      sending it once. */
  lemma {:induction false} MergeIdempotent(r: Recipe, f: RecipeForm)
    requires MergeUpdate(r, f, [], []).Some?
    ensures var m := MergeUpdate(r, f, [], []).value;
      MergeUpdate(m, f, [], []) == Some(m)
  {
    var m := MergeUpdate(r, f, [], []).value;
    assert AppendFiles(m, [], []) == m by {
      assert m.images + [] == m.images;
      assert m.attachments + [] == m.attachments;
    }
  }

  // ---------------------------------------------------------------------------
  // Ratings and likes

  /** `!rating || rating < 1 || rating > 5` refuses the rating. */
  predicate RatingAccepted(rating: Option<int>) {
    rating.Some? && rating.value != 0 && 1 <= rating.value <= 5
  }

  /** No user has two ratings on the recipe. */
  ghost predicate OneRatingPerUser(ratings: seq<Rating>) {
    forall i, j :: 0 <= i < j < |ratings| ==> ratings[i].user != ratings[j].user
  }

  /** The caller's existing rating is overwritten with the new value and time, or a
      new rating is appended. */
  function UpsertRating(ratings: seq<Rating>, user: Id, value: int, now: int): seq<Rating> {
    match FindFirst(ratings, (r: Rating) => r.user == user)
    case Some(j) => ratings[j := Rating(user, value, now)]
    case None => ratings + [Rating(user, value, now)]
  }

  /** After a rating the caller has exactly one entry, holding the new value; other
      users' entries are untouched; and no user ever gets two entries. */
  lemma UpsertRatingOnePerUser(ratings: seq<Rating>, user: Id, value: int, now: int)
    requires OneRatingPerUser(ratings)
    ensures var after := UpsertRating(ratings, user, value, now);
      && OneRatingPerUser(after)
      && (exists j :: 0 <= j < |after| && after[j] == Rating(user, value, now))
      && (forall k :: 0 <= k < |ratings| && ratings[k].user != user ==> ratings[k] in after)
      && (forall k :: 0 <= k < |after| && after[k].user != user ==> after[k] in ratings)
      && |after| == |ratings| + (if exists k :: 0 <= k < |ratings| && ratings[k].user == user then 0 else 1)
  {
    var after := UpsertRating(ratings, user, value, now);
    match FindFirst(ratings, (r: Rating) => r.user == user)
    case Some(j) =>
      assert after[j] == Rating(user, value, now);
      forall k | 0 <= k < |ratings| && ratings[k].user != user ensures ratings[k] in after {
        assert after[k] == ratings[k];
      }
    case None =>
      assert after[|ratings|] == Rating(user, value, now);
      forall k | 0 <= k < |ratings| && ratings[k].user != user ensures ratings[k] in after {
        assert after[k] == ratings[k];
      }
  }

  /** An accepted rating keeps every rating of the recipe within 1..5. */
  lemma UpsertRatingKeepsValid(ratings: seq<Rating>, user: Id, value: int, now: int)
    requires forall k :: 0 <= k < |ratings| ==> RatingValid(ratings[k])
    requires RatingAccepted(Some(value))
    ensures var after := UpsertRating(ratings, user, value, now);
      forall k :: 0 <= k < |after| ==> RatingValid(after[k])
  {
  }

  /** No user id occurs twice in the likes. */
  ghost predicate Distinct(likes: seq<Id>) {
    forall i, j :: 0 <= i < j < |likes| ==> likes[i] != likes[j]
  }

  /** Like: refused when the caller already likes the recipe, else the caller's id is
      pushed. */
  function AddLike(likes: seq<Id>, user: Id): Option<seq<Id>> {
    if user in likes then None else Some(likes + [user])
  }

  /** Unlike: refused when the caller is absent, else the first occurrence is spliced out. */
  function RemoveLike(likes: seq<Id>, user: Id): Option<seq<Id>> {
    match FindFirst(likes, (x: Id) => x == user)
    case None => None
    case Some(j) => Some(RemoveAt(likes, j))
  }

  /** A like adds exactly one id and never creates a duplicate. */
  lemma LikeKeepsDistinct(likes: seq<Id>, user: Id)
    requires Distinct(likes)
    ensures AddLike(likes, user).None? <==> user in likes
    ensures AddLike(likes, user).Some? ==>
      && Distinct(AddLike(likes, user).value)
      && multiset(AddLike(likes, user).value) == multiset(likes) + multiset{user}
  {
  }

  /** An unlike removes exactly one occurrence of the caller and keeps the others in
      order; on distinct likes the caller is then gone. */
  lemma UnlikeRemovesOne(likes: seq<Id>, user: Id)
    ensures RemoveLike(likes, user).None? <==> user !in likes
    ensures RemoveLike(likes, user).Some? ==>
      && multiset(RemoveLike(likes, user).value) + multiset{user} == multiset(likes)
      && (exists j :: 0 <= j < |likes| && likes[j] == user && (forall k :: 0 <= k < j ==> likes[k] != user)
            && RemoveLike(likes, user).value == RemoveAt(likes, j))
      && (Distinct(likes) ==> user !in RemoveLike(likes, user).value)
  {
    match FindFirst(likes, (x: Id) => x == user)
    case None =>
    case Some(j) =>
      assert likes[j] == user && RemoveLike(likes, user).value == RemoveAt(likes, j);
      assert likes == likes[..j] + [likes[j]] + likes[j + 1..];
      var after := RemoveAt(likes, j);
      if Distinct(likes) {
        forall k | 0 <= k < |after| ensures after[k] != user {
          if k < j { assert after[k] == likes[k]; } else { assert after[k] == likes[k + 1]; }
        }
      }
  }

  /** Like followed by unlike restores the original likes. */
  lemma LikeThenUnlike(likes: seq<Id>, user: Id)
    requires user !in likes
    ensures AddLike(likes, user) == Some(likes + [user])
    ensures RemoveLike(likes + [user], user) == Some(likes)
  {
    var l := likes + [user];
    var found := FindFirst(l, (x: Id) => x == user);
    assert l[|likes|] == user;
    forall k | 0 <= k < |likes| ensures l[k] != user {
      assert l[k] == likes[k];
    }
    assert found.value == |likes|;
    var r := RemoveAt(l, |likes|);
    assert |r| == |likes|;
    forall k | 0 <= k < |likes| ensures r[k] == likes[k] {
      assert r[k] == l[k];
    }
    assert r == likes;
  }

  // ---------------------------------------------------------------------------
  // The handlers on the database

  method Create(db: Database, caller: Caller, f: RecipeForm, images: seq<string>, attachments: seq<Attachment>,
                now: int) returns (reply: Reply)
    requires db.Valid()
    modifies db`recipes, db`nextId
    ensures db.Valid()
    ensures CreateErrors(f) != [] ==>
      reply == Failure(Invalid(CreateErrors(f))) && db.recipes == old(db.recipes)
    ensures CreateErrors(f) == [] ==>
      var doc := NewRecipe(old(db.nextId), caller.id, f, images, attachments, now);
      && (RecipeValid(doc, db.parses) ==> reply == Success(201) && db.recipes == old(db.recipes) + [doc])
      && (!RecipeValid(doc, db.parses) ==> reply == Failure(ServerError) && db.recipes == old(db.recipes))
  {
    var errors := CreateErrors(f);
    if errors != [] {
      return Failure(Invalid(errors));
    }
    var id := db.NewId();
    var doc := NewRecipe(id, caller.id, f, images, attachments, now);
    var ok := db.InsertRecipe(doc, now);
    assert doc.(updatedAt := now) == doc;
    reply := if ok then Success(201) else Failure(ServerError);
  }

  /** The field assignments of the update handler, in the order it makes them. */
  method ApplyForm(recipe: Recipe, f: RecipeForm, newImages: seq<string>, newAttachments: seq<Attachment>)
    returns (merged: Option<Recipe>)
    ensures merged == MergeUpdate(recipe, f, newImages, newAttachments)
  {
    var prep := if f.prepTime != "" then CastNumber(f.prepTime) else Some(recipe.prepTime);
    var cook := if f.cookTime != "" then CastNumber(f.cookTime) else Some(recipe.cookTime);
    var serv := if f.servings != "" then CastNumber(f.servings) else Some(recipe.servings);
    if prep.None? || cook.None? || serv.None? {
      return None;
    }
    var doc := recipe.(
      title := if f.title != "" then Trim(f.title) else recipe.title,
      description := PickText(f.description, recipe.description),
      ingredients := if f.ingredients.Some? then f.ingredients.value else recipe.ingredients,
      instructions := if f.instructions.Some? then f.instructions.value else recipe.instructions,
      category := PickText(f.category, recipe.category),
      prepTime := prep.value,
      cookTime := cook.value,
      servings := serv.value,
      difficulty := PickText(f.difficulty, recipe.difficulty));
    if f.referenceUrls.Some? {
      doc := doc.(referenceUrls := TrimAll(f.referenceUrls.value));
    }
    assert MergeUpdate(recipe, f, newImages, newAttachments) == Some(AppendFiles(doc, newImages, newAttachments));
    if |newImages| > 0 {
      doc := doc.(images := doc.images + newImages);
    } else {
      AppendNothing(doc.images, newImages);
    }
    if |newAttachments| > 0 {
      doc := doc.(attachments := doc.attachments + newAttachments);
    } else {
      AppendNothing(doc.attachments, newAttachments);
    }
    merged := Some(doc);
  }

  method Update(db: Database, caller: Caller, recipeId: Id, f: RecipeForm, newImages: seq<string>,
                newAttachments: seq<Attachment>, now: int) returns (reply: Reply)
    requires db.Valid()
    modifies db`recipes
    ensures db.Valid()
    ensures match FindRecipe(old(db.recipes), recipeId)
      case None => reply == Failure(NotFound) && db.recipes == old(db.recipes)
      case Some(i) =>
        var r := old(db.recipes)[i];
        if !OwnerOrAdmin(r.author, caller) then reply == Failure(Forbidden) && db.recipes == old(db.recipes)
        else match MergeUpdate(r, f, newImages, newAttachments)
          case None => reply == Failure(ServerError) && db.recipes == old(db.recipes)
          case Some(m) =>
            if RecipeValid(m, db.parses) then reply == Success(200) && db.recipes == old(db.recipes)[i := m.(updatedAt := now)]
            else reply == Failure(ServerError) && db.recipes == old(db.recipes)
  {
    var found := FindRecipe(db.recipes, recipeId);
    if found.None? {
      return Failure(NotFound);
    }
    var i := found.value;
    var doc := db.recipes[i];
    if doc.author != caller.id && caller.role != AdminRole {
      return Failure(Forbidden);
    }
    var merged := ApplyForm(doc, f, newImages, newAttachments);
    if merged.None? {
      return Failure(ServerError);
    }
    doc := merged.value;
    var ok := db.SaveRecipeAt(i, doc, now);
    reply := if ok then Success(200) else Failure(ServerError);
  }

  method Delete(db: Database, caller: Caller, recipeId: Id) returns (reply: Reply)
    requires db.Valid()
    modifies db`recipes
    ensures db.Valid()
    ensures match FindRecipe(old(db.recipes), recipeId)
      case None => reply == Failure(NotFound) && db.recipes == old(db.recipes)
      case Some(i) =>
        if OwnerOrAdmin(old(db.recipes)[i].author, caller)
        then reply == Success(200) && db.recipes == RemoveAt(old(db.recipes), i)
        else reply == Failure(Forbidden) && db.recipes == old(db.recipes)
  {
    var found := FindRecipe(db.recipes, recipeId);
    if found.None? {
      return Failure(NotFound);
    }
    var i := found.value;
    if db.recipes[i].author != caller.id && caller.role != AdminRole {
      return Failure(Forbidden);
    }
    db.DeleteRecipeAt(i);
    reply := Success(200);
  }

  /** The handler's edit of the ratings array: the caller's entry gets the new value
      and date, or a new entry is pushed. */
  method ApplyRating(ratings: seq<Rating>, user: Id, value: int, now: int) returns (after: seq<Rating>)
    ensures after == UpsertRating(ratings, user, value, now)
  {
    after := ratings;
    var existing := FindFirst(after, (r: Rating) => r.user == user);
    if existing.Some? {
      var j := existing.value;
      after := after[j := after[j].(rating := value)];
      after := after[j := after[j].(createdAt := now)];
    } else {
      after := after + [Rating(user, value, now)];
    }
  }

  method Rate(db: Database, caller: Caller, recipeId: Id, rating: Option<int>, now: int) returns (reply: Reply)
    requires db.Valid()
    modifies db`recipes
    ensures db.Valid()
    ensures !RatingAccepted(rating) ==> reply == Failure(BadRating) && db.recipes == old(db.recipes)
    ensures RatingAccepted(rating) ==> match FindRecipe(old(db.recipes), recipeId)
      case None => reply == Failure(NotFound) && db.recipes == old(db.recipes)
      case Some(i) =>
        var r := old(db.recipes)[i];
        reply == Success(200)
        && db.recipes == old(db.recipes)[i := r.(ratings := UpsertRating(r.ratings, caller.id, rating.value, now),
                                                 updatedAt := now)]
  {
    if rating.None? || rating.value == 0 || rating.value < 1 || rating.value > 5 {
      return Failure(BadRating);
    }
    var found := FindRecipe(db.recipes, recipeId);
    if found.None? {
      return Failure(NotFound);
    }
    var i := found.value;
    var doc := db.recipes[i];
    var ratings := ApplyRating(doc.ratings, caller.id, rating.value, now);
    UpsertRatingKeepsValid(doc.ratings, caller.id, rating.value, now);
    doc := doc.(ratings := ratings);
    var ok := db.SaveRecipeAt(i, doc, now);
    reply := if ok then Success(200) else Failure(ServerError);
  }

  method Like(db: Database, caller: Caller, recipeId: Id, now: int) returns (reply: Reply)
    requires db.Valid()
    modifies db`recipes
    ensures db.Valid()
    ensures match FindRecipe(old(db.recipes), recipeId)
      case None => reply == Failure(NotFound) && db.recipes == old(db.recipes)
      case Some(i) =>
        var r := old(db.recipes)[i];
        match AddLike(r.likes, caller.id)
        case None => reply == Failure(AlreadyLiked) && db.recipes == old(db.recipes)
        case Some(l) => reply == Success(200) && db.recipes == old(db.recipes)[i := r.(likes := l, updatedAt := now)]
  {
    var found := FindRecipe(db.recipes, recipeId);
    if found.None? {
      return Failure(NotFound);
    }
    var i := found.value;
    var doc := db.recipes[i];
    if caller.id in doc.likes {
      return Failure(AlreadyLiked);
    }
    doc := doc.(likes := doc.likes + [caller.id]);
    var ok := db.SaveRecipeAt(i, doc, now);
    reply := if ok then Success(200) else Failure(ServerError);
  }

  method Unlike(db: Database, caller: Caller, recipeId: Id, now: int) returns (reply: Reply)
    requires db.Valid()
    modifies db`recipes
    ensures db.Valid()
    ensures match FindRecipe(old(db.recipes), recipeId)
      case None => reply == Failure(NotFound) && db.recipes == old(db.recipes)
      case Some(i) =>
        var r := old(db.recipes)[i];
        match RemoveLike(r.likes, caller.id)
        case None => reply == Failure(NotLiked) && db.recipes == old(db.recipes)
        case Some(l) => reply == Success(200) && db.recipes == old(db.recipes)[i := r.(likes := l, updatedAt := now)]
  {
    var found := FindRecipe(db.recipes, recipeId);
    if found.None? {
      return Failure(NotFound);
    }
    var i := found.value;
    var doc := db.recipes[i];
    var likeIndex := FindFirst(doc.likes, (x: Id) => x == caller.id);
    if likeIndex.None? {
      return Failure(NotLiked);
    }
    doc := doc.(likes := RemoveAt(doc.likes, likeIndex.value));
    var ok := db.SaveRecipeAt(i, doc, now);
    reply := if ok then Success(200) else Failure(ServerError);
  }
}
