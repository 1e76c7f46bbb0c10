/** The edit form, client/src/pages/EditRecipe.js: the same fields and list editors
    as the upload form, filled from the stored recipe, with a link list that never
    becomes empty, and a body sent to `PUT /api/recipes/:id` that always carries the
    link list. Loading, toasts and navigation are not modelled. */
module EditRecipe {
  import opened Common
  import opened RecipeModel
  import opened CreateRecipe
  import RecipeRoutes

  /** The form and the link rows. */
  datatype EditState = EditState(form: FormData, urls: seq<string>)

  /** Before the recipe arrives: one blank ingredient row, one blank step, one blank link. */
  function InitialEdit(): EditState {
    EditState(FormData("", "", "Breakfast", "Medium", "", "", "", [""], [""]), [""])
  }

  /** `fetchRecipe`: every field is copied from the recipe (the numbers become text
      once they are sent); the link rows are replaced only when the recipe has links.
      Each number shown reads back, through the server's Number cast, as the stored
      number. */
  function Load(s: EditState, r: Recipe): (t: EditState)
    ensures t.form.title == r.title && t.form.description == r.description
    ensures t.form.category == r.category && t.form.difficulty == r.difficulty
    ensures t.form.ingredients == r.ingredients && t.form.instructions == r.instructions
    ensures RecipeRoutes.CastNumber(t.form.prepTime) == Some(r.prepTime)
    ensures RecipeRoutes.CastNumber(t.form.cookTime) == Some(r.cookTime)
    ensures RecipeRoutes.CastNumber(t.form.servings) == Some(r.servings)
    ensures |r.referenceUrls| > 0 ==> t.urls == r.referenceUrls
    ensures r.referenceUrls == [] ==> t.urls == s.urls
  {
    RecipeRoutes.DecimalCasts(r.prepTime);
    RecipeRoutes.DecimalCasts(r.cookTime);
    RecipeRoutes.DecimalCasts(r.servings);
    EditState(FormData(r.title, r.description, r.category, r.difficulty, DecimalString(r.prepTime),
                       DecimalString(r.cookTime), DecimalString(r.servings), r.ingredients, r.instructions),
              if |r.referenceUrls| > 0 then r.referenceUrls else s.urls)
  }

  /** `removeReferenceUrl`: the row goes, but an emptied list is given one blank row.
      Its button is rendered on every row, even the last one. */
  function RemoveUrl(urls: seq<string>, index: nat): (r: seq<string>)
    ensures |r| >= 1
    ensures |urls| > 1 ==> r == RemoveEntry(urls, index)
    ensures |urls| == 1 && index == 0 ==> r == [""]
  {
    var rest := RemoveEntry(urls, index);
    if |rest| > 0 then rest else [""]
  }

  /** The body of the update request: like the create body, but the filled links are
      sent even when there are none. */
  function EditBody(s: EditState): (body: RecipeRoutes.RecipeForm)
    ensures body.referenceUrls == Some(ValidUrls(s.urls))
    ensures body == CreateBody(s.form, s.urls).(referenceUrls := Some(ValidUrls(s.urls)))
  {
    RecipeRoutes.RecipeForm(s.form.title, s.form.description, Some(s.form.ingredients),
                            Some(s.form.instructions), s.form.category, s.form.prepTime, s.form.cookTime,
                            s.form.servings, s.form.difficulty, Some(ValidUrls(s.urls)))
  }

  /** `handleSubmit`: the same row checks as the upload form. */
  function Submit(s: EditState): (sub: Submission)
    ensures sub.Refused? <==> CreateRecipe.Submit(s.form, s.urls).Refused?
    ensures sub.Refused? ==> sub == CreateRecipe.Submit(s.form, s.urls)
  {
    if SomeBlank(s.form.ingredients) then Refused(IngredientsMessage)
    else if SomeBlank(s.form.instructions) then Refused(InstructionsMessage)
    else Sent(EditBody(s))
  }

  /** Blanking every link row and saving clears the recipe's links, where the upload
      form would not send the list at all. */
  lemma BlankLinksClearStoredLinks(s: EditState, r: Recipe, images: seq<string>, attachments: seq<Attachment>)
    requires Submit(s).Sent?
    requires forall k :: 0 <= k < |s.urls| ==> IsBlank(s.urls[k])
    requires RecipeRoutes.MergeUpdate(r, Submit(s).body, images, attachments).Some?
    ensures RecipeRoutes.MergeUpdate(r, Submit(s).body, images, attachments).value.referenceUrls == []
    ensures CreateRecipe.Submit(s.form, s.urls).body.referenceUrls.None?
  {
    ValidUrlsSpec(s.urls);
  }

  /** Trimming a list of trimmed strings changes nothing. */
  lemma TrimAllKeepsTrimmed(items: seq<string>)
    requires forall k :: 0 <= k < |items| ==> Trim(items[k]) == items[k]
    ensures RecipeRoutes.TrimAll(items) == items
  {
  }

  /** The link rows loaded from a recipe whose links are trimmed and non-empty are
      stored back as those links. */
  lemma LoadedLinksRoundTrip(r: Recipe)
    requires forall k :: 0 <= k < |r.referenceUrls| ==> r.referenceUrls[k] != "" && Trim(r.referenceUrls[k]) == r.referenceUrls[k]
    ensures RecipeRoutes.TrimAll(ValidUrls(Load(InitialEdit(), r).urls)) == r.referenceUrls
  {
    var urls := Load(InitialEdit(), r).urls;
    if r.referenceUrls == [] {
      assert IsBlank(urls[0]);
      ValidUrlsSpec(urls);
    } else {
      forall k | 0 <= k < |r.referenceUrls| ensures Filled(r.referenceUrls[k]) {
        assert Trim(r.referenceUrls[k]) != "";
      }
      FilterKeepsAll(r.referenceUrls, Filled);
      TrimAllKeepsTrimmed(r.referenceUrls);
    }
  }

  /** The update merge of a body that repeats every stored field, with the numbers
      written out as text and no new files, is the stored recipe. */
  lemma MergeOfCopy(r: Recipe, body: RecipeRoutes.RecipeForm)
    requires Trim(r.title) == r.title
    requires body.title == r.title && body.description == r.description
    requires body.ingredients == Some(r.ingredients) && body.instructions == Some(r.instructions)
    requires body.category == r.category && body.difficulty == r.difficulty
    requires body.prepTime == DecimalString(r.prepTime) && body.cookTime == DecimalString(r.cookTime)
    requires body.servings == DecimalString(r.servings)
    requires body.referenceUrls.Some? && RecipeRoutes.TrimAll(body.referenceUrls.value) == r.referenceUrls
    ensures RecipeRoutes.MergeUpdate(r, body, [], []) == Some(r)
  {
    RecipeRoutes.DecimalCasts(r.prepTime);
    RecipeRoutes.DecimalCasts(r.cookTime);
    RecipeRoutes.DecimalCasts(r.servings);
    MergeOfCastCopy(r, body);
  }

  /** The same, for any non-empty number texts that cast to the stored numbers. */
  lemma MergeOfCastCopy(r: Recipe, body: RecipeRoutes.RecipeForm)
    requires Trim(r.title) == r.title
    requires body.title == r.title && body.description == r.description
    requires body.ingredients == Some(r.ingredients) && body.instructions == Some(r.instructions)
    requires body.category == r.category && body.difficulty == r.difficulty
    requires body.prepTime != "" && RecipeRoutes.CastNumber(body.prepTime) == Some(r.prepTime)
    requires body.cookTime != "" && RecipeRoutes.CastNumber(body.cookTime) == Some(r.cookTime)
    requires body.servings != "" && RecipeRoutes.CastNumber(body.servings) == Some(r.servings)
    requires body.referenceUrls.Some? && RecipeRoutes.TrimAll(body.referenceUrls.value) == r.referenceUrls
    ensures RecipeRoutes.MergeUpdate(r, body, [], []) == Some(r)
  {
    assert RecipeRoutes.PickText(body.description, r.description) == r.description;
    assert RecipeRoutes.PickText(body.category, r.category) == r.category;
    assert RecipeRoutes.PickText(body.difficulty, r.difficulty) == r.difficulty;
    assert RecipeRoutes.AppendFiles(r, [], []) == r by {
      assert r.images + [] == r.images;
      assert r.attachments + [] == r.attachments;
    }
  }

  /** Opening a stored recipe in the edit form and saving it without touching
      anything gives back the same recipe, provided the stored values are ones the
      form can reproduce: a trimmed title, no blank ingredient or instruction, and
      links that are trimmed and non-empty. */
  lemma UntouchedEditIsIdentity(r: Recipe)
    requires Trim(r.title) == r.title
    requires forall k :: 0 <= k < |r.ingredients| ==> Filled(r.ingredients[k])
    requires forall k :: 0 <= k < |r.instructions| ==> Filled(r.instructions[k])
    requires forall k :: 0 <= k < |r.referenceUrls| ==> r.referenceUrls[k] != "" && Trim(r.referenceUrls[k]) == r.referenceUrls[k]
    ensures Submit(Load(InitialEdit(), r)).Sent?
    ensures RecipeRoutes.MergeUpdate(r, Submit(Load(InitialEdit(), r)).body, [], []) == Some(r)
  {
    var s := Load(InitialEdit(), r);
    SomeBlankIff(r.ingredients);
    SomeBlankIff(r.instructions);
    assert Submit(s) == Sent(EditBody(s));
    LoadedLinksRoundTrip(r);
    MergeOfCopy(r, EditBody(s));
  }
}
