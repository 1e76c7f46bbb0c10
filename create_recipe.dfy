/** The upload form, client/src/pages/CreateRecipe.js: the text fields, the editable
    ingredient and instruction lists, the reference-link list, the checks made before
    sending, and the multipart body sent to `POST /api/recipes`. The list editors
    and the body's shape are shared with the edit form. File pickers, toasts and
    navigation are not modelled. */
module CreateRecipe {
  import opened Common
  import opened RecipeModel
  import RecipeRoutes

  /** `formData`: every field as the inputs hold it, as text. */
  datatype FormData = FormData(
    title: string,
    description: string,
    category: string,
    difficulty: string,
    prepTime: string,
    cookTime: string,
    servings: string,
    ingredients: seq<string>,
    instructions: seq<string>)

  /** The form as first rendered: four blank ingredient rows, three blank steps,
      Breakfast and Medium preselected. */
  function InitialForm(): FormData {
    FormData("", "", "Breakfast", "Medium", "", "", "", ["", "", "", ""], ["", "", ""])
  }

  /** The reference-link list starts as one blank row. */
  const InitialUrls: seq<string> := [""]

  // ---------------------------------------------------------------------------
  // The list editors (ingredients, instructions and links alike)

  /** `copy[index] = value` on a row that is on screen. */
  function ChangeEntry(list: seq<string>, index: nat, value: string): (r: seq<string>)
    requires index < |list|
    ensures |r| == |list| && r[index] == value
    ensures forall k :: 0 <= k < |list| && k != index ==> r[k] == list[k]
  {
    list[index := value]
  }

  /** `[...list, '']`. */
  function AddEntry(list: seq<string>): (r: seq<string>)
    ensures |r| == |list| + 1 && r[..|list|] == list && r[|list|] == ""
  {
    list + [""]
  }

  /** `list.filter((_, i) => i !== index)`. */
  function RemoveEntry(list: seq<string>, index: nat): seq<string> {
    RemoveAt(list, index)
  }

  /** The remove buttons of the ingredient, instruction and link rows are rendered
      only while the list has more than one row. */
  predicate RemoveShown(list: seq<string>) {
    |list| > 1
  }

  /** Adding a row and removing it again gives back the list. */
  lemma AddThenRemove(list: seq<string>)
    ensures RemoveEntry(AddEntry(list), |list|) == list
  {
    assert AddEntry(list)[..|list|] == list;
  }

  /** One user action on a list: typing into a row, Add, or a remove button. */
  datatype ListEdit = Change(index: nat, value: string) | Add | Remove(index: nat)

  /** What the action does: rows are typed into and removed only where they are on
      screen, and a remove button that is not rendered cannot be clicked. */
  function ApplyEdit(list: seq<string>, e: ListEdit): seq<string> {
    match e
    case Change(i, v) => if i < |list| then ChangeEntry(list, i, v) else list
    case Add => AddEntry(list)
    case Remove(i) => if RemoveShown(list) then RemoveEntry(list, i) else list
  }

  function ApplyEdits(list: seq<string>, edits: seq<ListEdit>): seq<string>
    decreases |edits|
  {
    if edits == [] then list else ApplyEdits(ApplyEdit(list, edits[0]), edits[1..])
  }

  /** No sequence of actions empties a list that has a row: the last row has no
      remove button. */
  lemma {:induction false} EditsKeepARow(list: seq<string>, edits: seq<ListEdit>)
    requires |list| >= 1
    ensures |ApplyEdits(list, edits)| >= 1
    decreases |edits|
  {
    if edits != [] {
      EditsKeepARow(ApplyEdit(list, edits[0]), edits[1..]);
    }
  }

  // ---------------------------------------------------------------------------
  // Submitting

  /** A row the checks accept: `x.trim()` is truthy. */
  predicate Filled(s: string) {
    !IsBlank(s)
  }

  /** `list.some(x => !x.trim())`. */
  function SomeBlank(list: seq<string>): bool {
    if list == [] then false else IsBlank(list[0]) || SomeBlank(list[1..])
  }

  lemma {:induction false} SomeBlankIff(list: seq<string>)
    ensures SomeBlank(list) <==> exists k :: 0 <= k < |list| && IsBlank(list[k])
  {
    if list != [] {
      SomeBlankIff(list[1..]);
      if SomeBlank(list[1..]) {
        var k :| 0 <= k < |list[1..]| && IsBlank(list[1..][k]);
        assert IsBlank(list[k + 1]);
      }
      if exists k :: 0 <= k < |list| && IsBlank(list[k]) {
        var k :| 0 <= k < |list| && IsBlank(list[k]);
        if k > 0 {
          assert IsBlank(list[1..][k - 1]);
        }
      }
    }
  }

  const IngredientsMessage: string := "Please fill in all ingredients or remove empty fields"
  const InstructionsMessage: string := "Please fill in all instructions or remove empty fields"

  /** The outcome of the submit handler: an error toast and nothing sent, or the body
      sent to the server. */
  datatype Submission = Refused(message: string) | Sent(body: RecipeRoutes.RecipeForm)

  /** `referenceUrls.filter(url => url.trim() !== '')`. */
  function ValidUrls(urls: seq<string>): seq<string> {
    Filter(urls, Filled)
  }

  /** The links kept are the filled rows, in order; none are kept exactly when every
      row is blank; and once the schema trims them none is stored empty. */
  lemma ValidUrlsSpec(urls: seq<string>)
    ensures forall k :: 0 <= k < |ValidUrls(urls)| ==> Filled(ValidUrls(urls)[k])
    ensures forall k :: 0 <= k < |urls| && Filled(urls[k]) ==> urls[k] in ValidUrls(urls)
    ensures ValidUrls(urls) == [] <==> forall k :: 0 <= k < |urls| ==> IsBlank(urls[k])
    ensures NoEmptyEntry(RecipeRoutes.TrimAll(ValidUrls(urls)))
  {
    var v := ValidUrls(urls);
    if v != [] {
      assert v[0] in multiset(urls);
    }
  }

  /** The body of the create request. The link list is sent only when it keeps a row;
      the lists are sent as entered, untrimmed. */
  function CreateBody(form: FormData, urls: seq<string>): RecipeRoutes.RecipeForm {
    var valid := ValidUrls(urls);
    RecipeRoutes.RecipeForm(form.title, form.description, Some(form.ingredients), Some(form.instructions),
                            form.category, form.prepTime, form.cookTime, form.servings, form.difficulty,
                            if |valid| > 0 then Some(valid) else None)
  }

  /** `handleSubmit`: ingredients are checked before instructions. */
  function Submit(form: FormData, urls: seq<string>): Submission {
    if SomeBlank(form.ingredients) then Refused(IngredientsMessage)
    else if SomeBlank(form.instructions) then Refused(InstructionsMessage)
    else Sent(CreateBody(form, urls))
  }

  /** The form is sent exactly when no ingredient and no instruction is blank, and a
      blank ingredient is reported before a blank instruction. */
  lemma SubmitRefusesBlankRows(form: FormData, urls: seq<string>)
    ensures Submit(form, urls).Sent? <==>
      && (forall k :: 0 <= k < |form.ingredients| ==> Filled(form.ingredients[k]))
      && (forall k :: 0 <= k < |form.instructions| ==> Filled(form.instructions[k]))
    ensures Submit(form, urls) == Refused(IngredientsMessage) <==>
      exists k :: 0 <= k < |form.ingredients| && IsBlank(form.ingredients[k])
  {
    SomeBlankIff(form.ingredients);
    SomeBlankIff(form.instructions);
  }

  /** The form as first rendered cannot be sent, and its preselected category and
      difficulty are ones the schema accepts. */
  lemma InitialFormRefused()
    ensures Submit(InitialForm(), InitialUrls) == Refused(IngredientsMessage)
    ensures InitialForm().category in Categories && InitialForm().difficulty in Difficulties
  {
    assert IsBlank(InitialForm().ingredients[0]);
    SomeBlankIff(InitialForm().ingredients);
  }

  /** What is sent passes the schema's check on rows: every ingredient and instruction
      is non-empty, and the links are sent exactly when some row is filled. */
  lemma SentRowsNonEmpty(form: FormData, urls: seq<string>)
    requires Submit(form, urls).Sent?
    ensures var body := Submit(form, urls).body;
      && body.ingredients == Some(form.ingredients) && NoEmptyEntry(form.ingredients)
      && body.instructions == Some(form.instructions) && NoEmptyEntry(form.instructions)
      && (body.referenceUrls.None? <==> forall k :: 0 <= k < |urls| ==> IsBlank(urls[k]))
  {
    SubmitRefusesBlankRows(form, urls);
    ValidUrlsSpec(urls);
    forall k | 0 <= k < |form.ingredients| ensures form.ingredients[k] != "" {
      assert Filled(form.ingredients[k]);
    }
    forall k | 0 <= k < |form.instructions| ensures form.instructions[k] != "" {
      assert Filled(form.instructions[k]);
    }
  }

  /** A body the client sends and the route's validators accept, with a category and
      a difficulty from the selects, makes a recipe the schema accepts exactly when
      the URL parser accepts every link kept, as trimmed. */
  lemma SentRecipeIsValid(form: FormData, urls: seq<string>, id: Id, author: Id, images: seq<string>,
                          attachments: seq<Attachment>, now: int, parses: string -> bool)
    requires Submit(form, urls).Sent?
    requires RecipeRoutes.CreateErrors(Submit(form, urls).body) == []
    requires form.category in Categories && form.difficulty in Difficulties
    ensures RecipeValid(RecipeRoutes.NewRecipe(id, author, Submit(form, urls).body, images, attachments, now), parses)
      <==> UrlsAccepted(RecipeRoutes.TrimAll(ValidUrls(urls)), parses)
  {
    var body := Submit(form, urls).body;
    SentRowsNonEmpty(form, urls);
    RecipeRoutes.CreateSchemaCheckForRows(id, author, body, images, attachments, now, parses);
    assert body == CreateBody(form, urls);
  }
}
