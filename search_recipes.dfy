/** The search page, client/src/pages/SearchRecipes.js: the search text and the
    two filter selects, the current page, the page count the server last reported,
    and whether a search has been submitted. Each handler is a method that steps
    this state the way its setters do and returns the requests it causes: the
    handler's own call, if any, and the one the effect makes after the next render
    (the effect runs when `hasSearched` or `fetchRecipes` changed, and
    `fetchRecipes` changes with the search text, the filters and the page). The
    network, the loading flag and the rendering itself are not modelled. */
module SearchRecipes {
  import opened Common
  import opened RecipeQuery
  import opened Pagination
  import RecipeRoutes
  import opened RecipeModel

  /** The option of both selects that stands for "no filter". */
  const AllOption: string := "All"

  /** `params.append(...)` after the page and limit: the search text when it is
      non-empty, each filter when it is not 'All'. */
  function SearchParams(search: string, category: string, difficulty: string, page: int): seq<Param> {
    BaseParams(page)
    + Optional(search != "", "search", search)
    + Optional(category != AllOption, "category", category)
    + Optional(difficulty != AllOption, "difficulty", difficulty)
  }

  /** The parameter `name` with value `value` when `present`, nothing otherwise. */
  function Optional(present: bool, name: string, value: string): seq<Param> {
    if present then [Param(name, value)] else []
  }

  lemma OptionalRead(present: bool, name: string, value: string, other: string)
    ensures Lookup(Optional(present, name, value), name) == if present then Some(value) else None
    ensures other != name ==> Lookup(Optional(present, name, value), other).None?
  {
  }

  /** Reading one of the three optional parameters back from the whole query string. */
  lemma {:induction false} TextRead(base: seq<Param>, s: seq<Param>, c: seq<Param>, d: seq<Param>, name: string)
    requires Lookup(base, name).None?
    ensures Lookup(base + s + c + d, name) ==
      if Lookup(s, name).Some? then Lookup(s, name) else if Lookup(c, name).Some? then Lookup(c, name) else Lookup(d, name)
  {
    LookupAppend(base, s, name);
    LookupAppend(base + s, c, name);
    LookupAppend(base + s + c, d, name);
  }

  /** The route reads back the page, a limit of 12, the search text, and each filter
      the client did not leave on 'All' (an omitted parameter reads as empty). */
  lemma SearchQueryRead(search: string, category: string, difficulty: string, page: int)
    ensures ServerQuery(SearchParams(search, category, difficulty, page))
      == Some(RecipeRoutes.ListQuery(search, if category != AllOption then category else "",
                                     if difficulty != AllOption then difficulty else "", page, PageSize))
  {
    var base := BaseParams(page);
    var s := Optional(search != "", "search", search);
    var c := Optional(category != AllOption, "category", category);
    var d := Optional(difficulty != AllOption, "difficulty", difficulty);
    var ps := SearchParams(search, category, difficulty, page);
    assert ps == base + s + c + d;
    assert base + s + c + d == base + (s + c + d);
    var extra: seq<Param> := s + c + d;
    forall k | 0 <= k < |extra| ensures extra[k].name != "page" && extra[k].name != "limit" {
    }
    BaseParamsRead(page, extra);
    OptionalRead(search != "", "search", search, "category");
    OptionalRead(search != "", "search", search, "difficulty");
    OptionalRead(category != AllOption, "category", category, "search");
    OptionalRead(category != AllOption, "category", category, "difficulty");
    OptionalRead(difficulty != AllOption, "difficulty", difficulty, "search");
    OptionalRead(difficulty != AllOption, "difficulty", difficulty, "category");
    TextRead(base, s, c, d, "search");
    TextRead(base, s, c, d, "category");
    TextRead(base, s, c, d, "difficulty");
  }

  /** The listing the search page asks for selects a recipe exactly when it matches
      the search text (if one was typed), has the chosen category (unless 'All') and
      has the chosen difficulty (unless 'All'). */
  lemma SearchSelects(search: string, category: string, difficulty: string, page: int,
                      matches: Recipe -> bool, r: Recipe)
    ensures ServerQuery(SearchParams(search, category, difficulty, page)).Some?
    ensures RecipeRoutes.ListSelects(ServerQuery(SearchParams(search, category, difficulty, page)).value, matches, r)
      <==> && (search != "" ==> matches(r))
           && (category != AllOption && category != "" ==> r.category == category)
           && (difficulty != AllOption && difficulty != "" ==> r.difficulty == difficulty)
  {
    SearchQueryRead(search, category, difficulty, page);
  }

  /** What `fetchRecipes` depends on. */
  datatype FetchDeps = FetchDeps(search: string, category: string, difficulty: string, page: int)

  class SearchPage {
    var search: string
    var category: string
    var difficulty: string
    var currentPage: int
    var totalPages: int
    var hasSearched: bool

    function Deps(): FetchDeps
      reads this
    {
      FetchDeps(search, category, difficulty, currentPage)
    }

    /** The query string `fetchRecipes` sends in this state. */
    function Query(): seq<Param>
      reads this
    {
      SearchParams(search, category, difficulty, currentPage)
    }

    /** The effect after a render that follows the state `before`/`searchedBefore`:
        it fetches when a search has been submitted and either the flag or one of
        `fetchRecipes`'s dependencies changed. */
    function EffectRequests(before: FetchDeps, searchedBefore: bool): (requests: seq<seq<Param>>)
      reads this
      ensures !hasSearched ==> requests == []
      ensures requests != [] ==> requests == [Query()]
    {
      if hasSearched && (searchedBefore != hasSearched || before != Deps()) then [Query()] else []
    }

    /** The pagination bar, present once results are shown and there is more than one page. */
    function Bar(): Option<seq<Entry>>
      reads this
    {
      if hasSearched && Shown(totalPages) then Some(Window(currentPage, totalPages)) else None
    }

    /** The initial state; the mount effect sees no submitted search and fetches nothing. */
    constructor ()
      ensures search == "" && category == AllOption && difficulty == AllOption
      ensures currentPage == 1 && totalPages == 1 && !hasSearched
      ensures Bar().None?
    {
      search, category, difficulty := "", AllOption, AllOption;
      currentPage, totalPages, hasSearched := 1, 1, false;
    }

    /** Typing in the search box; after a submitted search every keystroke refetches. */
    method TypeSearch(text: string) returns (requests: seq<seq<Param>>)
      modifies this`search
      ensures search == text
      ensures requests == EffectRequests(old(Deps()), hasSearched)
      ensures !hasSearched ==> requests == []
      ensures hasSearched && text != old(search) ==> requests == [Query()]
    {
      var before := Deps();
      search := text;
      requests := EffectRequests(before, hasSearched);
    }

    /** Choosing a category resets the page to 1. */
    method SelectCategory(value: string) returns (requests: seq<seq<Param>>)
      modifies this`category, this`currentPage
      ensures category == value && currentPage == 1
      ensures requests == EffectRequests(old(Deps()), hasSearched)
      ensures !hasSearched ==> requests == []
    {
      var before := Deps();
      category := value;
      currentPage := 1;
      requests := EffectRequests(before, hasSearched);
    }

    /** Choosing a difficulty resets the page to 1. */
    method SelectDifficulty(value: string) returns (requests: seq<seq<Param>>)
      modifies this`difficulty, this`currentPage
      ensures difficulty == value && currentPage == 1
      ensures requests == EffectRequests(old(Deps()), hasSearched)
      ensures !hasSearched ==> requests == []
    {
      var before := Deps();
      difficulty := value;
      currentPage := 1;
      requests := EffectRequests(before, hasSearched);
    }

    /** Submitting the form: the handler calls the `fetchRecipes` of the render it
        belongs to, with the page as it was, then resets the page to 1 and marks the
        search submitted; the effect then fetches page 1 unless neither changed. */
    method Submit() returns (requests: seq<seq<Param>>)
      modifies this`currentPage, this`hasSearched
      ensures currentPage == 1 && hasSearched
      ensures requests == [old(Query())] + EffectRequests(old(Deps()), old(hasSearched))
      ensures !old(hasSearched) || old(currentPage) != 1 ==> requests == [old(Query()), Query()]
      ensures Query() == SearchParams(search, category, difficulty, 1)
    {
      var before, searchedBefore := Deps(), hasSearched;
      requests := [Query()];
      currentPage := 1;
      hasSearched := true;
      requests := requests + EffectRequests(before, searchedBefore);
    }

    /** `setTotalPages(response.data.totalPages)`; the page count is not a dependency
        of `fetchRecipes`, so nothing is refetched. */
    method ReceivePageCount(count: int)
      modifies this`totalPages
      ensures totalPages == count
    {
      totalPages := count;
    }

    /** First: `setCurrentPage(1)`. */
    method First() returns (requests: seq<seq<Param>>)
      modifies this`currentPage
      ensures currentPage == 1
      ensures requests == EffectRequests(old(Deps()), hasSearched)
    {
      var before := Deps();
      currentPage := 1;
      requests := EffectRequests(before, hasSearched);
    }

    /** Prev: one page back, never below 1. */
    method Prev() returns (requests: seq<seq<Param>>)
      modifies this`currentPage
      ensures currentPage == PrevPage(old(currentPage))
      ensures 1 <= old(currentPage) <= totalPages ==> 1 <= currentPage <= totalPages
      ensures PrevDisabled(old(currentPage)) ==> currentPage == old(currentPage) && requests == []
      ensures requests == EffectRequests(old(Deps()), hasSearched)
    {
      var before := Deps();
      currentPage := PrevPage(currentPage);
      requests := EffectRequests(before, hasSearched);
    }

    /** Next: one page on, never beyond the last page. */
    method Next() returns (requests: seq<seq<Param>>)
      modifies this`currentPage
      ensures currentPage == NextPage(old(currentPage), totalPages)
      ensures 1 <= old(currentPage) <= totalPages ==> 1 <= currentPage <= totalPages
      ensures NextDisabled(old(currentPage), totalPages) ==> currentPage == old(currentPage) && requests == []
      ensures requests == EffectRequests(old(Deps()), hasSearched)
    {
      var before := Deps();
      currentPage := NextPage(currentPage, totalPages);
      requests := EffectRequests(before, hasSearched);
    }

    /** Last: `setCurrentPage(totalPages)`. */
    method Last() returns (requests: seq<seq<Param>>)
      modifies this`currentPage
      ensures currentPage == totalPages
      ensures requests == EffectRequests(old(Deps()), hasSearched)
    {
      var before := Deps();
      currentPage := totalPages;
      requests := EffectRequests(before, hasSearched);
    }

    /** Clicking a numbered item of the bar. */
    method SelectPage(page: int) returns (requests: seq<seq<Param>>)
      requires Bar().Some? && Item(page, page == currentPage) in Bar().value
      modifies this`currentPage
      ensures currentPage == page && 1 <= page <= totalPages
      ensures requests == EffectRequests(old(Deps()), hasSearched)
    {
      WindowItems(currentPage, totalPages, page, page == currentPage);
      var before := Deps();
      currentPage := page;
      requests := EffectRequests(before, hasSearched);
    }
  }
}
