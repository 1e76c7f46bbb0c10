/** The browse page, client/src/pages/BrowseRecipes.js: the current page and the page
    count the server last reported. `fetchRecipes` depends on the current page only,
    and the effect that calls it runs on mount and whenever the page changes; each
    button handler is a method that steps the state and returns the request that
    effect makes. The network, the loading flag and the rendering are not modelled. */
module BrowseRecipes {
  import opened Common
  import opened RecipeQuery
  import opened Pagination
  import opened RecipeModel
  import RecipeRoutes

  /** The route reads back the page and a limit of 12, with no search and no filter. */
  lemma BrowseQueryRead(page: int)
    ensures ServerQuery(BaseParams(page)) == Some(RecipeRoutes.ListQuery("", "", "", page, PageSize))
  {
    var ps := BaseParams(page);
    assert ps == ps + [];
    BaseParamsRead(page, []);
    assert Lookup(ps, "search").None? && Lookup(ps, "category").None? && Lookup(ps, "difficulty").None?;
  }

  /** Every page of the browse listing is a page of all recipes, newest first. */
  lemma BrowseSelectsAll(page: int, matches: Recipe -> bool, r: Recipe)
    ensures ServerQuery(BaseParams(page)).Some?
    ensures RecipeRoutes.ListSelects(ServerQuery(BaseParams(page)).value, matches, r)
  {
    BrowseQueryRead(page);
  }

  class BrowsePage {
    var currentPage: int
    var totalPages: int

    /** The query string `fetchRecipes` sends in this state. */
    function Query(): seq<Param>
      reads this
    {
      BaseParams(currentPage)
    }

    /** The effect after a render: `fetchRecipes` is a new function exactly when the
        page changed, and then it is called. */
    function EffectRequests(pageBefore: int): (requests: seq<seq<Param>>)
      reads this
      ensures requests == [] <==> pageBefore == currentPage
      ensures requests != [] ==>
        && |requests| == 1
        && ServerQuery(requests[0]) == Some(RecipeRoutes.ListQuery("", "", "", currentPage, PageSize))
    {
      BrowseQueryRead(currentPage);
      if pageBefore != currentPage then [Query()] else []
    }

    /** The pagination bar, present when there is more than one page. */
    function Bar(): Option<seq<Entry>>
      reads this
    {
      if Shown(totalPages) then Some(Window(currentPage, totalPages)) else None
    }

    /** The initial state. */
    constructor ()
      ensures currentPage == 1 && totalPages == 1
      ensures Bar().None?
    {
      currentPage, totalPages := 1, 1;
    }

    /** The effect's first run, on mount: it fetches the current page whatever it is. */
    method Mount() returns (requests: seq<seq<Param>>)
      ensures |requests| == 1
      ensures ServerQuery(requests[0]) == Some(RecipeRoutes.ListQuery("", "", "", currentPage, PageSize))
    {
      BrowseQueryRead(currentPage);
      requests := [Query()];
    }

    /** `setTotalPages(response.data.totalPages)`; not a dependency of the fetch. */
    method ReceivePageCount(count: int)
      modifies this`totalPages
      ensures totalPages == count
    {
      totalPages := count;
    }

    /** First: `setCurrentPage(1)`. */
    method First() returns (requests: seq<seq<Param>>)
      modifies this`currentPage
      ensures currentPage == 1
      ensures requests == EffectRequests(old(currentPage))
    {
      var before := currentPage;
      currentPage := 1;
      requests := EffectRequests(before);
    }

    /** Prev: one page back, never below 1. */
    method Prev() returns (requests: seq<seq<Param>>)
      modifies this`currentPage
      ensures currentPage == PrevPage(old(currentPage))
      ensures 1 <= old(currentPage) <= totalPages ==> 1 <= currentPage <= totalPages
      ensures PrevDisabled(old(currentPage)) ==> currentPage == old(currentPage) && requests == []
      ensures requests == EffectRequests(old(currentPage))
    {
      var before := currentPage;
      currentPage := PrevPage(currentPage);
      requests := EffectRequests(before);
    }

    /** Next: one page on, never beyond the last page. */
    method Next() returns (requests: seq<seq<Param>>)
      modifies this`currentPage
      ensures currentPage == NextPage(old(currentPage), totalPages)
      ensures 1 <= old(currentPage) <= totalPages ==> 1 <= currentPage <= totalPages
      ensures NextDisabled(old(currentPage), totalPages) ==> currentPage == old(currentPage) && requests == []
      ensures requests == EffectRequests(old(currentPage))
    {
      var before := currentPage;
      currentPage := NextPage(currentPage, totalPages);
      requests := EffectRequests(before);
    }

    /** Last: `setCurrentPage(totalPages)`. */
    method Last() returns (requests: seq<seq<Param>>)
      modifies this`currentPage
      ensures currentPage == totalPages
      ensures requests == EffectRequests(old(currentPage))
    {
      var before := currentPage;
      currentPage := totalPages;
      requests := EffectRequests(before);
    }

    /** Clicking a numbered item of the bar; the active item refetches nothing. */
    method SelectPage(page: int) returns (requests: seq<seq<Param>>)
      requires Bar().Some? && Item(page, page == currentPage) in Bar().value
      modifies this`currentPage
      ensures currentPage == page && 1 <= page <= totalPages
      ensures requests == EffectRequests(old(currentPage))
      ensures requests == [] <==> page == old(currentPage)
    {
      WindowItems(currentPage, totalPages, page, page == currentPage);
      var before := currentPage;
      currentPage := page;
      requests := EffectRequests(before);
    }
  }
}
