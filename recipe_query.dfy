/** The query string that client/src/pages/SearchRecipes.js and
    client/src/pages/BrowseRecipes.js send to `GET /api/recipes`, and how the list
    route reads it back (`const { search, category, difficulty, page = 1,
    limit = 12 } = req.query`). */
module RecipeQuery {
  import opened Common
  import RecipeRoutes

  /** Both pages ask for twelve recipes per page. */
  const PageSize: int := 12

  datatype Param = Param(name: string, value: string)

  /** `new URLSearchParams({ page: currentPage, limit: 12 })`. */
  function BaseParams(page: int): seq<Param> {
    [Param("page", DecimalString(page)), Param("limit", DecimalString(PageSize))]
  }

  /** The value of the first parameter called `name` (`params.get(name)`), None
      when there is none. */
  function Lookup(ps: seq<Param>, name: string): (v: Option<string>)
    ensures v.None? <==> forall k :: 0 <= k < |ps| ==> ps[k].name != name
    ensures v.Some? ==> Param(name, v.value) in ps
  {
    if ps == [] then None
    else if ps[0].name == name then Some(ps[0].value)
    else Lookup(ps[1..], name)
  }

  /** Looking a name up in two lists in a row looks in the first, then the second. */
  lemma {:induction false} LookupAppend(a: seq<Param>, b: seq<Param>, name: string)
    ensures Lookup(a + b, name) == if Lookup(a, name).Some? then Lookup(a, name) else Lookup(b, name)
  {
    if a != [] {
      assert (a + b)[1..] == a[1..] + b;
      LookupAppend(a[1..], b, name);
    } else {
      assert a + b == b;
    }
  }

  /** A query string parameter the list route reads as text: an absent one is
      `undefined`, which the route treats as the empty string does. */
  function TextParam(ps: seq<Param>, name: string): string {
    match Lookup(ps, name)
    case None => ""
    case Some(v) => v
  }

  /** A numeric parameter: absent means the default; a present one is read as an
      integer literal (any other text would make the arithmetic NaN, which is not
      modelled: None). */
  function NumberParam(ps: seq<Param>, name: string, default: int): Option<int> {
    match Lookup(ps, name)
    case None => Some(default)
    case Some(v) => RecipeRoutes.ParseInteger(v)
  }

  /** The list query the route builds from a query string. */
  function ServerQuery(ps: seq<Param>): Option<RecipeRoutes.ListQuery> {
    var page := NumberParam(ps, "page", RecipeRoutes.DefaultPage);
    var limit := NumberParam(ps, "limit", RecipeRoutes.DefaultListLimit);
    if page.None? || limit.None? then None
    else Some(RecipeRoutes.ListQuery(TextParam(ps, "search"), TextParam(ps, "category"),
                                     TextParam(ps, "difficulty"), page.value, limit.value))
  }

  /** The page and limit the client writes are the page and limit the route reads. */
  lemma BaseParamsRead(page: int, extra: seq<Param>)
    requires forall k :: 0 <= k < |extra| ==> extra[k].name != "page" && extra[k].name != "limit"
    ensures NumberParam(BaseParams(page) + extra, "page", RecipeRoutes.DefaultPage) == Some(page)
    ensures NumberParam(BaseParams(page) + extra, "limit", RecipeRoutes.DefaultListLimit) == Some(PageSize)
  {
    var ps := BaseParams(page) + extra;
    assert ps[0] == Param("page", DecimalString(page));
    assert ps[1..][0] == Param("limit", DecimalString(PageSize));
    RecipeRoutes.DecimalParses(page);
    RecipeRoutes.DecimalParses(PageSize);
  }
}
