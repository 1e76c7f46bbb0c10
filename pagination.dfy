/** The pagination bar that client/src/pages/SearchRecipes.js and
    client/src/pages/BrowseRecipes.js both render: which pages appear as items,
    which as an ellipsis, which item is active, and how First, Prev, Next and Last
    move the current page. */
module Pagination {
  import opened Common

  /** An entry of the bar: a numbered item (active or not) or a disabled ellipsis
      standing for page `page`. */
  datatype Entry = Item(page: int, active: bool) | Ellipsis(page: int)

  /** The bar is rendered only when there is more than one page. */
  predicate Shown(totalPages: int) {
    totalPages > 1
  }

  /** Pages 1 and `totalPages`, and every page within one of the current page, are items. */
  predicate IsItem(page: int, current: int, totalPages: int) {
    page == 1 || page == totalPages || (current - 1 <= page <= current + 1)
  }

  /** A page two away from the current one that is not already an item is an ellipsis. */
  predicate IsEllipsis(page: int, current: int, totalPages: int) {
    !IsItem(page, current, totalPages) && (page == current - 2 || page == current + 2)
  }

  /** What the map over the page indices returns for one page; None is `null`. */
  function Slot(page: int, current: int, totalPages: int): Option<Entry> {
    if IsItem(page, current, totalPages) then Some(Item(page, page == current))
    else if IsEllipsis(page, current, totalPages) then Some(Ellipsis(page))
    else None
  }

  /** The entries for pages `from` to `totalPages`, in page order. */
  function WindowFrom(from: int, current: int, totalPages: int): (w: seq<Entry>)
    ensures forall i :: 0 <= i < |w| ==> from <= w[i].page <= totalPages
    ensures forall i :: 0 <= i < |w| ==> Slot(w[i].page, current, totalPages) == Some(w[i])
    ensures forall i, j :: 0 <= i < j < |w| ==> w[i].page < w[j].page
    ensures forall q :: from <= q <= totalPages && Slot(q, current, totalPages).Some? ==>
      Slot(q, current, totalPages).value in w
    decreases totalPages - from
  {
    if from > totalPages then []
    else
      var rest := WindowFrom(from + 1, current, totalPages);
      match Slot(from, current, totalPages)
      case None => rest
      case Some(e) => [e] + rest
  }

  /** `[...Array(totalPages)].map(...)`: the bar's entries between First/Prev and Next/Last. */
  function Window(current: int, totalPages: int): seq<Entry> {
    WindowFrom(1, current, totalPages)
  }

  /** A page is an item of the bar exactly when it is 1, the last page or within one
      of the current page, and that item is active exactly when it is the current page. */
  lemma WindowItems(current: int, totalPages: int, page: int, active: bool)
    ensures Item(page, active) in Window(current, totalPages) <==>
      1 <= page <= totalPages && IsItem(page, current, totalPages) && active == (page == current)
  {
    var w := Window(current, totalPages);
    if Item(page, active) in w {
      var i :| 0 <= i < |w| && w[i] == Item(page, active);
      assert Slot(page, current, totalPages) == Some(Item(page, active));
    }
    if 1 <= page <= totalPages && IsItem(page, current, totalPages) && active == (page == current) {
      assert Slot(page, current, totalPages) == Some(Item(page, active));
    }
  }

  /** A page is an ellipsis exactly when it lies two away from the current page and is
      not an item; every other page is left out. */
  lemma WindowEllipses(current: int, totalPages: int, page: int)
    ensures Ellipsis(page) in Window(current, totalPages) <==>
      1 <= page <= totalPages && IsEllipsis(page, current, totalPages)
    ensures 1 <= page <= totalPages && !IsItem(page, current, totalPages) && !IsEllipsis(page, current, totalPages) ==>
      forall i :: 0 <= i < |Window(current, totalPages)| ==> Window(current, totalPages)[i].page != page
  {
    var w := Window(current, totalPages);
    if Ellipsis(page) in w {
      var i :| 0 <= i < |w| && w[i] == Ellipsis(page);
      assert Slot(page, current, totalPages) == Some(Ellipsis(page));
    }
    if 1 <= page <= totalPages && IsEllipsis(page, current, totalPages) {
      assert Slot(page, current, totalPages) == Some(Ellipsis(page));
    }
  }

  /** Exactly one entry is active when the current page is in range, and it is the item of
      the current page; when the current page is out of range no entry is active. */
  lemma ExactlyOneActive(current: int, totalPages: int)
    ensures var w := Window(current, totalPages);
      forall i :: 0 <= i < |w| && w[i].Item? && w[i].active ==> w[i].page == current
    ensures var w := Window(current, totalPages);
      forall i, j :: 0 <= i < |w| && 0 <= j < |w| && w[i].Item? && w[i].active && w[j].Item? && w[j].active ==> i == j
    ensures 1 <= current <= totalPages ==>
      exists i :: 0 <= i < |Window(current, totalPages)| && Window(current, totalPages)[i] == Item(current, true)
  {
    var w := Window(current, totalPages);
    forall i, j | 0 <= i < |w| && 0 <= j < |w| && w[i].Item? && w[i].active && w[j].Item? && w[j].active
      ensures i == j
    {
      assert Slot(w[i].page, current, totalPages) == Some(w[i]);
      assert Slot(w[j].page, current, totalPages) == Some(w[j]);
    }
    if 1 <= current <= totalPages {
      assert Slot(current, current, totalPages) == Some(Item(current, true));
      assert Item(current, true) in w;
    }
  }

  /** How many pages from `from` upwards lie within two of the current page. */
  function NearCount(from: int, current: int): nat {
    var lo := if from > current - 2 then from else current - 2;
    if current + 2 < lo then 0 else current + 2 - lo + 1
  }

  /** An upper bound on the entries for pages `from` to `totalPages`: page 1, the last
      page, and the pages near the current one that are still ahead. */
  function EntryBound(from: int, current: int, totalPages: int): nat {
    (if from <= 1 then 1 else 0) + (if from <= totalPages then 1 else 0) + NearCount(from, current)
  }

  lemma {:induction false} WindowFromBound(from: int, current: int, totalPages: int)
    ensures |WindowFrom(from, current, totalPages)| <= EntryBound(from, current, totalPages)
    decreases totalPages - from
  {
    if from <= totalPages {
      WindowFromBound(from + 1, current, totalPages);
    }
  }

  /** The bar never holds more than seven entries between its arrows: the first page,
      the last page, and the five pages around the current one. */
  lemma WindowAtMostSeven(current: int, totalPages: int)
    ensures |Window(current, totalPages)| <= 7
  {
    WindowFromBound(1, current, totalPages);
  }

  // ---------------------------------------------------------------------------
  // The First, Prev, Next and Last buttons

  /** `setCurrentPage(prev => Math.max(prev - 1, 1))`. */
  function PrevPage(current: int): int {
    if current - 1 >= 1 then current - 1 else 1
  }

  /** `setCurrentPage(prev => Math.min(prev + 1, totalPages))`. */
  function NextPage(current: int, totalPages: int): int {
    if current + 1 <= totalPages then current + 1 else totalPages
  }

  /** First and Prev are disabled on page 1. */
  predicate PrevDisabled(current: int) {
    current == 1
  }

  /** Next and Last are disabled on the last page. */
  predicate NextDisabled(current: int, totalPages: int) {
    current == totalPages
  }

  /** Prev and Next keep the page within [1, totalPages] once it is there, move it by
      one page when they are enabled, and Prev never leaves page 1 nor Next the last page. */
  lemma StepsStayInRange(current: int, totalPages: int)
    requires 1 <= current <= totalPages
    ensures 1 <= PrevPage(current) <= totalPages && 1 <= NextPage(current, totalPages) <= totalPages
    ensures PrevDisabled(current) <==> PrevPage(current) == current
    ensures NextDisabled(current, totalPages) <==> NextPage(current, totalPages) == current
    ensures !PrevDisabled(current) ==> PrevPage(current) == current - 1
    ensures !NextDisabled(current, totalPages) ==> NextPage(current, totalPages) == current + 1
  {
  }

  /** From a page beyond the last one (a stale page after the result shrank), Next goes
      straight to the last page; Prev only steps back by one. */
  lemma NextClampsStalePage(current: int, totalPages: int)
    requires totalPages >= 1 && current > totalPages
    ensures NextPage(current, totalPages) == totalPages
    ensures PrevPage(current) == current - 1
  {
  }
}
