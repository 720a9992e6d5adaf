/** The dashboard's pager: the "Showing X to Y of N entries" range, the
    Previous and Next buttons, and one button per page. Callers compute the
    page count as `Math.ceil(totalItems / itemsPerPage)`. */
module Pagination {
  import opened Models

  /** `Math.ceil(n / k)` for a positive `k`. */
  function CeilDiv(n: int, k: int): (d: int)
    requires k > 0
    ensures (d - 1) * k < n <= d * k
  {
    -((-n) / k)
  }

  datatype PageButton = PageButton(page: int, highlighted: bool)

  datatype View = View(startItem: int, endItem: int, totalItems: int,
                       previousDisabled: bool, nextDisabled: bool, buttons: seq<PageButton>)

  function Min(a: int, b: int): int {
    if a <= b then a else b
  }

  /** The pager: nothing for a single page, otherwise the shown range, the
      two arrow buttons and a button for each page 1..totalPages. */
  function Render(currentPage: int, totalPages: int, itemsPerPage: int, totalItems: int): (r: Option<View>)
    ensures r.None? <==> totalPages <= 1
    ensures r.Some? ==> r.value.totalItems == totalItems
    ensures r.Some? ==> r.value.startItem == (currentPage - 1) * itemsPerPage + 1
    ensures r.Some? ==> r.value.endItem <= totalItems && r.value.endItem <= currentPage * itemsPerPage
    ensures r.Some? ==> r.value.endItem == totalItems || r.value.endItem == currentPage * itemsPerPage
    ensures r.Some? ==> (r.value.previousDisabled <==> currentPage == 1)
    ensures r.Some? ==> (r.value.nextDisabled <==> currentPage == totalPages)
    ensures r.Some? ==> |r.value.buttons| == totalPages
    ensures r.Some? ==> forall i :: 0 <= i < |r.value.buttons| ==>
                          r.value.buttons[i].page == i + 1
                          && (r.value.buttons[i].highlighted <==> currentPage == i + 1)
  {
    if totalPages <= 1 then None
    else
      Some(View((currentPage - 1) * itemsPerPage + 1, Min(currentPage * itemsPerPage, totalItems), totalItems,
                currentPage == 1, currentPage == totalPages,
                seq(totalPages, i => PageButton(i + 1, currentPage == i + 1))))
  }

  lemma MulLe(a: int, b: int, k: int)
    requires a <= b && k >= 0
    ensures a * k <= b * k
  {
    assert b * k - a * k == (b - a) * k;
  }

  /** On any page the range shown is non-empty, within 1..totalItems, and at
      most one page long. */
  lemma RangeWithinItems(currentPage: int, itemsPerPage: int, totalItems: int)
    requires itemsPerPage > 0 && CeilDiv(totalItems, itemsPerPage) > 1
    requires 1 <= currentPage <= CeilDiv(totalItems, itemsPerPage)
    ensures var v := Render(currentPage, CeilDiv(totalItems, itemsPerPage), itemsPerPage, totalItems).value;
      && 1 <= v.startItem <= v.endItem <= totalItems
      && v.endItem - v.startItem < itemsPerPage
  {
    var pages := CeilDiv(totalItems, itemsPerPage);
    MulLe(currentPage - 1, pages - 1, itemsPerPage);
    MulLe(0, currentPage - 1, itemsPerPage);
    assert currentPage * itemsPerPage == (currentPage - 1) * itemsPerPage + itemsPerPage;
  }

  /** Consecutive pages continue where the previous one stopped, and the last
      page ends at the last item: the pages show every item exactly once. */
  lemma PagesTile(currentPage: int, itemsPerPage: int, totalItems: int)
    requires itemsPerPage > 0 && CeilDiv(totalItems, itemsPerPage) > 1
    requires 1 <= currentPage <= CeilDiv(totalItems, itemsPerPage)
    ensures var pages := CeilDiv(totalItems, itemsPerPage);
      currentPage < pages ==>
        Render(currentPage, pages, itemsPerPage, totalItems).value.endItem + 1
        == Render(currentPage + 1, pages, itemsPerPage, totalItems).value.startItem
    ensures var pages := CeilDiv(totalItems, itemsPerPage);
      Render(pages, pages, itemsPerPage, totalItems).value.endItem == totalItems
  {
    var pages := CeilDiv(totalItems, itemsPerPage);
    if currentPage < pages {
      MulLe(currentPage, pages - 1, itemsPerPage);
    }
  }
}
