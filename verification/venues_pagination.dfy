/** The pager under the venue list (`src/features/venues/VenuesPagination.tsx`):
    the 1-based range of items shown and the two buttons.

    The page number is a JavaScript number, so it is a `real`; the counts are
    whole numbers.
 */
module VenuesPagination {
  import opened Wrappers
  import VenuesList
  import Venues

  /** What the pager shows: the first and last item numbers and which
      buttons are enabled. */
  datatype Controls = Controls(firstItem: real, lastItem: real, canGoPrev: bool, canGoNext: bool)

  /** The two buttons. */
  datatype Button = Previous | Next

  /** The pager: nothing for an empty list; otherwise the first item of the
      page, the last one (0 when the page is empty), and the buttons, both
      disabled while loading. */
  function Render(page: real, total: int, pageSize: int, currentCount: int, hasNextPage: bool, isLoading: bool): (r: Option<Controls>)
    ensures r.None? <==> total == 0
    ensures r.Some? ==> r.value.firstItem == (page - 1.0) * (pageSize as real) + 1.0
    ensures r.Some? && currentCount == 0 ==> r.value.lastItem == 0.0
    ensures r.Some? && currentCount != 0 ==> r.value.lastItem - r.value.firstItem + 1.0 == currentCount as real
    ensures r.Some? ==> (r.value.canGoPrev <==> page > 1.0 && !isLoading)
    ensures r.Some? ==> (r.value.canGoNext <==> hasNextPage && !isLoading)
  {
    if total == 0 then None
    else
      var firstItem := (page - 1.0) * (pageSize as real) + 1.0;
      var lastItem := if currentCount == 0 then 0.0 else firstItem + (currentCount as real) - 1.0;
      Some(Controls(firstItem, lastItem, page > 1.0 && !isLoading, hasNextPage && !isLoading))
  }

  /** A click: the page requested, or nothing when the button is disabled. */
  function Click(controls: Controls, page: real, button: Button): (r: Option<real>)
    ensures button.Previous? ==> (r.Some? <==> controls.canGoPrev)
    ensures button.Next? ==> (r.Some? <==> controls.canGoNext)
    ensures r.Some? && button.Previous? ==> r.value + 1.0 == page
    ensures r.Some? && button.Next? ==> r.value - 1.0 == page
  {
    match button
    case Previous => if controls.canGoPrev then Some(page - 1.0) else None
    case Next => if controls.canGoNext then Some(page + 1.0) else None
  }

  /** Previous only ever requests a positive page, which the list keeps as
      its current page rather than falling back to page 1. */
  lemma PreviousStaysPositive(page: real, total: int, pageSize: int, currentCount: int, hasNextPage: bool, isLoading: bool)
    requires total != 0
    ensures var c := Render(page, total, pageSize, currentCount, hasNextPage, isLoading).value;
      Click(c, page, Previous).Some? ==> Click(c, page, Previous).value > 0.0
  {
  }

  /** Fed by the venue list on a whole page `p`: the pager shows items
      `(p-1)*20+1` to `min(p*20, total)`, which is exactly how many the page
      holds, and Next is offered (when not loading) exactly when the page
      after it has venues. */
  lemma PagerMatchesList(processed: seq<Venues.Venue>, p: int, isLoading: bool)
    requires p >= 1
    requires (p - 1) * VenuesList.PageSize < |processed|
    ensures var items := VenuesList.PageItems(processed, p as real);
      var c := Render(p as real, |processed|, VenuesList.PageSize, |items|,
                      VenuesList.HasNextPage(|processed|, p as real), isLoading);
      && c.Some?
      && c.value.firstItem == ((p - 1) * VenuesList.PageSize + 1) as real
      && c.value.lastItem == (if p * VenuesList.PageSize < |processed| then p * VenuesList.PageSize else |processed|) as real
      && (c.value.canGoNext <==> !isLoading && |VenuesList.PageItems(processed, (p + 1) as real)| > 0)
  {
    VenuesList.PageItemsWhole(processed, p);
    VenuesList.HasNextPageIffMore(processed, p);
    assert (p as real - 1.0) * (VenuesList.PageSize as real) + 1.0 == ((p - 1) * VenuesList.PageSize + 1) as real;
  }
}
