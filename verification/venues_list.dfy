/** The venue browser (`src/features/venues/VenuesList.tsx`): reading the
    URL's search parameters, filtering and ordering all venues, cutting out
    the current page, and writing the parameters back.

    The search parameters are a map from name to value. `Number(...)` and
    `String(...)` are the abstract conversions of `Numbers.Conversions`, and
    `collate(a, b)` stands for `a.localeCompare(b) <= 0`.
 */
module VenuesList {
  import opened Wrappers
  import opened Numbers
  import opened Text
  import opened Venues
  import Seqs
  import Sorting

  /** Venues per page. */
  const PageSize: int := 20

  /** The URL's search parameters. */
  type Params = map<string, string>

  /** `searchParams.get(key)`. */
  function Param(params: Params, key: string): Option<string> {
    if key in params then Some(params[key]) else None
  }

  /** The orderings the filter bar offers. */
  datatype SortKey = NameAsc | NameDesc | Newest | Oldest | Recommended

  /** The `switch` over the `sort` parameter: unknown or missing values fall
      to the recommended order. */
  function SortKeyOf(param: Option<string>): SortKey {
    if param == Some("name-asc") then NameAsc
    else if param == Some("name-desc") then NameDesc
    else if param == Some("newest") then Newest
    else if param == Some("oldest") then Oldest
    else Recommended
  }

  /** The current page: the `page` parameter (default `"1"`) when it is a
      finite number above zero, otherwise 1. */
  function CurrentPage(params: Params, conv: Conversions): (page: real)
    ensures page > 0.0
    ensures page != 1.0 ==> conv.toNumber(Param(params, "page").GetOr("1")) == Finite(page)
    ensures var n := conv.toNumber(Param(params, "page").GetOr("1"));
      n.Finite? && n.value > 0.0 ==> page == n.value
  {
    var n := conv.toNumber(Param(params, "page").GetOr("1"));
    if n.Finite? && n.value > 0.0 then n.value else 1.0
  }

  /** A numeric filter parameter: absent when empty, and discarded when it
      is not a number. */
  function NumericFilter(raw: string, conv: Conversions): (r: Option<JsNumber>)
    ensures raw == "" ==> r.None?
    ensures raw != "" && !conv.toNumber(raw).NaN? ==> r == Some(conv.toNumber(raw))
    ensures r.Some? ==> !r.value.NaN? && r.value == conv.toNumber(raw)
  {
    if raw == "" then None
    else
      var n := conv.toNumber(raw);
      if n.NaN? then None else Some(n)
  }

  /** The min-guests test, passing everything when there is no bound. */
  function MinGuestsOk(minGuests: Option<JsNumber>): Venue -> bool {
    (v: Venue) => minGuests.None? || AtLeast(v.maxGuests as real, minGuests.value)
  }

  /** The max-price test, passing everything when there is no bound. */
  function MaxPriceOk(maxPrice: Option<JsNumber>): Venue -> bool {
    (v: Venue) => maxPrice.None? || AtMost(v.price, maxPrice.value)
  }

  /** A venue's rating for ordering; a missing rating counts as 0. */
  function Rating(v: Venue): real {
    v.rating.GetOr(0.0)
  }

  /** The recommended comparator (higher rating first, then newer first) as
      "may stay in front". */
  predicate RecommendedBefore(a: Venue, b: Venue) {
    Rating(a) > Rating(b) || (Rating(a) == Rating(b) && a.created >= b.created)
  }

  /** The comparator chosen by the sort key, as "may stay in front". */
  function Order(key: SortKey, collate: (string, string) -> bool): (Venue, Venue) -> bool {
    match key
    case NameAsc => (a: Venue, b: Venue) => collate(a.name, b.name)
    case NameDesc => (a: Venue, b: Venue) => collate(b.name, a.name)
    case Newest => (a: Venue, b: Venue) => b.created <= a.created
    case Oldest => (a: Venue, b: Venue) => a.created <= b.created
    case Recommended => (a: Venue, b: Venue) => RecommendedBefore(a, b)
  }

  /** Every ordering compares any two venues. */
  lemma OrderTotal(key: SortKey, collate: (string, string) -> bool, s: seq<Venue>)
    requires forall x, y :: collate(x, y) || collate(y, x)
    ensures Sorting.TotalOn(Order(key, collate), s)
  {
    forall a, b | a in s && b in s ensures Order(key, collate)(a, b) || Order(key, collate)(b, a) {
      assert collate(a.name, b.name) || collate(b.name, a.name);
    }
  }

  /** `processed`: the venues passing both filters, sorted by the
      chosen ordering. */
  function Processed(all: seq<Venue>, minGuests: Option<JsNumber>, maxPrice: Option<JsNumber>,
                     key: SortKey, collate: (string, string) -> bool): (r: seq<Venue>)
    requires forall x, y :: collate(x, y) || collate(y, x)
    ensures multiset(r) == multiset(Seqs.Filter(MaxPriceOk(maxPrice), Seqs.Filter(MinGuestsOk(minGuests), all)))
    ensures Sorting.Sorted(Order(key, collate), r)
  {
    var kept := Seqs.Filter(MaxPriceOk(maxPrice), Seqs.Filter(MinGuestsOk(minGuests), all));
    OrderTotal(key, collate, kept);
    Sorting.SortBy(Order(key, collate), kept)
  }

  /** A venue is listed exactly when it is one of the venues and passes both
      filters: at least `minGuests` guests and at most `maxPrice` per night,
      each test dropped when its bound is absent. */
  lemma ProcessedMembers(all: seq<Venue>, minGuests: Option<JsNumber>, maxPrice: Option<JsNumber>,
                         key: SortKey, collate: (string, string) -> bool, v: Venue)
    requires forall x, y :: collate(x, y) || collate(y, x)
    ensures v in Processed(all, minGuests, maxPrice, key, collate) <==>
      && v in all
      && (minGuests.None? || AtLeast(v.maxGuests as real, minGuests.value))
      && (maxPrice.None? || AtMost(v.price, maxPrice.value))
  {
    var r := Processed(all, minGuests, maxPrice, key, collate);
    var guests := Seqs.Filter(MinGuestsOk(minGuests), all);
    Seqs.FilterMembership(MinGuestsOk(minGuests), all, v);
    Seqs.FilterMembership(MaxPriceOk(maxPrice), guests, v);
    assert v in r <==> v in multiset(r);
  }

  /** Without bounds and with an order that keeps everything in place, every
      venue is listed in its original order. */
  lemma NoFiltersKeepsAll(all: seq<Venue>)
    ensures Seqs.Filter(MaxPriceOk(None), Seqs.Filter(MinGuestsOk(None), all)) == all
  {
    Seqs.FilterAll(MinGuestsOk(None), all);
    Seqs.FilterAll(MaxPriceOk(None), all);
  }

  /** In the recommended order ratings never increase, and among equal
      ratings the newer venue comes first. */
  lemma RecommendedOrder(all: seq<Venue>, minGuests: Option<JsNumber>, maxPrice: Option<JsNumber>,
                         collate: (string, string) -> bool, i: int)
    requires forall x, y :: collate(x, y) || collate(y, x)
    requires 0 < i < |Processed(all, minGuests, maxPrice, Recommended, collate)|
    ensures var r := Processed(all, minGuests, maxPrice, Recommended, collate);
      Rating(r[i - 1]) >= Rating(r[i])
      && (Rating(r[i - 1]) == Rating(r[i]) ==> r[i - 1].created >= r[i].created)
  {
    var r := Processed(all, minGuests, maxPrice, Recommended, collate);
    assert Order(Recommended, collate)(r[i - 1], r[i]);
  }

  /** The list the page shows before paging: the bounds and the ordering
      read from the URL, applied to all venues. */
  function Listed(params: Params, all: seq<Venue>, conv: Conversions,
                  collate: (string, string) -> bool): (r: seq<Venue>)
    requires forall x, y :: collate(x, y) || collate(y, x)
    ensures Sorting.Sorted(Order(SortKeyOf(Param(params, "sort")), collate), r)
    ensures |r| <= |all|
  {
    var minGuests := NumericFilter(Param(params, "minGuests").GetOr(""), conv);
    var maxPrice := NumericFilter(Param(params, "maxPrice").GetOr(""), conv);
    var kept := Seqs.Filter(MaxPriceOk(maxPrice), Seqs.Filter(MinGuestsOk(minGuests), all));
    assert |multiset(kept)| == |kept|;
    Processed(all, minGuests, maxPrice, SortKeyOf(Param(params, "sort")), collate)
  }

  /** A venue is listed exactly when it is one of the venues and meets each
      bound the URL gives as a number; an absent, empty or non-numeric
      `minGuests` or `maxPrice` tests nothing. */
  lemma ListedFromUrl(params: Params, all: seq<Venue>, conv: Conversions,
                      collate: (string, string) -> bool, v: Venue)
    requires forall x, y :: collate(x, y) || collate(y, x)
    ensures var g, p := Param(params, "minGuests").GetOr(""), Param(params, "maxPrice").GetOr("");
      v in Listed(params, all, conv, collate) <==>
        && v in all
        && (g == "" || conv.toNumber(g).NaN? || AtLeast(v.maxGuests as real, conv.toNumber(g)))
        && (p == "" || conv.toNumber(p).NaN? || AtMost(v.price, conv.toNumber(p)))
  {
    var minGuests := NumericFilter(Param(params, "minGuests").GetOr(""), conv);
    var maxPrice := NumericFilter(Param(params, "maxPrice").GetOr(""), conv);
    ProcessedMembers(all, minGuests, maxPrice, SortKeyOf(Param(params, "sort")), collate, v);
  }

  /** `processed.slice(start, start + PAGE_SIZE)` with
      `start = (page - 1) * PAGE_SIZE`. */
  function PageItems(processed: seq<Venue>, page: real): (r: seq<Venue>)
    ensures |r| <= PageSize
  {
    var start := (page - 1.0) * (PageSize as real);
    TruncShift(start, PageSize as real);
    Slice(processed, start, start + PageSize as real)
  }

  /** Truncation moves by at most the shift. */
  lemma TruncShift(x: real, d: real)
    requires d >= 0.0
    ensures Trunc(x + d) - Trunc(x) <= d.Floor + 1
    ensures d == (d.Floor as real) ==> Trunc(x + d) - Trunc(x) <= d.Floor
  {
  }

  /** `hasNextPage`: the page ends before the last venue. */
  predicate HasNextPage(total: int, page: real) {
    (page - 1.0) * (PageSize as real) + (PageSize as real) < total as real
  }

  /** For a whole page number `p`, the page holds the venues at positions
      `(p-1)*20` up to `p*20`, clipped to the list. */
  lemma PageItemsWhole(processed: seq<Venue>, p: int)
    requires p >= 1
    ensures var start := (p - 1) * PageSize;
      PageItems(processed, p as real) ==
        if start >= |processed| then []
        else processed[start..if start + PageSize < |processed| then start + PageSize else |processed|]
  {
    var start := (p - 1) * PageSize;
    assert (p as real - 1.0) * (PageSize as real) == start as real;
    assert Trunc(start as real) == start;
    assert Trunc(start as real + PageSize as real) == start + PageSize;
  }

  /** There is a next page exactly when the following page is not empty. */
  lemma HasNextPageIffMore(processed: seq<Venue>, p: int)
    requires p >= 1
    ensures HasNextPage(|processed|, p as real) <==> |PageItems(processed, (p + 1) as real)| > 0
  {
    PageItemsWhole(processed, p + 1);
    assert (p as real - 1.0) * (PageSize as real) + (PageSize as real) == (p * PageSize) as real;
  }

  /** The values of the filter bar. */
  datatype FilterValues = FilterValues(q: string, minGuests: string, maxPrice: string, sort: string)

  /** `params.set(key, value)` when `value` is not empty. */
  function SetIfPresent(params: Params, key: string, value: string): (r: Params)
    ensures r.Keys <= params.Keys + {key}
    ensures Param(r, key) == if value == "" then Param(params, key) else Some(value)
    ensures forall k :: k != key ==> Param(r, k) == Param(params, k)
  {
    if value == "" then params else params[key := value]
  }

  /** `handleApplyFilters`: each text field trimmed and kept only when
      non-empty, the sort kept unless it is empty or the default, and the
      page reset to 1; everything else in the URL is dropped. */
  function ApplyFilters(values: FilterValues): (params: Params)
    ensures params.Keys <= {"q", "minGuests", "maxPrice", "sort", "page"}
    ensures Param(params, "page") == Some("1")
    ensures Param(params, "q") == (if Trim(values.q) == "" then None else Some(Trim(values.q)))
    ensures Param(params, "minGuests") == (if Trim(values.minGuests) == "" then None else Some(Trim(values.minGuests)))
    ensures Param(params, "maxPrice") == (if Trim(values.maxPrice) == "" then None else Some(Trim(values.maxPrice)))
    ensures Param(params, "sort") == (if values.sort == "" || values.sort == "recommended" then None else Some(values.sort))
  {
    var q, minGuests, maxPrice := Trim(values.q), Trim(values.minGuests), Trim(values.maxPrice);
    var sort := if values.sort == "recommended" then "" else values.sort;
    var p1 := SetIfPresent(map[], "q", q);
    var p2 := SetIfPresent(p1, "minGuests", minGuests);
    var p3 := SetIfPresent(p2, "maxPrice", maxPrice);
    var p4 := SetIfPresent(p3, "sort", sort);
    FilterKeysDistinct();
    assert Param(p1, "q") == (if q == "" then None else Some(q));
    assert Param(p2, "q") == Param(p1, "q");
    assert Param(p3, "q") == Param(p2, "q");
    assert Param(p4, "q") == Param(p3, "q");
    assert Param(p2, "minGuests") == (if minGuests == "" then None else Some(minGuests));
    assert Param(p3, "minGuests") == Param(p2, "minGuests");
    assert Param(p4, "minGuests") == Param(p3, "minGuests");
    assert Param(p3, "maxPrice") == (if maxPrice == "" then None else Some(maxPrice));
    assert Param(p4, "maxPrice") == Param(p3, "maxPrice");
    assert Param(p3, "sort") == Param(p2, "sort") == Param(p1, "sort") == None;
    assert Param(p4, "sort") == (if sort == "" then None else Some(sort));
    var p5 := SetIfPresent(p4, "page", "1");
    assert Param(p5, "q") == Param(p4, "q");
    assert Param(p5, "minGuests") == Param(p4, "minGuests");
    assert Param(p5, "maxPrice") == Param(p4, "maxPrice");
    assert Param(p5, "sort") == Param(p4, "sort");
    p5
  }

  /** The five parameter names are pairwise different. */
  lemma FilterKeysDistinct()
    ensures "q" != "minGuests" && "q" != "maxPrice" && "q" != "sort" && "q" != "page"
    ensures "minGuests" != "maxPrice" && "minGuests" != "sort" && "minGuests" != "page"
    ensures "maxPrice" != "sort" && "maxPrice" != "page" && "sort" != "page"
  {
    assert |"q"| == 1 && |"minGuests"| == 9 && |"maxPrice"| == 8 && |"sort"| == 4 && |"page"| == 4;
    assert "sort"[0] != "page"[0];
  }

  /** After applying filters the list reads back the same ordering that was
      chosen, and shows the first page. */
  lemma ApplyFiltersReadBack(values: FilterValues, conv: Conversions)
    requires conv.toNumber("1") == Finite(1.0)
    ensures SortKeyOf(Param(ApplyFilters(values), "sort")) == SortKeyOf(Some(values.sort))
    ensures CurrentPage(ApplyFilters(values), conv) == 1.0
  {
    var params := ApplyFilters(values);
    assert Param(params, "page").GetOr("1") == "1";
    DefaultSortKeys();
  }

  /** After applying filters the list reads back the bounds typed into the
      filter bar, trimmed. */
  lemma ApplyFiltersBounds(values: FilterValues, conv: Conversions)
    ensures NumericFilter(Param(ApplyFilters(values), "minGuests").GetOr(""), conv)
      == NumericFilter(Trim(values.minGuests), conv)
    ensures NumericFilter(Param(ApplyFilters(values), "maxPrice").GetOr(""), conv)
      == NumericFilter(Trim(values.maxPrice), conv)
  {
  }

  /** Both spellings of "no choice" select the recommended order. */
  lemma DefaultSortKeys()
    ensures SortKeyOf(None) == Recommended
    ensures SortKeyOf(Some("")) == Recommended
    ensures SortKeyOf(Some("recommended")) == Recommended
  {
  }

  /** `handleClearFilters`: every parameter goes, so the list shows all
      venues in the recommended order from the first page. */
  function ClearFilters(): (params: Params)
    ensures forall k :: Param(params, k).None?
  {
    map[]
  }

  /** After clearing, the list is back at its defaults. */
  lemma ClearFiltersDefaults(conv: Conversions)
    requires conv.toNumber("1") == Finite(1.0)
    ensures CurrentPage(ClearFilters(), conv) == 1.0
    ensures SortKeyOf(Param(ClearFilters(), "sort")) == Recommended
  {
  }

  /** `goToPage`: only the `page` parameter changes. */
  function GoToPage(params: Params, newPage: real, conv: Conversions): (r: Params)
    ensures r.Keys == params.Keys + {"page"}
    ensures Param(r, "page") == Some(conv.toText(newPage))
    ensures forall k :: k != "page" ==> Param(r, k) == Param(params, k)
  {
    params["page" := conv.toText(newPage)]
  }

  /** Moving to a positive page whose text reads back makes it the current
      page; search, filters and ordering stay as they were either way. */
  lemma GoToPageRoundTrip(params: Params, newPage: real, conv: Conversions)
    requires newPage > 0.0
    ensures RoundTripsAt(conv, newPage) ==> CurrentPage(GoToPage(params, newPage, conv), conv) == newPage
    ensures SortKeyOf(Param(GoToPage(params, newPage, conv), "sort")) == SortKeyOf(Param(params, "sort"))
  {
    assert Param(GoToPage(params, newPage, conv), "page") == Some(conv.toText(newPage));
  }
}
