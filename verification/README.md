# holidaze booking and listing logic in Dafny

This project models the client-side logic of the holidaze venue-booking front
end:

- The date helpers and availability checks behind the booking form.
- The booking form's state and validation.
- The split of a customer's bookings into upcoming and past.
- The manager's upcoming-bookings list.
- The venue list's URL-driven filtering, sorting and paging, and its pager.
- The venue create/edit form and the payloads built from it.
- The student-email check of registration.
- The index logic of the venue gallery and the home page carousel.

Dates are whole calendar days (`Dates.Day`), and "today" is a parameter. An
empty date input is `None`. JavaScript's `Number(...)` and `String(...)` are
represented by a pair of conversion functions (`Numbers.Conversions`). When a
property needs a number's text to read back as the same number, the
`Numbers.RoundTripsAt` predicate asks it of that one value. ECMAScript promises
this for every double.
`String.prototype.localeCompare` becomes a `collate` parameter that is assumed
total. `Array.prototype.sort` becomes the insertion sort `Sorting.SortBy`.
URLSearchParams becomes a `map<string, string>`.

Modules: `Wrappers`, `Seqs`, `Sorting`, `Text`, `Numbers` (helpers); `Dates`,
`BookingUtils`, `Partition`, `BookingForm`, `ManagerBookings`, `Venues`,
`VenuesList`, `VenuesPagination`, `VenueForm`, `VenuePayload`,
`Registration`, `Gallery`, `HeroCarousel`.

## Model

| member | source | states |
|---|---|---|
| Dates.OverlapsIffSharedNight | src/lib/date.ts:18-25 | two stays overlap exactly when some night lies in both half-open ranges |
| Dates.OverlapsSymmetric | src/lib/date.ts:18-25 | the overlap test gives the same answer with the two ranges swapped |
| Dates.BackToBackDoNotOverlap | src/lib/date.ts:24 | a stay ending on the day another begins does not conflict with it (same-day turnover) |
| Dates.EmptyRangeOverlapsNothing | src/lib/date.ts:24 | a zero-night or inverted range conflicts with nothing, on either side |
| Dates.UpcomingXorPast | src/lib/date.ts:5-16 | for one fixed today, every date is exactly one of upcoming and past, and today itself is upcoming |
| Dates.AddDaysInverse | src/features/venues/bookingUtils.ts:10-14 | adding zero days changes nothing, adding n and then -n returns the date, and a positive n moves later |
| BookingUtils.AnyOverlaps | src/features/venues/bookingUtils.ts:29 | true exactly when some existing booking overlaps the range |
| BookingUtils.HasOverlappingBooking | src/features/venues/bookingUtils.ts:23-30 | false while either date is missing; otherwise true exactly when some existing booking shares a night with the range |
| BookingUtils.NoBookingsNoOverlap | src/features/venues/bookingUtils.ts:23-30 | with no existing bookings nothing conflicts |
| BookingUtils.OverlapOrderIndependent | src/features/venues/bookingUtils.ts:29 | the answer depends only on which bookings exist, not on their order |
| BookingUtils.IsInvalidRange | src/features/venues/bookingUtils.ts:38-41 | invalid exactly when both dates are chosen and checkout is not after check-in |
| BookingUtils.OneNightMinimum | src/features/venues/bookingUtils.ts:38-41 | a zero-night stay is invalid and a one-night stay is valid |
| BookingUtils.InvalidRangeHasNoOverlap | src/features/venues/bookingUtils.ts:23-41 | an invalid range never reports a conflict, so the two form warnings cannot both apply |
| BookingUtils.GetMyUpcomingBookings | src/features/venues/bookingUtils.ts:50-64 | nothing for an empty user name; every result is named by the user and has not ended before today |
| BookingUtils.MyUpcomingExactly | src/features/venues/bookingUtils.ts:59-63 | the result is an order-preserving subsequence holding exactly the user's bookings that end today or later, each as many times as it occurs in the input |
| BookingUtils.AnonymousNeverMine | src/features/venues/bookingUtils.ts:60 | a booking with no customer name is never reported, whatever the user name |
| BookingUtils.EndedNeverMine | src/features/venues/bookingUtils.ts:62 | a booking that ended before today is never reported |
| Partition.PartitionBookings | src/features/bookings/partition.ts:4-8 | keeps `all`; upcoming and past together are a permutation of all; each upcoming booking ends today or later and each past one before today |
| Partition.PartitionStable | src/features/bookings/partition.ts:5-6 | both lists keep the input order and hold exactly the bookings on their side of today |
| Partition.PartitionDisjoint | src/features/bookings/partition.ts:5-6 | no booking is both upcoming and past |
| BookingForm.Initial | src/features/venues/BookingForm.tsx:41-48 | the form opens with check-in today, checkout tomorrow, one guest, no error and no confirmation, which is a valid range |
| BookingForm.InitialBookableIff | src/features/venues/BookingForm.tsx:41-48 | a signed-in user can book the form as first shown exactly when the venue takes at least one guest and no existing booking holds the night of today |
| BookingForm.InitialConsistent | src/features/venues/BookingForm.tsx:41-48 | the first render has a checkout after its check-in, the starting point of the picker invariant |
| BookingForm.BookEnabled | src/features/venues/BookingForm.tsx:99-106 | the button is clickable exactly when no request is pending and a signed-in user has chosen a stay of at least one night, 1 to the venue maximum of guests, and no night shared with an existing booking (the `disabled || isPending` of line 221) |
| BookingForm.BookableIff | src/features/venues/BookingForm.tsx:99-106 | booking is allowed exactly for a signed-in user with a stay of at least one night, a guest count from 1 to the venue maximum, and no night shared with an existing booking |
| BookingForm.MinToDate | src/features/venues/BookingForm.tsx:112 | the earliest checkout offered is after check-in, and is tomorrow while check-in is empty |
| BookingForm.MinToDateIsExact | src/features/venues/BookingForm.tsx:112 | with check-in chosen, a checkout gives a valid range exactly when it is at or after the picker's minimum |
| BookingForm.CheckInChangedAsWritten | src/features/venues/BookingForm.tsx:131-144 | the check-in handler as written: it throws exactly when check-in is cleared while checkout is empty; otherwise it sets check-in, keeps guests and hides the confirmation |
| BookingForm.CheckInClearedCrashes | src/features/venues/BookingForm.tsx:136-143 | clearing check-in with checkout already empty reaches the throwing date computation |
| BookingForm.OnCheckIn | src/features/venues/BookingForm.tsx:131-144 | the corrected handler never throws; a chosen check-in always leaves a checkout after it, keeping a later checkout and otherwise moving it to the next day |
| BookingForm.CheckInChangedAgrees | src/features/venues/BookingForm.tsx:131-144 | wherever the handler as written does not throw, the corrected one gives the same state |
| BookingForm.Step | src/features/venues/BookingForm.tsx:68-172 | a successful booking resets the dates to today/tomorrow and one guest, clears the error and shows the confirmation; a failure shows the error; a check-in change applies the corrected check-in handler, a checkout change sets only the checkout and a guest change only the guest count; every input change hides the confirmation and keeps the error |
| BookingForm.PickersKeepRangeValid | src/features/venues/BookingForm.tsx:131-159 | from a consistent state, dates picked within the pickers' limits never produce an invalid range |
| BookingForm.ValidationMessages | src/features/venues/BookingForm.tsx:204-214 | at most one warning is shown |
| BookingForm.MessagesExactly | src/features/venues/BookingForm.tsx:204-214 | each warning shows exactly under its condition, and the two never show together |
| BookingForm.MessageImpliesDisabled | src/features/venues/BookingForm.tsx:99-106 | a visible warning always comes with a disabled button |
| ManagerBookings.UpcomingBookings | src/features/manager/ManagerVenueBookings.tsx:29-36 | no bookings give an empty list; the list is a permutation of the bookings still running, ordered by check-in |
| ManagerBookings.CheckInOrder | src/features/manager/ManagerVenueBookings.tsx:32-36 | in the sorted list, an earlier position never has a later check-in |
| ManagerBookings.UpcomingBookingsExactly | src/features/manager/ManagerVenueBookings.tsx:29-36 | the list holds exactly the bookings ending today or later, in check-in order |
| Sorting.SortBy | src/features/manager/ManagerVenueBookings.tsx:32-36 | sorting with a total comparison returns a sorted permutation of its input |
| VenuesList.CurrentPage | src/features/venues/VenuesList.tsx:21-22 | a finite positive number in the `page` parameter is the page; anything else gives page 1, so the page is always positive |
| VenuesList.NumericFilter | src/features/venues/VenuesList.tsx:24-25 | an empty parameter gives no bound; a parameter that is a number gives that number as the bound; a NaN gives no bound (the `!Number.isNaN` tests at lines 46 and 51) |
| VenuesList.Listed | src/features/venues/VenuesList.tsx:16-25 | the list read from the URL is sorted by the ordering the `sort` parameter selects and is no longer than all venues |
| VenuesList.ListedFromUrl | src/features/venues/VenuesList.tsx:16-53 | a venue is listed exactly when it is among all venues and meets each bound the URL gives as a number; an absent, empty or non-numeric bound tests nothing |
| VenuesList.ProcessedMembers | src/features/venues/VenuesList.tsx:42-53 | a venue is listed exactly when it passes both the minimum-guests and the maximum-price filter |
| VenuesList.NoFiltersKeepsAll | src/features/venues/VenuesList.tsx:45-53 | without filters every venue is listed |
| VenuesList.OrderTotal | src/features/venues/VenuesList.tsx:56-87 | every sort key gives a total order, given a total name collation |
| VenuesList.Processed | src/features/venues/VenuesList.tsx:42-90 | the list is a permutation of the venues passing the filters, sorted by the chosen key |
| VenuesList.RecommendedOrder | src/features/venues/VenuesList.tsx:75-86 | under the default sort, a venue never precedes one with a higher rating, and among equal ratings never one created later |
| VenuesList.PageItems | src/features/venues/VenuesList.tsx:93-96 | a page never holds more than 20 venues |
| VenuesList.PageItemsWhole | src/features/venues/VenuesList.tsx:94-96 | page p holds exactly venues 20(p-1) up to 20p, cut at the end of the list |
| VenuesList.HasNextPageIffMore | src/features/venues/VenuesList.tsx:98 | "next" is offered exactly when the following page would not be empty |
| VenuesList.ApplyFilters | src/features/venues/VenuesList.tsx:101-127 | applying the filters stores each trimmed non-empty value, drops the blank ones, stores the sort unless it is the default, and goes back to page 1 |
| VenuesList.ApplyFiltersReadBack | src/features/venues/VenuesList.tsx:15-25 | after applying the filters the list reads back page 1 and the chosen sort |
| VenuesList.ApplyFiltersBounds | src/features/venues/VenuesList.tsx:101-127 | after applying the filters the list reads back the guest and price bounds typed into the filter bar, trimmed |
| VenuesList.DefaultSortKeys | src/features/venues/VenuesList.tsx:56-87 | each sort name selects its ordering, and an absent or unknown one selects the recommended order |
| VenuesList.ClearFilters | src/features/venues/VenuesList.tsx:129-131 | clearing removes every parameter |
| VenuesList.ClearFiltersDefaults | src/features/venues/VenuesList.tsx:15-25 | after clearing, the list is on page 1 in the recommended order |
| VenuesList.GoToPage | src/features/venues/VenuesList.tsx:133-137 | the page parameter is set and every other parameter is kept |
| VenuesList.GoToPageRoundTrip | src/features/venues/VenuesList.tsx:133-137 | after going to a positive page whose text reads back, the list reads back that page; the sort is kept in every case |
| VenuesPagination.Render | src/features/venues/VenuesPagination.tsx:20-32 | nothing is shown exactly when there are no results; the shown range starts at the page's first item and spans exactly the items on the page; previous and next are enabled exactly as their conditions say |
| VenuesPagination.Click | src/features/venues/VenuesPagination.tsx:42-56 | a click on an enabled button moves one page back or forward, and a click on a disabled one does nothing |
| VenuesPagination.PreviousStaysPositive | src/features/venues/VenuesPagination.tsx:31-44 | going back never reaches a page number of zero or below |
| VenuesPagination.PagerMatchesList | src/features/venues/VenuesPagination.tsx:20-32 | fed with a page of the venue list, the pager shows that page's first and last positions and offers next exactly when more venues follow |
| VenueForm.InitialMedia | src/features/manager/VenueForm.tsx:61-64 | there is always at least one image row; given images become rows with the alt text defaulted to empty |
| VenueForm.InitialRating | src/features/manager/VenueForm.tsx:66-69 | no rating gives an empty field; a text rating is shown as given; a numeric rating is shown as `String(rating)` |
| VenueForm.InitialRatingRoundTrip | src/features/manager/VenueForm.tsx:66-69 | a numeric rating whose text reads back is shown as text that reads back as the same number |
| VenueForm.InitialState | src/features/manager/VenueForm.tsx:58-70 | each field starts from its given value or its default; the rating shows as its initial text and the images as their initial rows, at least one |
| VenueForm.BlankStart | src/features/manager/VenueForm.tsx:26-40 | with nothing given, the form shows the defaults and one empty image row |
| VenueForm.Update | src/features/manager/VenueForm.tsx:72-74 | an edit sets its field to the new value and leaves every other field and the images untouched |
| VenueForm.UpdateSameValue | src/features/manager/VenueForm.tsx:72-74 | writing back a field's current value changes nothing |
| VenueForm.UpdateMedia | src/features/manager/VenueForm.tsx:76-82 | only the edited image row changes, and only in the edited key |
| VenueForm.AddImage | src/features/manager/VenueForm.tsx:84-86 | an empty row is appended and the others are kept |
| VenueForm.WithoutIndex | src/features/manager/VenueForm.tsx:90 | removing index i drops exactly that row and shifts the later ones; an out-of-range index changes nothing |
| VenueForm.WithoutIndexMultiset | src/features/manager/VenueForm.tsx:90 | removal takes away exactly one occurrence of the removed row |
| VenueForm.RemoveImage | src/features/manager/VenueForm.tsx:88-93 | removal drops the row, and removing the last row leaves one empty row |
| VenueForm.Step | src/features/manager/VenueForm.tsx:72-98 | each edit goes to its handler (field update, row update, add row, remove row), no event empties a form that has an image row, and submitting changes nothing |
| VenueForm.MediaNeverEmpty | src/features/manager/VenueForm.tsx:84-93 | from any initial state, no run of the form's events leaves it without an image row |
| VenueForm.SubmitPassesValues | src/features/manager/VenueForm.tsx:95-98 | submitting hands the current values to the page, unchanged |
| VenuePayload.ToNumber | src/features/manager/ManagerVenueNew.tsx:16-17 | a number field already holding a number is sent as that number |
| VenuePayload.PayloadRating | src/features/manager/ManagerVenueNew.tsx:8-11 | the rating is omitted exactly when the field is empty |
| VenuePayload.AbsentIfEmpty | src/features/manager/ManagerVenueNew.tsx:24-28 | an empty location field is omitted and a non-empty one is sent as it is |
| VenuePayload.SameRowsKept | src/features/manager/ManagerVenueEdit.tsx:43-46 | the create page and the edit page keep the same image rows: those whose url is not blank |
| VenuePayload.NewAltFallback | src/features/manager/ManagerVenueNew.tsx:22 | a blank alt text falls back to the trimmed venue name, and a non-blank one is sent trimmed |
| VenuePayload.EditAltFallback | src/features/manager/ManagerVenueEdit.tsx:47 | on the edit page a non-blank alt text is sent trimmed, and a blank one falls back to the venue name as it is |
| VenuePayload.ToPayloadNew | src/features/manager/ManagerVenueNew.tsx:7-37 | name, description, rating, location and amenities are carried over, price and guest limit go through `Number`, and there is one image per row with a non-blank url |
| VenuePayload.ToPayloadEdit | src/features/manager/ManagerVenueEdit.tsx:30-61 | the edit payload carries the same fields over, converts price and guest limit the same way, and keeps the same image rows |
| VenuePayload.NewMediaClean | src/features/manager/ManagerVenueNew.tsx:18-23 | every image sent from the create page has a trimmed, non-empty url and a trimmed alt text |
| VenuePayload.EditMediaClean | src/features/manager/ManagerVenueEdit.tsx:43-48 | every image sent from the edit page has a trimmed, non-empty url and an alt text that is trimmed or the venue name |
| VenuePayload.PayloadMediaFromRows | src/features/manager/ManagerVenueNew.tsx:18-23 | each image sent comes from a kept row, in order |
| VenuePayload.EditMediaFromSameRows | src/features/manager/ManagerVenueEdit.tsx:43-48 | the edit page builds its images from exactly the rows the create page keeps, in order |
| VenuePayload.FilterSameRows | src/features/manager/ManagerVenueEdit.tsx:44 | two filters that agree on every row keep the same rows |
| VenuePayload.FromVenue | src/features/manager/ManagerVenueEdit.tsx:8-28 | loading a venue shows its name and description, its numbers and rating as text, each image as a row, and each location field and amenity flag, with missing values blank or false |
| VenuePayload.EditRoundTrip | src/features/manager/ManagerVenueEdit.tsx:8-61 | saving a loaded venue unchanged always sends back its name, description, non-empty location fields and amenities (absent ones as false); it sends back its price, guest limit and rating whenever their texts read back, and no rating when it has none |
| VenuePayload.EditRoundTripImages | src/features/manager/ManagerVenueEdit.tsx:16-48 | saving a loaded venue whose images have clean urls and alt texts sends the same images back |
| VenuePayload.ThroughFormSamePayload | src/features/manager/ManagerVenueEdit.tsx:95-100 | passing the loaded values through the form's initial state changes nothing in the payload |
| Registration.NormalizeEmail | src/features/auth/api.ts:57 | the normalised address is the trimmed address with every ASCII capital lower-cased, character by character; so it has no surrounding whitespace and no capital |
| Registration.NormalizeIdempotent | src/features/auth/api.ts:57 | normalising twice is the same as normalising once |
| Registration.RegisterUser | src/features/auth/api.ts:56-67 | fails with the student-only message exactly when the normalised address lacks the student domain; otherwise POSTs to /auth/register with the input, changing only the email to the normalised one |
| Registration.RegisterIdempotent | src/features/auth/api.ts:56-67 | registering the accepted body again gives the same request |
| Registration.CaseAndSpaceInsensitive | src/features/auth/api.ts:57-61 | addresses with the same normalised form get the same outcome |
| Gallery.Shown | src/components/Gallery.tsx:10 | every shown image has a non-empty url |
| Gallery.ShownExactly | src/components/Gallery.tsx:10 | exactly the images with a url are shown, each as many times as it occurs, in their original order |
| Gallery.Next | src/components/Gallery.tsx:24-27 | with fewer than two images nothing happens; otherwise the index stays in range and moves forward by one, modulo the count |
| Gallery.Prev | src/components/Gallery.tsx:20-23 | with fewer than two images nothing happens; otherwise the index stays in range and moves back by one, modulo the count |
| Gallery.NextStep | src/components/Gallery.tsx:24-27 | next wraps from the last image to the first and otherwise adds one |
| Gallery.PrevStep | src/components/Gallery.tsx:20-23 | prev wraps from the first image to the last and otherwise subtracts one |
| Gallery.NextPrevInverse | src/components/Gallery.tsx:20-27 | prev undoes next and next undoes prev |
| Gallery.Reset | src/components/Gallery.tsx:13-15 | an index past the images goes back to 0, and any other index is kept |
| Gallery.Step | src/components/Gallery.tsx:13-80 | the arrows move to the previous or next image, then reset; a thumbnail click selects that image; a change of images replaces them and resets the index; only that change replaces the images |
| Gallery.StepKeepsValid | src/components/Gallery.tsx:13-27 | every event keeps the index non-negative and on an image whenever there are images |
| Gallery.RunKeepsValid | src/components/Gallery.tsx:13-27 | after any run of events the large image is one of the shown images whenever any are shown |
| HeroCarousel.GoTo | src/components/HeroCarousel.tsx:16-22 | nothing happens without slides; any index from -count upwards lands on a slide, and an in-range index is selected as is |
| HeroCarousel.NextWraps | src/components/HeroCarousel.tsx:24-26 | next wraps from the last slide to the first and otherwise adds one |
| HeroCarousel.PrevWraps | src/components/HeroCarousel.tsx:28-30 | prev wraps from the first slide to the last and otherwise subtracts one |
| HeroCarousel.NextPrevInverse | src/components/HeroCarousel.tsx:24-30 | prev undoes next and next undoes prev |
| HeroCarousel.ArrowsLandOnASlide | src/components/HeroCarousel.tsx:16-30 | from any non-negative index, even one left past the end, one arrow click lands on a slide |
| HeroCarousel.FarBelowRangeIsNegative | src/components/HeroCarousel.tsx:19 | an index below -count does not land on a slide: with two slides, -3 selects -1 |
| Numbers.Rem | src/components/HeroCarousel.tsx:19 | JavaScript's `%`: the sign follows the dividend, and the magnitude is the dividend's magnitude modulo the divisor's |
| Numbers.RemIsTruncatedRemainder | src/components/HeroCarousel.tsx:19 | the dividend minus the remainder is a whole multiple of the divisor, so `Rem` is the remainder of division truncated toward zero |

## Left out

- Dates: real `Date` values, time zones and the UTC/local mix of the source are not modelled. Every date is a valid whole day.
- Dates.UpcomingXorPast: holds only for valid dates. An unparsable date makes `getTime()` NaN, and such a booking is neither upcoming nor past. The model follows the code for valid dates.
- Partition.PartitionBookings: one "today" is used for both filters. The source reads the clock once per call, so a run that crosses midnight could put a booking in both lists or in neither.
- BookingUtils.GetMyUpcomingBookings: the user name is compared as given, untrimmed, as in the source.
- Network requests, react-query caching and invalidation, navigation, localStorage and rendering are left out. Mutation outcomes are events (`BookingSucceeded`, `BookingFailed`).
- BookingForm.Step: a check-in change runs the corrected handler `OnCheckIn`, so `Run` and `PickersKeepRangeValid` describe a form that carries on where the source throws (see Findings). The handler as written is `CheckInChangedAsWritten`.
- BookingForm: the guest count is a whole number. `Number()` of the input can give a fraction or NaN, and those are not modelled.
- VenuesList: `localeCompare` is a `collate` parameter assumed to be a total order, and `Number()`/`String()` are the `Conversions` parameters. The server-side `q` search is not modelled.
- VenuesList: URLSearchParams is a map from name to value. Repeated keys and the order of keys are not modelled; `get` returns the first value of a key, and every key the list writes is written once.
- VenuesList.PageItems: for a page number with a fractional part, only the bound of 20 items is stated. Exact contents are proved for whole page numbers (`PageItemsWhole`).
- VenuesList.HasNextPageIffMore: stated for whole page numbers only.
- VenuesList.RecommendedOrder: `created` is taken as a number. An unparsable timestamp gives NaN and an inconsistent comparator, which is not modelled.
- Sorting.SortBy: an insertion sort stands for the engine's `Array.prototype.sort`. Its contract states a sorted permutation but not the relative order of elements that compare equal, which the engine keeps from the input. Comparators that are not total are outside the model.
- VenuesPagination is modelled as a component in its own right. The venue list renders its own inline pager with the same enabling conditions.
- VenueForm.UpdateMedia: requires an existing row index, which is the only kind the UI offers. An index past the end would grow the JavaScript array with holes.
- VenueForm: initial values given explicitly as `undefined` are the same as absent ones. The second copy of the form (`src/features/manager/VenueForm/VenueForm.tsx`) has the same logic and is covered by the same members: its initial state is at lines 54-65, its updates at 67-84 and its row removal at 86-91. Its field components only render.
- VenuePayload.EditRoundTrip: price, guest limit and rating are stated to come back only when their texts read back as the same numbers (`RoundTripsAt`). ECMAScript guarantees this for every double, but the model's reals also include values that are not doubles. The same holds for `VenueForm.InitialRatingRoundTrip` and `VenuesList.GoToPageRoundTrip`.
- VenuePayload.EditRoundTripImages: stated only for images whose url is trimmed and non-empty and whose alt text is trimmed and non-empty. Other images are cleaned or dropped on save, so they do not round-trip.
- Gallery: `null` entries in the media list are not modelled, and a media item without a url stands in for them.
- HeroCarousel: autoplay and hover pausing are timers and are not modelled.
- Registration: sending the request is not modelled. `RegisterUser` returns the request it would send. Lower-casing is ASCII only.

## Findings

| source | as written | input that shows it | evidently intended | confidence | as-written member | corrected member |
|---|---|---|---|---|---|---|
| src/features/venues/BookingForm.tsx:136-143 | when check-in is cleared and checkout is empty, the handler computes `addDays(e.target.value, 1)` on the empty string, whose invalid date throws a RangeError in `toISOString` | checkout cleared, then check-in cleared | clearing check-in should only clear it and leave checkout alone | not executed | BookingForm.CheckInChangedAsWritten (shown by BookingForm.CheckInClearedCrashes) | BookingForm.OnCheckIn (agreement elsewhere: BookingForm.CheckInChangedAgrees) |
