/** The booking form of a venue (`src/features/venues/BookingForm.tsx`) as a
    state machine over `(dateFrom, dateTo, guests)` plus the success and error
    banners.

    "Today" is the form's own calendar day, passed in. The network request, the
    query-cache updates and the rendering are not part of the model; the
    outcome of the request arrives as an event.
 */
module BookingForm {
  import opened Wrappers
  import opened Dates
  import opened BookingUtils

  /** The form's state: the two date inputs (`None` when empty), the guest
      count, the error banner, and whether the success banner is showing. */
  datatype FormState = FormState(
    dateFrom: Option<Day>,
    dateTo: Option<Day>,
    guests: int,
    error: Option<string>,
    confirmed: bool)

  /** What can happen to the form. */
  datatype Event =
    | CheckInChanged(newFrom: Option<Day>)
    | CheckOutChanged(newTo: Option<Day>)
    | GuestsChanged(newGuests: int)
    | BookingSucceeded
    | BookingFailed(message: string)

  /** A validation warning under the inputs. */
  datatype Message = InvalidRangeMessage | OverlapMessage

  /** The state on first render: today, tomorrow, one guest, no banners. */
  function Initial(today: Day): (s: FormState)
    ensures s.dateFrom == Some(today) && s.dateTo == Some(AddDays(today, 1))
    ensures s.guests == 1 && s.error.None? && !s.confirmed
    ensures !IsInvalidRange(s.dateFrom, s.dateTo)
  {
    FormState(Some(today), Some(AddDays(today, 1)), 1, None, false)
  }

  /** `disabled`: no user, a missing date, an invalid range, a guest count
      outside `1..maxGuests`, or a conflict with an existing booking. */
  predicate Disabled(signedIn: bool, s: FormState, maxGuests: int, existing: seq<ExistingBooking>) {
    || !signedIn
    || s.dateFrom.None?
    || s.dateTo.None?
    || IsInvalidRange(s.dateFrom, s.dateTo)
    || s.guests < 1
    || s.guests > maxGuests
    || HasOverlappingBooking(s.dateFrom, s.dateTo, existing)
  }

  /** The button is clickable only when booking is allowed and no request is
      pending. */
  function BookEnabled(signedIn: bool, s: FormState, maxGuests: int, existing: seq<ExistingBooking>, pending: bool): (r: bool)
    ensures r <==>
      && !pending && signedIn
      && s.dateFrom.Some? && s.dateTo.Some?
      && s.dateFrom.value < s.dateTo.value
      && 1 <= s.guests <= maxGuests
      && !HasOverlappingBooking(s.dateFrom, s.dateTo, existing)
  {
    !(Disabled(signedIn, s, maxGuests, existing) || pending)
  }

  /** Booking is allowed exactly for a signed-in user with a stay of at least
      one night, an allowed guest count, and no night shared with an existing
      booking. */
  lemma BookableIff(signedIn: bool, s: FormState, maxGuests: int, existing: seq<ExistingBooking>)
    ensures !Disabled(signedIn, s, maxGuests, existing) <==>
      && signedIn
      && s.dateFrom.Some? && s.dateTo.Some?
      && s.dateFrom.value < s.dateTo.value
      && 1 <= s.guests <= maxGuests
      && forall b, d :: b in existing && Occupies(b.dateFrom, b.dateTo, d)
           ==> !Occupies(s.dateFrom.value, s.dateTo.value, d)
  {
    if s.dateFrom.Some? && s.dateTo.Some? {
      var f, t := s.dateFrom.value, s.dateTo.value;
      forall b | b in existing
        ensures Overlaps(f, t, b.dateFrom, b.dateTo)
          <==> exists d :: Occupies(f, t, d) && Occupies(b.dateFrom, b.dateTo, d)
      {
        OverlapsIffSharedNight(f, t, b.dateFrom, b.dateTo);
      }
    }
  }

  /** The form as first shown can be booked by a signed-in user exactly when
      the venue takes at least one guest and no existing booking holds the
      night of today. */
  lemma InitialBookableIff(today: Day, maxGuests: int, existing: seq<ExistingBooking>)
    ensures !Disabled(true, Initial(today), maxGuests, existing) <==>
      maxGuests >= 1 && forall b :: b in existing ==> !Occupies(b.dateFrom, b.dateTo, today)
  {
    var s := Initial(today);
    BookableIff(true, s, maxGuests, existing);
    forall b, d | b in existing && Occupies(b.dateFrom, b.dateTo, d) && Occupies(today, AddDays(today, 1), d)
      ensures d == today
    {
    }
  }

  /** The first render is a consistent state for the date pickers. */
  lemma InitialConsistent(today: Day)
    ensures Consistent(Initial(today))
  {
  }

  /** `minToDate`: the day after check-in, or tomorrow while check-in is
      empty. */
  function MinToDate(s: FormState, today: Day): (d: Day)
    ensures d > s.dateFrom.GetOr(today)
    ensures s.dateFrom.None? ==> d == AddDays(today, 1)
  {
    if s.dateFrom.Some? then AddDays(s.dateFrom.value, 1) else AddDays(today, 1)
  }

  /** With a check-in chosen, a checkout gives a valid range exactly when it
      is on or after the minimum checkout date. */
  lemma MinToDateIsExact(s: FormState, today: Day, t: Day)
    requires s.dateFrom.Some?
    ensures !IsInvalidRange(s.dateFrom, Some(t)) <==> t >= MinToDate(s, today)
  {
  }

  /** The check-in handler exactly as written: it sets check-in, hides the
      success banner, and bumps the checkout to the day after check-in when
      the checkout is empty or not after the new check-in. `None` stands for
      the `RangeError` that `addDays("", 1)` throws when both inputs end up
      empty. */
  function CheckInChangedAsWritten(s: FormState, newFrom: Option<Day>): (r: Option<FormState>)
    ensures r.None? <==> newFrom.None? && s.dateTo.None?
    ensures r.Some? ==> r.value.dateFrom == newFrom && r.value.guests == s.guests && !r.value.confirmed
  {
    match s.dateTo
    case None =>
      if newFrom.None? then None
      else Some(s.(dateFrom := newFrom, dateTo := Some(AddDays(newFrom.value, 1)), confirmed := false))
    case Some(prev) =>
      // comparing with an empty check-in compares with NaN, which is false
      if newFrom.Some? && prev <= newFrom.value
      then Some(s.(dateFrom := newFrom, dateTo := Some(AddDays(newFrom.value, 1)), confirmed := false))
      else Some(s.(dateFrom := newFrom, confirmed := false))
  }

  /** Clearing check-in after clearing checkout makes the handler throw. */
  lemma CheckInClearedCrashes(s: FormState)
    requires s.dateTo.None?
    ensures CheckInChangedAsWritten(s, None).None?
  {
  }

  /** The check-in handler as evidently intended: identical, except that a
      cleared check-in leaves the checkout alone even when it is empty. */
  function OnCheckIn(s: FormState, newFrom: Option<Day>): (r: FormState)
    ensures r.dateFrom == newFrom && r.guests == s.guests && r.error == s.error && !r.confirmed
    ensures newFrom.Some? ==> r.dateTo.Some? && r.dateTo.value > newFrom.value
    ensures newFrom.Some? ==>
      (r.dateTo == s.dateTo <==> s.dateTo.Some? && s.dateTo.value > newFrom.value)
    ensures newFrom.None? ==> r.dateTo == s.dateTo
  {
    if newFrom.Some? && (s.dateTo.None? || s.dateTo.value <= newFrom.value)
    then s.(dateFrom := newFrom, dateTo := Some(AddDays(newFrom.value, 1)), confirmed := false)
    else s.(dateFrom := newFrom, confirmed := false)
  }

  /** Wherever the written handler does not throw, the corrected one agrees
      with it. */
  lemma CheckInChangedAgrees(s: FormState, newFrom: Option<Day>)
    requires newFrom.Some? || s.dateTo.Some?
    ensures CheckInChangedAsWritten(s, newFrom) == Some(OnCheckIn(s, newFrom))
  {
  }

  /** One transition. A successful booking resets the inputs to their
      initial values and shows the success banner; a failure shows the
      error; an input change sets its own field (check-in through the
      corrected handler) and hides the success banner. */
  function Step(s: FormState, e: Event, today: Day): (r: FormState)
    ensures e.BookingSucceeded? ==>
      && r.dateFrom == Initial(today).dateFrom && r.dateTo == Initial(today).dateTo
      && r.guests == Initial(today).guests && r.confirmed && r.error.None?
    ensures e.BookingFailed? ==>
      && !r.confirmed && r.error == Some(e.message)
      && r.dateFrom == s.dateFrom && r.dateTo == s.dateTo && r.guests == s.guests
    ensures !e.BookingSucceeded? && !e.BookingFailed? ==> !r.confirmed && r.error == s.error
    ensures e.CheckInChanged? ==> r == OnCheckIn(s, e.newFrom)
    ensures e.CheckOutChanged? ==> r.dateTo == e.newTo && r.dateFrom == s.dateFrom && r.guests == s.guests
    ensures e.GuestsChanged? ==> r.guests == e.newGuests && r.dateFrom == s.dateFrom && r.dateTo == s.dateTo
  {
    match e
    case CheckInChanged(newFrom) => OnCheckIn(s, newFrom)
    case CheckOutChanged(newTo) => s.(dateTo := newTo, confirmed := false)
    case GuestsChanged(g) => s.(guests := g, confirmed := false)
    case BookingSucceeded => FormState(Some(today), Some(AddDays(today, 1)), 1, None, true)
    case BookingFailed(message) => s.(error := Some(message), confirmed := false)
  }

  /** The state after a sequence of events. */
  function Run(s: FormState, events: seq<Event>, today: Day): FormState
    decreases |events|
  {
    if |events| == 0 then s else Run(Step(s, events[0], today), events[1..], today)
  }

  /** The checkout date picker offers only dates from the minimum checkout
      date on. */
  predicate WithinPicker(s: FormState, e: Event, today: Day) {
    e.CheckOutChanged? ==> e.newTo.Some? && e.newTo.value >= MinToDate(s, today)
  }

  /** Every event of the run respects the picker's minimum. */
  predicate RunWithinPicker(s: FormState, events: seq<Event>, today: Day)
    decreases |events|
  {
    |events| == 0 ||
    (WithinPicker(s, events[0], today) && RunWithinPicker(Step(s, events[0], today), events[1..], today))
  }

  /** A checkout is chosen and lies after the check-in whenever a check-in
      is chosen. */
  predicate Consistent(s: FormState) {
    s.dateTo.Some? && (s.dateFrom.Some? ==> s.dateFrom.value < s.dateTo.value)
  }

  /** Starting from a consistent state (the initial one is), dates chosen
      through the pickers never form an invalid range. */
  lemma {:induction false} PickersKeepRangeValid(s: FormState, events: seq<Event>, today: Day)
    requires Consistent(s)
    requires RunWithinPicker(s, events, today)
    ensures Consistent(Run(s, events, today))
    ensures !IsInvalidRange(Run(s, events, today).dateFrom, Run(s, events, today).dateTo)
    decreases |events|
  {
    if |events| > 0 {
      var s' := Step(s, events[0], today);
      assert Consistent(s');
      PickersKeepRangeValid(s', events[1..], today);
    }
  }

  /** The validation warnings shown: only while both dates are chosen and no
      success banner shows; the invalid-range warning takes precedence over
      the overlap warning. */
  function ValidationMessages(s: FormState, existing: seq<ExistingBooking>): (r: seq<Message>)
    ensures |r| <= 1
  {
    var shown := s.dateFrom.Some? && s.dateTo.Some? && !s.confirmed;
    var invalid := IsInvalidRange(s.dateFrom, s.dateTo);
    if shown && invalid then [InvalidRangeMessage]
    else if shown && !invalid && HasOverlappingBooking(s.dateFrom, s.dateTo, existing) then [OverlapMessage]
    else []
  }

  /** When each warning shows. The overlap warning needs no precedence rule in
      practice: an invalid range never overlaps anything. */
  lemma MessagesExactly(s: FormState, existing: seq<ExistingBooking>)
    ensures InvalidRangeMessage in ValidationMessages(s, existing) <==>
      s.dateFrom.Some? && s.dateTo.Some? && !s.confirmed && s.dateTo.value <= s.dateFrom.value
    ensures OverlapMessage in ValidationMessages(s, existing) <==>
      s.dateFrom.Some? && s.dateTo.Some? && !s.confirmed
      && HasOverlappingBooking(s.dateFrom, s.dateTo, existing)
    ensures !(InvalidRangeMessage in ValidationMessages(s, existing) && OverlapMessage in ValidationMessages(s, existing))
  {
    if IsInvalidRange(s.dateFrom, s.dateTo) {
      InvalidRangeHasNoOverlap(s.dateFrom, s.dateTo, existing);
    }
  }

  /** A warning on screen always comes with a disabled button. */
  lemma MessageImpliesDisabled(signedIn: bool, s: FormState, maxGuests: int, existing: seq<ExistingBooking>)
    requires |ValidationMessages(s, existing)| > 0
    ensures Disabled(signedIn, s, maxGuests, existing)
  {
  }
}
