/** Availability checks for one venue (`src/features/venues/bookingUtils.ts`).

    A date endpoint that is `null` or `""` has not been chosen yet and is
    `None`; the checks treat it as "undecided", never as an error.
 */
module BookingUtils {
  import opened Wrappers
  import opened Dates
  import Seqs

  /** A confirmed reservation on the venue: check-in inclusive, checkout
      exclusive, and the customer's name when the API includes it. */
  datatype ExistingBooking = ExistingBooking(dateFrom: Day, dateTo: Day, customerName: Option<string>)

  /** `existing.some(b => overlaps(from, to, b.dateFrom, b.dateTo))`. */
  function AnyOverlaps(from: Day, to: Day, existing: seq<ExistingBooking>): (r: bool)
    ensures r <==> exists i :: (0 <= i < |existing|
                                && Overlaps(from, to, existing[i].dateFrom, existing[i].dateTo))
  {
    if |existing| == 0 then false
    else if Overlaps(from, to, existing[0].dateFrom, existing[0].dateTo) then true
    else
      assert forall i :: 1 <= i < |existing| ==> existing[i] == existing[1..][i - 1];
      AnyOverlaps(from, to, existing[1..])
  }

  /** `hasOverlappingBooking`: false while either endpoint is undecided,
      otherwise whether some existing booking overlaps `[from, to)`. */
  function HasOverlappingBooking(from: Option<Day>, to: Option<Day>, existing: seq<ExistingBooking>): (r: bool)
    ensures (from.None? || to.None?) ==> !r
    ensures from.Some? && to.Some? ==>
      (r <==> exists b :: b in existing && Overlaps(from.value, to.value, b.dateFrom, b.dateTo))
  {
    if from.None? || to.None? then false
    else
      var r := AnyOverlaps(from.value, to.value, existing);
      assert r ==> exists b :: b in existing && Overlaps(from.value, to.value, b.dateFrom, b.dateTo);
      r
  }

  /** With no existing bookings nothing conflicts. */
  lemma NoBookingsNoOverlap(from: Option<Day>, to: Option<Day>)
    ensures !HasOverlappingBooking(from, to, [])
  {
  }

  /** The answer depends on which bookings exist, not on their order. */
  lemma OverlapOrderIndependent(from: Option<Day>, to: Option<Day>, e1: seq<ExistingBooking>, e2: seq<ExistingBooking>)
    requires multiset(e1) == multiset(e2)
    ensures HasOverlappingBooking(from, to, e1) == HasOverlappingBooking(from, to, e2)
  {
    forall b ensures b in e1 <==> b in e2 {
      Seqs.MultisetSameMembers(e1, e2, b);
    }
  }

  /** `isInvalidRange`: both endpoints chosen and checkout not after
      check-in. */
  function IsInvalidRange(from: Option<Day>, to: Option<Day>): (r: bool)
    ensures r <==> from.Some? && to.Some? && to.value <= from.value
  {
    if from.None? || to.None? then false
    else to.value <= from.value
  }

  /** A zero-night stay is invalid and a one-night stay is valid. */
  lemma OneNightMinimum(d: Day)
    ensures IsInvalidRange(Some(d), Some(d))
    ensures !IsInvalidRange(Some(d), Some(AddDays(d, 1)))
  {
  }

  /** An invalid range never conflicts with anything, so the overlap check
      only matters for valid ranges. */
  lemma InvalidRangeHasNoOverlap(from: Option<Day>, to: Option<Day>, existing: seq<ExistingBooking>)
    requires IsInvalidRange(from, to)
    ensures !HasOverlappingBooking(from, to, existing)
  {
    forall b | b in existing
      ensures !Overlaps(from.value, to.value, b.dateFrom, b.dateTo)
    {
      EmptyRangeOverlapsNothing(from.value, to.value, b.dateFrom, b.dateTo);
    }
  }

  /** The filter of `getMyUpcomingBookings`: a named customer equal to the
      user, and a checkout on or after today. */
  predicate IsMine(b: ExistingBooking, userName: string, today: Day) {
    && b.customerName.Some?
    && b.customerName.value != ""
    && b.customerName.value == userName
    && b.dateTo >= today
  }

  /** `getMyUpcomingBookings`: the user's own bookings that have not fully
      ended, in their original order; nothing for an anonymous user. */
  function GetMyUpcomingBookings(existing: seq<ExistingBooking>, userName: string, today: Day): (r: seq<ExistingBooking>)
    ensures userName == "" ==> r == []
    ensures forall i :: 0 <= i < |r| ==>
      r[i].customerName == Some(userName) && r[i].dateTo >= today
  {
    if userName == "" then []
    else Seqs.Filter((b: ExistingBooking) => IsMine(b, userName, today), existing)
  }

  /** The result is an order-preserving subsequence of `existing` holding
      every booking of a signed-in user whose checkout is on or after today,
      and nothing else. */
  lemma MyUpcomingExactly(existing: seq<ExistingBooking>, userName: string, today: Day)
    requires userName != ""
    ensures Seqs.IsSubsequence(GetMyUpcomingBookings(existing, userName, today), existing)
    ensures forall b :: b in GetMyUpcomingBookings(existing, userName, today) <==>
      b in existing && b.customerName == Some(userName) && b.dateTo >= today
    ensures forall b ::
      multiset(GetMyUpcomingBookings(existing, userName, today))[b] ==
      if b.customerName == Some(userName) && b.dateTo >= today then multiset(existing)[b] else 0
  {
    var p := (b: ExistingBooking) => IsMine(b, userName, today);
    Seqs.FilterIsSubsequence(p, existing);
    Seqs.FilterMultiset(p, existing);
    forall b ensures b in Seqs.Filter(p, existing) <==> b in existing && p(b) {
      Seqs.FilterMembership(p, existing, b);
    }
  }

  /** A booking without a customer name is never reported, whatever its
      dates. */
  lemma AnonymousNeverMine(existing: seq<ExistingBooking>, userName: string, today: Day, b: ExistingBooking)
    requires b.customerName.None?
    ensures b !in GetMyUpcomingBookings(existing, userName, today)
  {
  }

  /** A booking of the user that ended before today is never reported. */
  lemma EndedNeverMine(existing: seq<ExistingBooking>, userName: string, today: Day, b: ExistingBooking)
    requires b.dateTo < today
    ensures b !in GetMyUpcomingBookings(existing, userName, today)
  {
  }
}
