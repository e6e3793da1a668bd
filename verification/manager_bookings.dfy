/** The manager's list of a venue's upcoming bookings
    (`src/features/manager/ManagerVenueBookings.tsx`): the bookings whose
    checkout is today or later, ordered by check-in.
 */
module ManagerBookings {
  import opened Wrappers
  import opened Dates
  import Seqs
  import Sorting

  /** A booking as it appears on the venue. */
  datatype VenueBooking = VenueBooking(id: string, dateFrom: Day, dateTo: Day, guests: int, customerName: Option<string>)

  function StillUpcoming(today: Day): VenueBooking -> bool {
    (b: VenueBooking) => IsUpcoming(b.dateTo, today)
  }

  /** The comparator `a.dateFrom - b.dateFrom` as "may stay in front". */
  function ByCheckIn(): (VenueBooking, VenueBooking) -> bool {
    (a: VenueBooking, b: VenueBooking) => a.dateFrom <= b.dateFrom
  }

  /** The listed bookings: `(bookings ?? []).filter(upcoming).sort(byCheckIn)`. */
  function UpcomingBookings(bookings: Option<seq<VenueBooking>>, today: Day): (r: seq<VenueBooking>)
    ensures bookings.None? ==> r == []
    ensures multiset(r) == multiset(Seqs.Filter(StillUpcoming(today), bookings.GetOr([])))
    ensures Sorting.Sorted(ByCheckIn(), r)
  {
    Sorting.SortBy(ByCheckIn(), Seqs.Filter(StillUpcoming(today), bookings.GetOr([])))
  }

  /** Check-in dates never decrease along the list, between any two
      positions. */
  lemma CheckInOrder(r: seq<VenueBooking>, i: int, j: int)
    requires Sorting.Sorted(ByCheckIn(), r)
    requires 0 <= i <= j < |r|
    ensures r[i].dateFrom <= r[j].dateFrom
  {
    Sorting.SortedPairwise(ByCheckIn(), r, i, j);
  }

  /** The list holds exactly the bookings of the venue whose checkout is on
      or after today, each as often as the venue has it, ordered by
      check-in. */
  lemma UpcomingBookingsExactly(bookings: seq<VenueBooking>, today: Day)
    ensures forall b :: b in UpcomingBookings(Some(bookings), today) <==> b in bookings && b.dateTo >= today
    ensures forall b: VenueBooking :: b.dateTo >= today ==>
      multiset(UpcomingBookings(Some(bookings), today))[b] == multiset(bookings)[b]
    ensures forall i, j :: 0 <= i <= j < |UpcomingBookings(Some(bookings), today)| ==>
      UpcomingBookings(Some(bookings), today)[i].dateFrom <= UpcomingBookings(Some(bookings), today)[j].dateFrom
  {
    var r := UpcomingBookings(Some(bookings), today);
    Seqs.FilterMultiset(StillUpcoming(today), bookings);
    forall b ensures b in r <==> b in bookings && b.dateTo >= today {
      assert b in r <==> b in multiset(r);
      assert b in bookings <==> b in multiset(bookings);
    }
    forall i, j | 0 <= i <= j < |r| ensures r[i].dateFrom <= r[j].dateFrom {
      CheckInOrder(r, i, j);
    }
  }
}
