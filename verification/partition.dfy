/** Splitting a user's bookings into upcoming and past
    (`src/features/bookings/partition.ts`).
 */
module Partition {
  import opened Dates
  import Seqs

  /** A booking of the signed-in user. The venue summary the API attaches is
      carried along untouched and is not modelled. */
  datatype Booking = Booking(id: string, dateFrom: Day, dateTo: Day, guests: int)

  /** The three lists `partitionBookings` returns. */
  datatype Partitioned = Partitioned(upcoming: seq<Booking>, past: seq<Booking>, all: seq<Booking>)

  function UpcomingFilter(today: Day): Booking -> bool {
    (b: Booking) => IsUpcoming(b.dateTo, today)
  }

  function PastFilter(today: Day): Booking -> bool {
    (b: Booking) => IsPast(b.dateTo, today)
  }

  /** `partitionBookings`, evaluated with one fixed "today". */
  function PartitionBookings(all: seq<Booking>, today: Day): (r: Partitioned)
    ensures r.all == all
    ensures |r.upcoming| + |r.past| == |all|
    ensures multiset(r.upcoming) + multiset(r.past) == multiset(all)
    ensures forall i :: 0 <= i < |r.upcoming| ==> r.upcoming[i].dateTo >= today
    ensures forall i :: 0 <= i < |r.past| ==> r.past[i].dateTo < today
  {
    Seqs.FilterSplit(UpcomingFilter(today), PastFilter(today), all);
    Partitioned(Seqs.Filter(UpcomingFilter(today), all), Seqs.Filter(PastFilter(today), all), all)
  }

  /** Each list is an order-preserving subsequence of the input, and a
      booking lands in `upcoming` exactly when its checkout is on or after
      today, in `past` exactly when it is before. */
  lemma PartitionStable(all: seq<Booking>, today: Day)
    ensures Seqs.IsSubsequence(PartitionBookings(all, today).upcoming, all)
    ensures Seqs.IsSubsequence(PartitionBookings(all, today).past, all)
    ensures forall b :: b in PartitionBookings(all, today).upcoming <==> b in all && b.dateTo >= today
    ensures forall b :: b in PartitionBookings(all, today).past <==> b in all && b.dateTo < today
  {
    Seqs.FilterIsSubsequence(UpcomingFilter(today), all);
    Seqs.FilterIsSubsequence(PastFilter(today), all);
    forall b ensures b in Seqs.Filter(UpcomingFilter(today), all) <==> b in all && b.dateTo >= today {
      Seqs.FilterMembership(UpcomingFilter(today), all, b);
    }
    forall b ensures b in Seqs.Filter(PastFilter(today), all) <==> b in all && b.dateTo < today {
      Seqs.FilterMembership(PastFilter(today), all, b);
    }
  }

  /** A booking is never in both lists. */
  lemma PartitionDisjoint(all: seq<Booking>, today: Day, b: Booking)
    ensures !(b in PartitionBookings(all, today).upcoming && b in PartitionBookings(all, today).past)
  {
    PartitionStable(all, today);
  }
}
