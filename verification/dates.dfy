/** Calendar dates as day numbers (`src/lib/date.ts`).

    A `YYYY-MM-DD` string denotes the midnight that starts that calendar day;
    here it is the day's number on a continuous count. Comparing two such
    midnights is comparing day numbers, and shifting by `n` calendar days is
    adding `n`. "Today" is a parameter, never a clock read.
 */
module Dates {

  /** A calendar day, numbered consecutively. */
  type Day = int

  function Max(a: Day, b: Day): Day {
    if a < b then b else a
  }

  function Min(a: Day, b: Day): Day {
    if a < b then a else b
  }

  /** `isUpcoming`: the date is on or after today's midnight. */
  predicate IsUpcoming(d: Day, today: Day) {
    d >= today
  }

  /** `isPast`: the date is before today's midnight. */
  predicate IsPast(d: Day, today: Day) {
    d < today
  }

  /** `overlaps`: the latest start is before the earliest end. */
  predicate Overlaps(aFrom: Day, aTo: Day, bFrom: Day, bTo: Day) {
    Max(aFrom, bFrom) < Min(aTo, bTo)
  }

  /** The half-open range `[from, to)` occupies day `d`: check-in inclusive,
      checkout exclusive. */
  predicate Occupies(from: Day, to: Day, d: Day) {
    from <= d < to
  }

  /** `addDays`: the date `n` calendar days later (earlier when `n < 0`). */
  function AddDays(d: Day, n: int): Day {
    d + n
  }

  /** Two stays overlap exactly when some night is occupied by both: the
      max/min test is the half-open interval intersection. */
  lemma OverlapsIffSharedNight(aFrom: Day, aTo: Day, bFrom: Day, bTo: Day)
    ensures Overlaps(aFrom, aTo, bFrom, bTo)
      <==> exists d :: Occupies(aFrom, aTo, d) && Occupies(bFrom, bTo, d)
  {
    if Overlaps(aFrom, aTo, bFrom, bTo) {
      assert Occupies(aFrom, aTo, Max(aFrom, bFrom)) && Occupies(bFrom, bTo, Max(aFrom, bFrom));
    }
  }

  /** Swapping the two ranges never changes the result. */
  lemma OverlapsSymmetric(aFrom: Day, aTo: Day, bFrom: Day, bTo: Day)
    ensures Overlaps(aFrom, aTo, bFrom, bTo) == Overlaps(bFrom, bTo, aFrom, aTo)
  {
  }

  /** Same-day turnover: a stay ending on the day another starts does not
      overlap it, in either order. */
  lemma BackToBackDoNotOverlap(aFrom: Day, x: Day, bTo: Day)
    ensures !Overlaps(aFrom, x, x, bTo)
    ensures !Overlaps(x, bTo, aFrom, x)
  {
  }

  /** A zero-night or inverted range overlaps nothing. */
  lemma EmptyRangeOverlapsNothing(aFrom: Day, aTo: Day, bFrom: Day, bTo: Day)
    requires aTo <= aFrom
    ensures !Overlaps(aFrom, aTo, bFrom, bTo)
    ensures !Overlaps(bFrom, bTo, aFrom, aTo)
  {
  }

  /** For one fixed "today", every date is exactly one of upcoming and past;
      in particular a date equal to today is upcoming. */
  lemma UpcomingXorPast(d: Day, today: Day)
    ensures IsUpcoming(d, today) != IsPast(d, today)
    ensures IsUpcoming(today, today)
  {
  }

  /** Shifting by zero days is the identity, and shifting back undoes a
      shift, for any signed count. */
  lemma AddDaysInverse(d: Day, n: int)
    ensures AddDays(d, 0) == d
    ensures AddDays(AddDays(d, n), -n) == d
    ensures n > 0 ==> AddDays(d, n) > d
  {
  }
}
