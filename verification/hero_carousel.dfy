/** The slide index of the home page carousel (`src/components/HeroCarousel.tsx`).

    `%` is JavaScript's truncating remainder, so an argument far below zero
    gives a negative index. Autoplay and hover pausing are timers and are
    not part of the model.
 */
module HeroCarousel {
  import opened Numbers

  /** `goTo(i)`: nothing happens without slides; otherwise the index becomes
      `(i + count) % count`. */
  function GoTo(idx: int, i: int, count: int): (r: int)
    requires count >= 0
    ensures count == 0 ==> r == idx
    ensures count > 0 && i >= -count ==> 0 <= r < count && r == (i + count) % count
    ensures count > 0 && 0 <= i < count ==> r == i
  {
    if count == 0 then idx
    else
      var r := Rem(i + count, count);
      assert 0 <= i < count ==> (i + count) % count == i;
      r
  }

  /** `next`. */
  function Next(idx: int, count: int): int
    requires count >= 0
  {
    GoTo(idx, idx + 1, count)
  }

  /** `prev`. */
  function Prev(idx: int, count: int): int
    requires count >= 0
  {
    GoTo(idx, idx - 1, count)
  }

  /** From the last slide `next` wraps to the first; elsewhere it steps
      forward by one. */
  lemma NextWraps(idx: int, count: int)
    requires 0 <= idx < count
    ensures Next(idx, count) == (if idx == count - 1 then 0 else idx + 1)
  {
    if idx == count - 1 { ModTwice(count); } else { ModWrap(idx + 1 + count, count); }
  }

  /** From the first slide `prev` wraps to the last; elsewhere it steps back
      by one. */
  lemma PrevWraps(idx: int, count: int)
    requires 0 <= idx < count
    ensures Prev(idx, count) == (if idx == 0 then count - 1 else idx - 1)
  {
    if idx == 0 { ModSmall(idx - 1 + count, count); } else { ModWrap(idx - 1 + count, count); }
  }

  /** `prev` undoes `next` and `next` undoes `prev`. */
  lemma NextPrevInverse(idx: int, count: int)
    requires 0 <= idx < count
    ensures Prev(Next(idx, count), count) == idx && Next(Prev(idx, count), count) == idx
  {
    NextWraps(idx, count);
    PrevWraps(idx, count);
    PrevWraps(Next(idx, count), count);
    NextWraps(Prev(idx, count), count);
  }

  /** Whatever index the carousel holds, even one left past the end after
      the list shrank, one arrow click brings it back onto a slide. */
  lemma ArrowsLandOnASlide(idx: int, count: int)
    requires 0 <= idx && count > 0
    ensures 0 <= Next(idx, count) < count
    ensures 0 <= Prev(idx, count) < count
  {
  }

  /** The range guarantee stops at `-count`: `goTo(-3)` with two slides
      selects index -1, which is no slide. */
  lemma FarBelowRangeIsNegative()
    ensures GoTo(0, -3, 2) == -1
  {
    assert Rem(-1, 2) == -1;
  }
}
