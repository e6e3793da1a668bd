/** The image gallery of a venue page (`src/components/Gallery.tsx`): which
    images it shows, and the index of the large image under the arrow,
    thumbnail and image-list events.

    The effect that resets an index past the end runs after every change, so
    each step below ends with it.
 */
module Gallery {
  import opened Numbers
  import opened Venues
  import Seqs

  /** `m?.url` is truthy: present and not empty. */
  function HasUrl(): VenueMedia -> bool {
    (m: VenueMedia) => m.url.Some? && m.url.value != ""
  }

  /** The images shown: those with a url, in their original order. */
  function Shown(raw: seq<VenueMedia>): (r: seq<VenueMedia>)
    ensures |r| <= |raw|
    ensures forall i :: 0 <= i < |r| ==> r[i].url.Some? && r[i].url.value != ""
  {
    Seqs.Filter(HasUrl(), raw)
  }

  /** An image is shown exactly when it is one of the images and has a url,
      and the shown images keep their order. */
  lemma ShownExactly(raw: seq<VenueMedia>, m: VenueMedia)
    ensures m in Shown(raw) <==> m in raw && m.url.Some? && m.url.value != ""
    ensures Seqs.IsSubsequence(Shown(raw), raw)
    ensures multiset(Shown(raw))[m] == if m.url.Some? && m.url.value != "" then multiset(raw)[m] else 0
  {
    Seqs.FilterMultiset(HasUrl(), raw);
    Seqs.FilterMembership(HasUrl(), raw, m);
    Seqs.FilterIsSubsequence(HasUrl(), raw);
  }

  /** `next`: with fewer than two images nothing happens; otherwise
      `(i + 1) % n`. */
  function Next(i: int, n: int): (r: int)
    ensures n < 2 ==> r == i
    ensures n >= 2 && 0 <= i ==> 0 <= r < n && r == (i + 1) % n
  {
    if n < 2 then i else Rem(i + 1, n)
  }

  /** `prev`: with fewer than two images nothing happens; otherwise
      `(i - 1 + n) % n`. */
  function Prev(i: int, n: int): (r: int)
    ensures n < 2 ==> r == i
    ensures n >= 2 && 0 <= i ==> 0 <= r < n && r == (i - 1 + n) % n
  {
    if n < 2 then i else Rem(i - 1 + n, n)
  }

  /** On a valid index `next` steps forward and wraps from the last image
      to the first. */
  lemma NextStep(i: int, n: int)
    requires 2 <= n && 0 <= i < n
    ensures Next(i, n) == (if i == n - 1 then 0 else i + 1)
  {
    if i == n - 1 { ModWrap(i + 1, n); } else { ModSmall(i + 1, n); }
  }

  /** On a valid index `prev` steps back and wraps from the first image to
      the last. */
  lemma PrevStep(i: int, n: int)
    requires 2 <= n && 0 <= i < n
    ensures Prev(i, n) == (if i == 0 then n - 1 else i - 1)
  {
    if i == 0 { ModSmall(i - 1 + n, n); } else { ModWrap(i - 1 + n, n); }
  }

  /** `prev` undoes `next` and `next` undoes `prev`. */
  lemma NextPrevInverse(i: int, n: int)
    requires 2 <= n && 0 <= i < n
    ensures Prev(Next(i, n), n) == i && Next(Prev(i, n), n) == i
  {
    NextStep(i, n);
    PrevStep(i, n);
    PrevStep(Next(i, n), n);
    NextStep(Prev(i, n), n);
  }

  /** The effect: an index past the last image goes back to 0. */
  function Reset(current: int, n: int): (r: int)
    ensures current < n ==> r == current
    ensures current >= n ==> r == 0
  {
    if current >= n then 0 else current
  }

  /** The gallery's images and the index of the large one. */
  datatype State = State(raw: seq<VenueMedia>, current: int)

  /** What can happen to the gallery. */
  datatype Event = PrevClicked | NextClicked | ThumbnailClicked(idx: int) | ImagesChanged(newRaw: seq<VenueMedia>)

  /** Thumbnails are offered only for the images shown. */
  predicate Offered(s: State, e: Event) {
    e.ThumbnailClicked? ==> 0 <= e.idx < |Shown(s.raw)|
  }

  /** One event followed by the reset effect. */
  function Step(s: State, e: Event): (r: State)
    requires Offered(s, e)
    ensures e.PrevClicked? ==> r.current == Reset(Prev(s.current, |Shown(s.raw)|), |Shown(s.raw)|)
    ensures e.NextClicked? ==> r.current == Reset(Next(s.current, |Shown(s.raw)|), |Shown(s.raw)|)
    ensures e.ThumbnailClicked? ==> r.current == e.idx
    ensures e.ImagesChanged? ==> r == State(e.newRaw, Reset(s.current, |Shown(e.newRaw)|))
    ensures !e.ImagesChanged? ==> r.raw == s.raw
  {
    var n := |Shown(s.raw)|;
    match e
    case PrevClicked => s.(current := Reset(Prev(s.current, n), n))
    case NextClicked => s.(current := Reset(Next(s.current, n), n))
    case ThumbnailClicked(idx) => s.(current := Reset(idx, n))
    case ImagesChanged(raw) => State(raw, Reset(s.current, |Shown(raw)|))
  }

  /** The large image exists whenever there are images: the index is never
      negative and lies within the shown images unless there are none. */
  predicate Valid(s: State) {
    0 <= s.current && (s.current < |Shown(s.raw)| || s.current == 0)
  }

  /** Every step keeps the index valid. */
  lemma StepKeepsValid(s: State, e: Event)
    requires Valid(s) && Offered(s, e)
    ensures Valid(Step(s, e))
  {
  }

  /** Every event of a run is one the gallery offers at that point. */
  predicate RunOffered(s: State, events: seq<Event>)
    decreases |events|
  {
    |events| == 0 || (Offered(s, events[0]) && RunOffered(Step(s, events[0]), events[1..]))
  }

  /** The state after a run of events. */
  function Run(s: State, events: seq<Event>): State
    requires RunOffered(s, events)
    decreases |events|
  {
    if |events| == 0 then s else Run(Step(s, events[0]), events[1..])
  }

  /** Starting at the first image, any run leaves a valid index, so the large
      image is always one of the shown images when there are any. */
  lemma {:induction false} RunKeepsValid(s: State, events: seq<Event>)
    requires Valid(s) && RunOffered(s, events)
    ensures Valid(Run(s, events))
    ensures |Shown(Run(s, events).raw)| > 0 ==> Run(s, events).current < |Shown(Run(s, events).raw)|
    decreases |events|
  {
    if |events| > 0 {
      StepKeepsValid(s, events[0]);
      RunKeepsValid(Step(s, events[0]), events[1..]);
    }
  }
}
