/** The venue editor's state (`src/features/manager/VenueForm.tsx`, whose
    logic `src/features/manager/VenueForm/VenueForm.tsx` repeats): the
    initial values, the field and image-row edits, and submission.

    A field the caller leaves out of the initial values is `None`. A
    JavaScript value that is a number or a string is a `NumberField`.
 */
module VenueForm {
  import opened Wrappers
  import opened Numbers
  import Seqs

  /** `number | string`. */
  datatype NumberField = Num(number: real) | Text(text: string)

  /** One image row of the form. */
  datatype MediaRow = MediaRow(url: string, alt: string)

  /** `VenueFormValues`. */
  datatype FormValues = FormValues(
    name: string,
    description: string,
    price: NumberField,
    maxGuests: NumberField,
    rating: string,
    media: seq<MediaRow>,
    address: string,
    city: string,
    country: string,
    wifi: bool,
    parking: bool,
    breakfast: bool,
    pets: bool)

  /** An image row as a caller may pass it, either part possibly absent. */
  datatype InputMedia = InputMedia(url: Option<string>, alt: Option<string>)

  /** A rating as a caller may pass it. */
  datatype RatingInput = RatingNum(number: real) | RatingText(text: string)

  /** `Partial<VenueFormValues>`: every field optional. */
  datatype InitialValues = InitialValues(
    name: Option<string>,
    description: Option<string>,
    price: Option<NumberField>,
    maxGuests: Option<NumberField>,
    rating: Option<RatingInput>,
    media: Option<seq<InputMedia>>,
    address: Option<string>,
    city: Option<string>,
    country: Option<string>,
    wifi: Option<bool>,
    parking: Option<bool>,
    breakfast: Option<bool>,
    pets: Option<bool>)

  /** A form opened without initial values. */
  const NoInitialValues := InitialValues(None, None, None, None, None, None, None, None, None, None, None, None, None)

  /** The blank image row. */
  const EmptyRow := MediaRow("", "")

  /** `defaultValues`: everything blank, one blank image row. */
  const Defaults := FormValues("", "", Text(""), Text(""), "", [EmptyRow], "", "", "", false, false, false, false)

  /** The initial image rows: the given rows with missing parts blank, or a
      single blank row when none are given. */
  function InitialMedia(media: Option<seq<InputMedia>>): (r: seq<MediaRow>)
    ensures |r| >= 1
    ensures media.Some? && |media.value| > 0 ==>
      && |r| == |media.value|
      && forall i :: 0 <= i < |r| ==>
           r[i].url == media.value[i].url.GetOr("") && r[i].alt == media.value[i].alt.GetOr("")
    ensures media.None? || |media.value| == 0 ==> r == [EmptyRow]
  {
    if media.Some? && |media.value| > 0
    then seq(|media.value|, i requires 0 <= i < |media.value| =>
           MediaRow(media.value[i].url.GetOr(""), media.value[i].alt.GetOr("")))
    else Defaults.media
  }

  /** The initial rating text: a number as its `String(...)`, a string as
      is, and blank when absent. */
  function InitialRating(rating: Option<RatingInput>, conv: Conversions): (r: string)
    ensures rating.None? ==> r == ""
    ensures rating.Some? && rating.value.RatingText? ==> r == rating.value.text
    ensures rating.Some? && rating.value.RatingNum? ==> r == conv.toText(rating.value.number)
  {
    match rating
    case None => ""
    case Some(RatingNum(x)) => conv.toText(x)
    case Some(RatingText(s)) => s
  }

  /** A numeric initial rating reads back as the same number. */
  lemma InitialRatingRoundTrip(x: real, conv: Conversions)
    requires RoundTripsAt(conv, x)
    ensures conv.toNumber(InitialRating(Some(RatingNum(x)), conv)) == Finite(x)
  {
  }

  /** The state on first render: the defaults overridden by every given
      field, with the image rows and the rating normalised. */
  function InitialState(init: InitialValues, conv: Conversions): (r: FormValues)
    ensures |r.media| >= 1
    ensures r.rating == InitialRating(init.rating, conv) && r.media == InitialMedia(init.media)
    ensures r.name == init.name.GetOr(Defaults.name)
    ensures r.description == init.description.GetOr(Defaults.description)
    ensures r.price == init.price.GetOr(Defaults.price)
    ensures r.maxGuests == init.maxGuests.GetOr(Defaults.maxGuests)
    ensures r.address == init.address.GetOr(Defaults.address)
    ensures r.city == init.city.GetOr(Defaults.city)
    ensures r.country == init.country.GetOr(Defaults.country)
    ensures r.wifi == init.wifi.GetOr(false) && r.parking == init.parking.GetOr(false)
    ensures r.breakfast == init.breakfast.GetOr(false) && r.pets == init.pets.GetOr(false)
  {
    FormValues(
      init.name.GetOr(Defaults.name),
      init.description.GetOr(Defaults.description),
      init.price.GetOr(Defaults.price),
      init.maxGuests.GetOr(Defaults.maxGuests),
      InitialRating(init.rating, conv),
      InitialMedia(init.media),
      init.address.GetOr(Defaults.address),
      init.city.GetOr(Defaults.city),
      init.country.GetOr(Defaults.country),
      init.wifi.GetOr(Defaults.wifi),
      init.parking.GetOr(Defaults.parking),
      init.breakfast.GetOr(Defaults.breakfast),
      init.pets.GetOr(Defaults.pets))
  }

  /** Without initial values the form starts at the defaults. */
  lemma BlankStart(conv: Conversions)
    ensures InitialState(NoInitialValues, conv) == Defaults
  {
  }

  /** The fields `update` is called with (every field but the image rows). */
  datatype Field =
    | Name | Description | Price | MaxGuests | Rating
    | Address | City | Country | Wifi | Parking | Breakfast | Pets

  /** A field's value. */
  datatype FieldValue = TextValue(text: string) | NumberValue(number: NumberField) | FlagValue(flag: bool)

  /** `update(key, val)` for each field. */
  datatype Edit =
    | SetName(name: string)
    | SetDescription(description: string)
    | SetPrice(price: NumberField)
    | SetMaxGuests(maxGuests: NumberField)
    | SetRating(rating: string)
    | SetAddress(address: string)
    | SetCity(city: string)
    | SetCountry(country: string)
    | SetWifi(wifi: bool)
    | SetParking(parking: bool)
    | SetBreakfast(breakfast: bool)
    | SetPets(pets: bool)

  /** Reading one field. */
  function Read(v: FormValues, f: Field): FieldValue {
    match f
    case Name => TextValue(v.name)
    case Description => TextValue(v.description)
    case Price => NumberValue(v.price)
    case MaxGuests => NumberValue(v.maxGuests)
    case Rating => TextValue(v.rating)
    case Address => TextValue(v.address)
    case City => TextValue(v.city)
    case Country => TextValue(v.country)
    case Wifi => FlagValue(v.wifi)
    case Parking => FlagValue(v.parking)
    case Breakfast => FlagValue(v.breakfast)
    case Pets => FlagValue(v.pets)
  }

  /** The field an edit targets. */
  function Target(e: Edit): Field {
    match e
    case SetName(_) => Name
    case SetDescription(_) => Description
    case SetPrice(_) => Price
    case SetMaxGuests(_) => MaxGuests
    case SetRating(_) => Rating
    case SetAddress(_) => Address
    case SetCity(_) => City
    case SetCountry(_) => Country
    case SetWifi(_) => Wifi
    case SetParking(_) => Parking
    case SetBreakfast(_) => Breakfast
    case SetPets(_) => Pets
  }

  /** The value an edit writes. */
  function Written(e: Edit): FieldValue {
    match e
    case SetName(s) => TextValue(s)
    case SetDescription(s) => TextValue(s)
    case SetPrice(n) => NumberValue(n)
    case SetMaxGuests(n) => NumberValue(n)
    case SetRating(s) => TextValue(s)
    case SetAddress(s) => TextValue(s)
    case SetCity(s) => TextValue(s)
    case SetCountry(s) => TextValue(s)
    case SetWifi(b) => FlagValue(b)
    case SetParking(b) => FlagValue(b)
    case SetBreakfast(b) => FlagValue(b)
    case SetPets(b) => FlagValue(b)
  }

  /** `update(key, val)`: the targeted field reads back the written value,
      every other field and the image rows stay as they were. */
  function Update(v: FormValues, e: Edit): (r: FormValues)
    ensures Read(r, Target(e)) == Written(e)
    ensures forall f :: f != Target(e) ==> Read(r, f) == Read(v, f)
    ensures r.media == v.media
  {
    match e
    case SetName(s) => v.(name := s)
    case SetDescription(s) => v.(description := s)
    case SetPrice(n) => v.(price := n)
    case SetMaxGuests(n) => v.(maxGuests := n)
    case SetRating(s) => v.(rating := s)
    case SetAddress(s) => v.(address := s)
    case SetCity(s) => v.(city := s)
    case SetCountry(s) => v.(country := s)
    case SetWifi(b) => v.(wifi := b)
    case SetParking(b) => v.(parking := b)
    case SetBreakfast(b) => v.(breakfast := b)
    case SetPets(b) => v.(pets := b)
  }

  /** Writing back a field's current value changes nothing. */
  lemma UpdateSameValue(v: FormValues, e: Edit)
    requires Read(v, Target(e)) == Written(e)
    ensures Update(v, e) == v
  {
  }

  /** The two parts of an image row. */
  datatype MediaKey = Url | Alt

  /** `updateMedia(idx, key, val)` on a row the form shows: that part of
      that row takes the value; the other part, every other row, the number
      of rows and all other fields stay. */
  function UpdateMedia(v: FormValues, idx: int, key: MediaKey, val: string): (r: FormValues)
    requires 0 <= idx < |v.media|
    ensures |r.media| == |v.media|
    ensures r.media[idx].url == (if key.Url? then val else v.media[idx].url)
    ensures r.media[idx].alt == (if key.Alt? then val else v.media[idx].alt)
    ensures forall j :: 0 <= j < |v.media| && j != idx ==> r.media[j] == v.media[j]
    ensures r.(media := v.media) == v
  {
    var row := v.media[idx];
    var row' := if key.Url? then row.(url := val) else row.(alt := val);
    v.(media := v.media[idx := row'])
  }

  /** `addImage`: one blank row at the end. */
  function AddImage(v: FormValues): (r: FormValues)
    ensures |r.media| == |v.media| + 1
    ensures r.media[..|v.media|] == v.media && r.media[|v.media|] == EmptyRow
    ensures r.(media := v.media) == v
  {
    v.(media := v.media + [EmptyRow])
  }

  /** `rows.filter((_, i) => i !== idx)`. */
  function WithoutIndex(rows: seq<MediaRow>, idx: int): (r: seq<MediaRow>)
    ensures 0 <= idx < |rows| ==> |r| == |rows| - 1
    ensures !(0 <= idx < |rows|) ==> r == rows
    ensures forall j :: 0 <= j < |r| ==> r[j] == rows[if j < idx || idx < 0 then j else j + 1]
    decreases |rows|
  {
    if |rows| == 0 || idx < 0 then rows
    else if idx == 0 then rows[1..]
    else
      var tail := WithoutIndex(rows[1..], idx - 1);
      assert forall j :: 1 <= j <= |tail| ==> ([rows[0]] + tail)[j] == tail[j - 1];
      [rows[0]] + tail
  }

  /** Removing an index in range leaves the rows before it followed by the
      rows after it. */
  lemma WithoutIndexSlices(rows: seq<MediaRow>, idx: int)
    requires 0 <= idx < |rows|
    ensures WithoutIndex(rows, idx) == rows[..idx] + rows[idx + 1..]
  {
    var r := WithoutIndex(rows, idx);
    var e := rows[..idx] + rows[idx + 1..];
    assert |r| == |e|;
    forall j | 0 <= j < |r| ensures r[j] == e[j] {
      if j < idx { assert e[j] == rows[j]; } else { assert e[j] == rows[j + 1]; }
    }
  }

  /** Removing a row takes out exactly one occurrence of that row. */
  lemma WithoutIndexMultiset(rows: seq<MediaRow>, idx: int)
    requires 0 <= idx < |rows|
    ensures multiset(WithoutIndex(rows, idx)) + multiset{rows[idx]} == multiset(rows)
  {
    WithoutIndexSlices(rows, idx);
    Seqs.RemoveAtMultiset(rows, idx);
  }

  /** `removeImage(idx)`: the row at `idx` goes and the rest keep their
      order; removing the only row leaves one blank row. */
  function RemoveImage(v: FormValues, idx: int): (r: FormValues)
    ensures |r.media| >= 1
    ensures |WithoutIndex(v.media, idx)| > 0 ==> r.media == WithoutIndex(v.media, idx)
    ensures |WithoutIndex(v.media, idx)| == 0 ==> r.media == [EmptyRow]
    ensures r.(media := v.media) == v
  {
    var rows := WithoutIndex(v.media, idx);
    v.(media := if |rows| > 0 then rows else [EmptyRow])
  }

  /** What a manager can do with the form. */
  datatype FormEvent =
    | Edited(edit: Edit)
    | MediaEdited(idx: int, key: MediaKey, val: string)
    | ImageAdded
    | ImageRemoved(idx: int)
    | Submitted

  /** The form only offers row edits for rows it shows. */
  predicate Offered(v: FormValues, e: FormEvent) {
    e.MediaEdited? ==> 0 <= e.idx < |v.media|
  }

  /** One event: each edit goes to its handler, and submission leaves the
      values as they are. */
  function Step(v: FormValues, e: FormEvent): (r: FormValues)
    requires Offered(v, e)
    ensures |v.media| >= 1 ==> |r.media| >= 1
    ensures e.Edited? ==> r == Update(v, e.edit)
    ensures e.MediaEdited? ==> r == UpdateMedia(v, e.idx, e.key, e.val)
    ensures e.ImageAdded? ==> r == AddImage(v)
    ensures e.ImageRemoved? ==> r == RemoveImage(v, e.idx)
    ensures e.Submitted? ==> r == v
  {
    match e
    case Edited(edit) => Update(v, edit)
    case MediaEdited(idx, key, val) => UpdateMedia(v, idx, key, val)
    case ImageAdded => AddImage(v)
    case ImageRemoved(idx) => RemoveImage(v, idx)
    case Submitted => v
  }

  /** Every event of a run is one the form offers at that point. */
  predicate RunOffered(v: FormValues, events: seq<FormEvent>)
    decreases |events|
  {
    |events| == 0 || (Offered(v, events[0]) && RunOffered(Step(v, events[0]), events[1..]))
  }

  /** The values after a run, and every value handed to `onSubmit`, in
      order. */
  function Run(v: FormValues, events: seq<FormEvent>): (FormValues, seq<FormValues>)
    requires RunOffered(v, events)
    decreases |events|
  {
    if |events| == 0 then (v, [])
    else
      var next := Step(v, events[0]);
      var (last, rest) := Run(next, events[1..]);
      (last, if events[0].Submitted? then [v] + rest else rest)
  }

  /** From any state with image rows, the form never runs out of rows, and
      every submitted value has at least one row. */
  lemma {:induction false} MediaNeverEmpty(v: FormValues, events: seq<FormEvent>)
    requires |v.media| >= 1
    requires RunOffered(v, events)
    ensures |Run(v, events).0.media| >= 1
    ensures forall i :: 0 <= i < |Run(v, events).1| ==> |Run(v, events).1[i].media| >= 1
    decreases |events|
  {
    if |events| > 0 {
      MediaNeverEmpty(Step(v, events[0]), events[1..]);
    }
  }

  /** Submitting right away hands over exactly the current values. */
  lemma SubmitPassesValues(v: FormValues)
    ensures Run(v, [Submitted]) == (v, [v])
  {
    var events := [Submitted];
    assert events[1..] == [];
    assert [v] + [] == [v];
  }
}
