/** From form values to the API's venue payload and back: `toPayload` of the
    create page (`src/features/manager/ManagerVenueNew.tsx`), `toPayload`
    and `fromVenueToFormValues` of the edit page
    (`src/features/manager/ManagerVenueEdit.tsx`).

    The two `toPayload`s differ only in the blank-url test and in the alt
    fallback: the create page trims the venue name, the edit page does not.
 */
module VenuePayload {
  import opened Wrappers
  import opened Numbers
  import opened Text
  import opened Venues
  import VenueForm
  import Seqs

  /** An image as sent. */
  datatype PayloadMedia = PayloadMedia(url: string, alt: string)

  /** The location as sent; an empty field is left out. */
  datatype PayloadLocation = PayloadLocation(address: Option<string>, city: Option<string>, country: Option<string>)

  /** The amenity flags as sent. */
  datatype PayloadMeta = PayloadMeta(wifi: bool, parking: bool, breakfast: bool, pets: bool)

  /** `VenuePayload`. */
  datatype Payload = Payload(
    name: string,
    description: string,
    price: JsNumber,
    maxGuests: JsNumber,
    media: seq<PayloadMedia>,
    location: PayloadLocation,
    meta: PayloadMeta,
    rating: Option<JsNumber>)

  /** `Number(value)` of a field holding a number or a string. */
  function ToNumber(f: VenueForm.NumberField, conv: Conversions): (n: JsNumber)
    ensures f.Num? ==> n == Finite(f.number)
  {
    match f
    case Num(x) => Finite(x)
    case Text(s) => conv.toNumber(s)
  }

  /** The rating: left out when blank, otherwise `Number(rating)`. */
  function PayloadRating(rating: string, conv: Conversions): (r: Option<JsNumber>)
    ensures r.None? <==> rating == ""
    ensures r.Some? ==> r.value == conv.toNumber(rating)
  {
    if rating == "" then None else Some(conv.toNumber(rating))
  }

  /** `value || undefined`. */
  function AbsentIfEmpty(s: string): (r: Option<string>)
    ensures r.None? <==> s == ""
    ensures r.Some? ==> r.value == s
  {
    if s == "" then None else Some(s)
  }

  /** The location and flags, identical on both pages. */
  function Location(values: VenueForm.FormValues): PayloadLocation {
    PayloadLocation(AbsentIfEmpty(values.address), AbsentIfEmpty(values.city), AbsentIfEmpty(values.country))
  }

  function Meta(values: VenueForm.FormValues): PayloadMeta {
    PayloadMeta(values.wifi, values.parking, values.breakfast, values.pets)
  }

  /** The create page's row test: `m.url.trim()` is truthy. */
  function NewKeeps(): VenueForm.MediaRow -> bool {
    (m: VenueForm.MediaRow) => Trim(m.url) != ""
  }

  /** The edit page's row test: `m.url && m.url.trim().length > 0`. */
  function EditKeeps(): VenueForm.MediaRow -> bool {
    (m: VenueForm.MediaRow) => m.url != "" && |Trim(m.url)| > 0
  }

  /** Both pages keep the same rows: those whose url is not blank. */
  lemma SameRowsKept(m: VenueForm.MediaRow)
    ensures NewKeeps()(m) <==> EditKeeps()(m)
    ensures NewKeeps()(m) <==> !AllWhitespace(m.url)
  {
    TrimEmptyIffBlank(m.url);
  }

  /** The create page's image: `(m.alt?.trim() || name).trim()`. */
  function NewImage(name: string): VenueForm.MediaRow -> PayloadMedia {
    (m: VenueForm.MediaRow) => PayloadMedia(Trim(m.url), Trim(if Trim(m.alt) != "" then Trim(m.alt) else name))
  }

  /** The edit page's image: the trimmed alt when it is not blank, otherwise
      the name as it is. */
  function EditImage(name: string): VenueForm.MediaRow -> PayloadMedia {
    (m: VenueForm.MediaRow) => PayloadMedia(Trim(m.url), if |Trim(m.alt)| > 0 then Trim(m.alt) else name)
  }

  /** The create page's alt is the trimmed alt, or the trimmed name when the
      alt is blank. */
  lemma NewAltFallback(m: VenueForm.MediaRow, name: string)
    ensures Trim(m.alt) != "" ==> NewImage(name)(m).alt == Trim(m.alt)
    ensures Trim(m.alt) == "" ==> NewImage(name)(m).alt == Trim(name)
  {
    TrimIdempotent(m.alt);
  }

  /** The edit page's alt is the trimmed alt, or the venue name as it is
      when the alt is blank. */
  lemma EditAltFallback(m: VenueForm.MediaRow, name: string)
    ensures Trim(m.alt) != "" ==> EditImage(name)(m).alt == Trim(m.alt)
    ensures Trim(m.alt) == "" ==> EditImage(name)(m).alt == name
  {
  }

  /** `toPayload` of the create page. */
  function ToPayloadNew(values: VenueForm.FormValues, conv: Conversions): (p: Payload)
    ensures p.name == values.name && p.description == values.description
    ensures p.price == ToNumber(values.price, conv) && p.maxGuests == ToNumber(values.maxGuests, conv)
    ensures p.rating == PayloadRating(values.rating, conv)
    ensures p.location == Location(values) && p.meta == Meta(values)
    ensures |p.media| == |Seqs.Filter(NewKeeps(), values.media)|
  {
    var kept := Seqs.Filter(NewKeeps(), values.media);
    var media := Seqs.Map(NewImage(values.name), kept);
    Payload(values.name, values.description, ToNumber(values.price, conv), ToNumber(values.maxGuests, conv),
            media, Location(values), Meta(values), PayloadRating(values.rating, conv))
  }

  /** `toPayload` of the edit page. */
  function ToPayloadEdit(values: VenueForm.FormValues, conv: Conversions): (p: Payload)
    ensures p.name == values.name && p.description == values.description
    ensures p.price == ToNumber(values.price, conv) && p.maxGuests == ToNumber(values.maxGuests, conv)
    ensures p.rating == PayloadRating(values.rating, conv)
    ensures p.location == Location(values) && p.meta == Meta(values)
    ensures |p.media| == |Seqs.Filter(EditKeeps(), values.media)|
  {
    var kept := Seqs.Filter(EditKeeps(), values.media);
    var media := Seqs.Map(EditImage(values.name), kept);
    Payload(values.name, values.description, ToNumber(values.price, conv), ToNumber(values.maxGuests, conv),
            media, Location(values), Meta(values), PayloadRating(values.rating, conv))
  }

  /** Every image the create page sends has a non-empty trimmed url and a
      trimmed alt. */
  lemma NewMediaClean(values: VenueForm.FormValues, conv: Conversions)
    ensures var media := ToPayloadNew(values, conv).media;
      forall i :: 0 <= i < |media| ==> media[i].url != "" && IsTrimmed(media[i].url) && IsTrimmed(media[i].alt)
  {
  }

  /** Every image the edit page sends has a non-empty trimmed url, and an
      alt that is either a non-blank trimmed text or the venue name. */
  lemma EditMediaClean(values: VenueForm.FormValues, conv: Conversions)
    ensures var media := ToPayloadEdit(values, conv).media;
      forall i :: 0 <= i < |media| ==>
        && media[i].url != "" && IsTrimmed(media[i].url)
        && (media[i].alt == values.name || (media[i].alt != "" && IsTrimmed(media[i].alt)))
  {
  }

  /** The payload's images correspond one to one, in order, to the form rows
      with a non-blank url, which are an order-preserving selection of the
      rows; a row is sent exactly when its url is not blank. */
  lemma PayloadMediaFromRows(values: VenueForm.FormValues, conv: Conversions, m: VenueForm.MediaRow)
    ensures Seqs.IsSubsequence(Seqs.Filter(NewKeeps(), values.media), values.media)
    ensures m in Seqs.Filter(NewKeeps(), values.media) <==> m in values.media && !AllWhitespace(m.url)
    ensures forall i :: 0 <= i < |ToPayloadNew(values, conv).media| ==>
      ToPayloadNew(values, conv).media[i] == NewImage(values.name)(Seqs.Filter(NewKeeps(), values.media)[i])
  {
    Seqs.FilterIsSubsequence(NewKeeps(), values.media);
    Seqs.FilterMembership(NewKeeps(), values.media, m);
    SameRowsKept(m);
  }

  /** The edit page sends its images from the same rows as the create page. */
  lemma EditMediaFromSameRows(values: VenueForm.FormValues, conv: Conversions)
    ensures ToPayloadEdit(values, conv).media == Seqs.Map(EditImage(values.name), Seqs.Filter(NewKeeps(), values.media))
  {
    FilterSameRows(values.media);
  }

  /** The two row tests select the same rows. */
  lemma {:induction false} FilterSameRows(rows: seq<VenueForm.MediaRow>)
    ensures Seqs.Filter(EditKeeps(), rows) == Seqs.Filter(NewKeeps(), rows)
  {
    if |rows| > 0 {
      SameRowsKept(rows[0]);
      FilterSameRows(rows[1..]);
    }
  }

  /** `fromVenueToFormValues`: absent text becomes blank, absent flags false,
      numbers become their text, and every image becomes a row. */
  function FromVenue(v: Venue, conv: Conversions): (f: VenueForm.FormValues)
    ensures f.name == v.name && f.description == v.description.GetOr("")
    ensures f.price == VenueForm.Text(conv.toText(v.price))
    ensures f.maxGuests == VenueForm.Text(conv.toText(v.maxGuests as real))
    ensures v.rating.None? ==> f.rating == ""
    ensures v.rating.Some? ==> f.rating == conv.toText(v.rating.value)
    ensures |f.media| == |v.media.GetOr([])|
    ensures forall i :: 0 <= i < |f.media| ==>
      f.media[i] == VenueForm.MediaRow(v.media.value[i].url.GetOr(""), v.media.value[i].alt.GetOr(""))
    ensures v.location.None? ==> f.address == "" && f.city == "" && f.country == ""
    ensures v.location.Some? ==>
      && f.address == v.location.value.address.GetOr("")
      && f.city == v.location.value.city.GetOr("")
      && f.country == v.location.value.country.GetOr("")
    ensures v.meta.None? ==> !f.wifi && !f.parking && !f.breakfast && !f.pets
    ensures v.meta.Some? ==>
      && f.wifi == v.meta.value.wifi.GetOr(false)
      && f.parking == v.meta.value.parking.GetOr(false)
      && f.breakfast == v.meta.value.breakfast.GetOr(false)
      && f.pets == v.meta.value.pets.GetOr(false)
  {
    var location := v.location.GetOr(VenueLocation(None, None, None));
    var meta := v.meta.GetOr(VenueMeta(None, None, None, None));
    VenueForm.FormValues(
      v.name,
      v.description.GetOr(""),
      VenueForm.Text(conv.toText(v.price)),
      VenueForm.Text(conv.toText(v.maxGuests as real)),
      if v.rating.Some? then conv.toText(v.rating.value) else "",
      Seqs.Map(RowOf(), v.media.GetOr([])),
      location.address.GetOr(""),
      location.city.GetOr(""),
      location.country.GetOr(""),
      meta.wifi.GetOr(false),
      meta.parking.GetOr(false),
      meta.breakfast.GetOr(false),
      meta.pets.GetOr(false))
  }

  /** An image whose url and alt are present, not blank and already
      trimmed. */
  predicate CleanMedia(m: VenueMedia) {
    && m.url.Some? && m.url.value != "" && Trim(m.url.value) == m.url.value
    && m.alt.Some? && m.alt.value != "" && Trim(m.alt.value) == m.alt.value
  }

  /** A location field as the payload carries it after editing. */
  function SentField(field: Option<string>): Option<string> {
    if field.Some? && field.value != "" then field else None
  }

  /** Saving a venue unedited sends back what it holds: its name and
      description, its amenity flags (absent ones as false) and its
      non-empty location fields always, and its price, guest limit and
      rating whenever their texts read back as the same numbers. */
  lemma EditRoundTrip(v: Venue, conv: Conversions)
    ensures var p := ToPayloadEdit(FromVenue(v, conv), conv);
      && p.name == v.name
      && p.description == v.description.GetOr("")
      && (RoundTripsAt(conv, v.price) ==> p.price == Finite(v.price))
      && (RoundTripsAt(conv, v.maxGuests as real) ==> p.maxGuests == Finite(v.maxGuests as real))
      && (v.rating.None? ==> p.rating.None?)
      && (v.rating.Some? && RoundTripsAt(conv, v.rating.value) ==> p.rating == Some(Finite(v.rating.value)))
      && (v.location.None? ==> p.location == PayloadLocation(None, None, None))
      && (v.location.Some? ==>
            p.location == PayloadLocation(SentField(v.location.value.address), SentField(v.location.value.city),
                                          SentField(v.location.value.country)))
      && (v.meta.None? ==> p.meta == PayloadMeta(false, false, false, false))
      && (v.meta.Some? ==>
            p.meta == PayloadMeta(v.meta.value.wifi.GetOr(false), v.meta.value.parking.GetOr(false),
                                  v.meta.value.breakfast.GetOr(false), v.meta.value.pets.GetOr(false)))
  {
    EditRoundTripNumbers(v, FromVenue(v, conv), conv);
  }

  /** Saving a venue unedited sends every image exactly as the venue holds
      it, in order, when each has a url and an alt that are not blank and
      already trimmed. */
  lemma EditRoundTripImages(v: Venue, conv: Conversions)
    requires forall i :: 0 <= i < |v.media.GetOr([])| ==> CleanMedia(v.media.value[i])
    ensures ToPayloadEdit(FromVenue(v, conv), conv).media == Seqs.Map(SentAsIs(), v.media.GetOr([]))
  {
    EditRoundTripMedia(v.media.GetOr([]), FromVenue(v, conv), conv);
  }

  /** The numeric part of the round trip. */
  lemma EditRoundTripNumbers(v: Venue, f: VenueForm.FormValues, conv: Conversions)
    requires f == FromVenue(v, conv)
    ensures RoundTripsAt(conv, v.price) ==> ToNumber(f.price, conv) == Finite(v.price)
    ensures RoundTripsAt(conv, v.maxGuests as real) ==> ToNumber(f.maxGuests, conv) == Finite(v.maxGuests as real)
    ensures v.rating.None? ==> PayloadRating(f.rating, conv).None?
    ensures v.rating.Some? && RoundTripsAt(conv, v.rating.value) ==>
      PayloadRating(f.rating, conv) == Some(Finite(v.rating.value))
  {
  }

  /** An image as a form row, missing parts blank. */
  function RowOf(): VenueMedia -> VenueForm.MediaRow {
    (m: VenueMedia) => VenueForm.MediaRow(m.url.GetOr(""), m.alt.GetOr(""))
  }

  /** An image sent exactly as the venue holds it. */
  function SentAsIs(): VenueMedia -> PayloadMedia {
    (m: VenueMedia) => PayloadMedia(m.url.GetOr(""), m.alt.GetOr(""))
  }

  /** The image part of the round trip. */
  lemma EditRoundTripMedia(images: seq<VenueMedia>, f: VenueForm.FormValues, conv: Conversions)
    requires f.media == Seqs.Map(RowOf(), images)
    requires forall i :: 0 <= i < |images| ==> CleanMedia(images[i])
    ensures ToPayloadEdit(f, conv).media == Seqs.Map(SentAsIs(), images)
  {
    KeptAll(f.media);
    var sent := Seqs.Map(EditImage(f.name), f.media);
    var want := Seqs.Map(SentAsIs(), images);
    assert ToPayloadEdit(f, conv).media == sent;
    forall i | 0 <= i < |sent| ensures sent[i] == want[i] {
      CleanImageSentAsIs(images[i], f.name);
    }
  }

  /** A clean image passes through the edit page unchanged. */
  lemma CleanImageSentAsIs(m: VenueMedia, name: string)
    requires CleanMedia(m)
    ensures EditImage(name)(RowOf()(m)) == SentAsIs()(m)
  {
  }

  /** When every row's url is clean, the edit page keeps every row. */
  lemma KeptAll(rows: seq<VenueForm.MediaRow>)
    requires forall i :: 0 <= i < |rows| ==> rows[i].url != "" && Trim(rows[i].url) == rows[i].url
    ensures Seqs.Filter(EditKeeps(), rows) == rows
  {
    Seqs.FilterAll(EditKeeps(), rows);
  }

  /** The edit page hands `fromVenueToFormValues(venue)` to the form as its
      initial values. */
  function AsInitial(f: VenueForm.FormValues): VenueForm.InitialValues {
    VenueForm.InitialValues(
      Some(f.name), Some(f.description), Some(f.price), Some(f.maxGuests),
      Some(VenueForm.RatingText(f.rating)),
      Some(Seqs.Map((m: VenueForm.MediaRow) => VenueForm.InputMedia(Some(m.url), Some(m.alt)), f.media)),
      Some(f.address), Some(f.city), Some(f.country),
      Some(f.wifi), Some(f.parking), Some(f.breakfast), Some(f.pets))
  }

  /** Opening a venue in the form and saving without edits sends the same
      payload as converting the venue directly: the blank row the form adds
      for a venue without images is never sent. */
  lemma ThroughFormSamePayload(v: Venue, conv: Conversions)
    ensures ToPayloadEdit(VenueForm.InitialState(AsInitial(FromVenue(v, conv)), conv), conv)
         == ToPayloadEdit(FromVenue(v, conv), conv)
  {
    var f := FromVenue(v, conv);
    var g := VenueForm.InitialState(AsInitial(f), conv);
    if |f.media| == 0 {
      assert g.media == [VenueForm.EmptyRow];
      assert !EditKeeps()(VenueForm.EmptyRow);
      assert Seqs.Filter(EditKeeps(), g.media) == [];
    } else {
      assert g.media == f.media;
    }
    assert g == f.(media := g.media);
  }
}
