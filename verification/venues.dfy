/** A venue as the API returns it (`src/features/venues/types.ts`).

    Only the fields the modelled logic reads are kept. Numbers are finite
    values; `created` is the creation instant as a time value.
 */
module Venues {
  import opened Wrappers

  /** An image; the API may leave out either part. */
  datatype VenueMedia = VenueMedia(url: Option<string>, alt: Option<string>)

  /** Amenity flags, each possibly absent. */
  datatype VenueMeta = VenueMeta(wifi: Option<bool>, parking: Option<bool>, breakfast: Option<bool>, pets: Option<bool>)

  /** The location fields the forms edit. */
  datatype VenueLocation = VenueLocation(address: Option<string>, city: Option<string>, country: Option<string>)

  datatype Venue = Venue(
    id: string,
    name: string,
    description: Option<string>,
    media: Option<seq<VenueMedia>>,
    price: real,
    rating: Option<real>,
    maxGuests: int,
    meta: Option<VenueMeta>,
    location: Option<VenueLocation>,
    created: int)
}
