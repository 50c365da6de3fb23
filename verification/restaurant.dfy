/** The restaurant entity of `types/restaurant.ts`, cut down to the fields the photo selector reads. */
module RestaurantTypes {
  import opened Wrappers

  /** `'restaurant' | 'cafe' | 'fast_food'`; `Dining` is the source's `'restaurant'`. */
  datatype RestaurantType = Dining | Cafe | FastFood

  /** A restaurant: its place identifier, its type (`type` in the source) and the optional
      provider photo URL. */
  datatype Restaurant = Restaurant(id: string, kind: RestaurantType, imageUrl: Option<string>)
}
