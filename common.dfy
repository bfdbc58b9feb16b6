/** Shared vocabulary of the model: optional values and the identifiers the
    music service hands out (opaque strings to this program). */
module Common {

  /** Python's `None` or a value. */
  datatype Option<+T> = None | Some(value: T)

  type ArtistId = string
  type AlbumId = string
  type TrackId = string

  /** Python truthiness of an optional string: `None` and `""` are both falsy. */
  predicate Truthy(o: Option<string>) {
    o.Some? && o.value != ""
  }
}
