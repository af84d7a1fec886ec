/** The stored records and the request bodies of the cinema back end.

    The JPA entities hold object references to their owners and lists of
    their children; here every reference is the owner's id, and the lists of
    children are not stored at all: they are the records whose reference
    points back (see `Store`). */
module Entities {

  import opened Wrappers

  /** An opaque generated identifier (the `UUID` of a booking or a user). */
  type Uuid = nat

  /** A stored movie. */
  datatype Movie = Movie(id: int, title: string, genre: string, duration: int, rating: real, releaseYear: int)

  /** A stored showtime; `movieId` is the owning movie. Times are instants on one
      integer time line. */
  datatype Showtime = Showtime(id: int, movieId: int, theater: string, startTime: int, endTime: int, price: real)

  /** A stored booking; `showtimeId` is the owning showtime. */
  datatype Booking = Booking(id: Uuid, showtimeId: int, seatNumber: int, userId: Uuid)

  /** A movie as it arrives in a request body; reference fields may be null,
      numeric fields are primitives. */
  datatype MovieForm = MovieForm(title: Option<string>, genre: Option<string>, duration: int, rating: real, releaseYear: int)

  /** The movie object nested in a showtime request; only its id is read. */
  datatype MovieRef = MovieRef(id: Option<int>)

  /** A showtime as it arrives in a request body. */
  datatype ShowtimeForm = ShowtimeForm(movie: Option<MovieRef>, theater: Option<string>, startTime: Option<int>, endTime: Option<int>, price: real)

  /** A booking as it arrives in a request body (its showtime id travels separately). */
  datatype BookingForm = BookingForm(seatNumber: int, userId: Option<Uuid>)
}
