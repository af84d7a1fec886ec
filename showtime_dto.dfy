/** The response shape of a showtime: the stored fields, with the movie
    reference flattened to its id. */
module Dto {

  import opened Entities

  datatype ShowtimeDto = ShowtimeDto(id: int, movieId: int, theater: string, startTime: int, endTime: int, price: real)

  /** `convertToDTO`: total on stored showtimes; copies every field. */
  function ConvertToDto(s: Showtime): (d: ShowtimeDto)
    ensures d.id == s.id && d.movieId == s.movieId
    ensures d.theater == s.theater && d.startTime == s.startTime && d.endTime == s.endTime && d.price == s.price
  {
    ShowtimeDto(s.id, s.movieId, s.theater, s.startTime, s.endTime, s.price)
  }

  /** Nothing is lost: two showtimes with the same projection are the same showtime. */
  lemma ConvertToDtoInjective(a: Showtime, b: Showtime)
    ensures ConvertToDto(a) == ConvertToDto(b) ==> a == b
  {
  }
}
