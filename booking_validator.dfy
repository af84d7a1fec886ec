/** The fail-fast checks on a booking request. */
module BookingValidator {

  import opened Wrappers
  import opened Entities

  const NullBooking := "Booking cannot be null"
  const MissingShowtimeId := "Showtime ID is required"
  const NullUser := "User ID cannot be null"
  const BadSeat := "Incorrect seat number"

  const MinSeat := 1
  const MaxSeat := 300

  predicate SeatInRange(seat: int) { MinSeat <= seat <= MaxSeat }

  /** A booking request the validator lets through. */
  predicate IsValid(form: Option<BookingForm>, showtimeId: Option<int>) {
    form.Some? && showtimeId.Some? && form.value.userId.Some? && SeatInRange(form.value.seatNumber)
  }

  /** `validateBooking`: `None` when the request passes, otherwise the message
      of the first check that fails. */
  function ValidateBooking(form: Option<BookingForm>, showtimeId: Option<int>): (error: Option<string>)
    ensures error.None? <==> IsValid(form, showtimeId)
    ensures form.None? ==> error == Some(NullBooking)
    ensures form.Some? && showtimeId.None? ==> error == Some(MissingShowtimeId)
    ensures form.Some? && showtimeId.Some? && form.value.userId.None? ==> error == Some(NullUser)
    ensures form.Some? && showtimeId.Some? && form.value.userId.Some? && !SeatInRange(form.value.seatNumber) ==>
              error == Some(BadSeat)
  {
    if form.None? then Some(NullBooking)
    else if showtimeId.None? then Some(MissingShowtimeId)
    else if form.value.userId.None? then Some(NullUser)
    else if form.value.seatNumber < MinSeat || form.value.seatNumber > MaxSeat then Some(BadSeat)
    else None
  }

  /** Seats 1 and 300 pass; 0 and 301 do not. */
  lemma SeatEdges(user: Uuid, showtimeId: int)
    ensures ValidateBooking(Some(BookingForm(1, Some(user))), Some(showtimeId)) == None
    ensures ValidateBooking(Some(BookingForm(300, Some(user))), Some(showtimeId)) == None
    ensures ValidateBooking(Some(BookingForm(0, Some(user))), Some(showtimeId)) == Some(BadSeat)
    ensures ValidateBooking(Some(BookingForm(301, Some(user))), Some(showtimeId)) == Some(BadSeat)
  {
  }
}
