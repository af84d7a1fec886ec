/** Booking a seat: validate the request, find the showtime, refuse a seat
    already taken for that showtime, then store the booking under a fresh id. */
module BookingService {

  import opened Wrappers
  import opened Text
  import opened Entities
  import opened Store
  import BookingValidator

  const ShowtimeNotFoundPrefix := "Showtime not found with ID: "

  const SeatTakenSuffix := " is already booked for this showtime"

  function ShowtimeNotFound(id: int): (m: string)
    ensures IsNumberMessage(m, ShowtimeNotFoundPrefix, id, "")
  {
    NumberMessage(ShowtimeNotFoundPrefix, id, "");
    ShowtimeNotFoundPrefix + IntToString(id) + ""
  }

  function SeatTakenMessage(seat: int): (m: string)
    ensures IsNumberMessage(m, "Seat ", seat, SeatTakenSuffix)
  {
    NumberMessage("Seat ", seat, SeatTakenSuffix);
    "Seat " + IntToString(seat) + SeatTakenSuffix
  }

  /** The messages the unit tests of the service expect. */
  lemma ShowtimeNotFoundAsTested()
    ensures ShowtimeNotFound(999) == "Showtime not found with ID: 999"
  {
    assert IntToString(999) == "999";
  }

  lemma SeatTakenAsTested()
    ensures SeatTakenMessage(10) == "Seat 10" + SeatTakenSuffix
  {
    assert IntToString(10) == "10";
    assert "Seat " + "10" == "Seat 10";
  }

  /** The booking stored for a validated request. */
  function RecordOf(form: Option<BookingForm>, showtimeId: Option<int>, id: Uuid): (b: Booking)
    requires BookingValidator.IsValid(form, showtimeId)
    ensures b.id == id && b.showtimeId == showtimeId.value
    ensures b.seatNumber == form.value.seatNumber && b.userId == form.value.userId.value
    ensures BookingValidator.SeatInRange(b.seatNumber)
  {
    Booking(id, showtimeId.value, form.value.seatNumber, form.value.userId.value)
  }

  /** `save(booking, showtimeId)`. */
  function BookStep(db: Db, form: Option<BookingForm>, showtimeId: Option<int>, id: Uuid): (s: Step<Booking>)
    ensures !s.result.Success? ==> s.db == db
    ensures BookingValidator.ValidateBooking(form, showtimeId).Some? ==>
              s.result == Invalid(BookingValidator.ValidateBooking(form, showtimeId).value)
    ensures BookingValidator.IsValid(form, showtimeId) && showtimeId.value !in db.showtimes ==>
              s.result == NotFound(ShowtimeNotFound(showtimeId.value))
    ensures BookingValidator.IsValid(form, showtimeId) && showtimeId.value in db.showtimes
            && SeatTaken(db.bookings, showtimeId.value, form.value.seatNumber) ==>
              s.result == Invalid(SeatTakenMessage(form.value.seatNumber))
    ensures s.result.Success? <==>
              && BookingValidator.IsValid(form, showtimeId)
              && showtimeId.value in db.showtimes
              && !SeatTaken(db.bookings, showtimeId.value, form.value.seatNumber)
    ensures s.result.Success? ==>
              s.result.value == RecordOf(form, showtimeId, id) && s.db == db.(bookings := db.bookings[id := s.result.value])
  {
    match BookingValidator.ValidateBooking(form, showtimeId)
    case Some(e) => Step(Invalid(e), db)
    case None =>
      var sid := showtimeId.value;
      var seat := form.value.seatNumber;
      if sid !in db.showtimes then Step(NotFound(ShowtimeNotFound(sid)), db)
      else if SeatTaken(db.bookings, sid, seat) then Step(Invalid(SeatTakenMessage(seat)), db)
      else Step(Success(RecordOf(form, showtimeId, id)), db.(bookings := db.bookings[id := RecordOf(form, showtimeId, id)]))
  }

  /** Booking never puts two bookings on one seat of one showtime. */
  lemma BookPreservesSeatsUnique(db: Db, form: Option<BookingForm>, showtimeId: Option<int>, id: Uuid)
    requires SeatsUnique(db.bookings) && id !in db.bookings
    ensures SeatsUnique(BookStep(db, form, showtimeId, id).db.bookings)
  {
    var s := BookStep(db, form, showtimeId, id);
    if s.result.Success? {
      var after := s.db.bookings;
      forall a, b | a in after && b in after && a != b && after[a].showtimeId == after[b].showtimeId
        ensures after[a].seatNumber != after[b].seatNumber
      {
        if a == id {
          assert db.bookings[b].showtimeId == showtimeId.value;
        } else if b == id {
          assert db.bookings[a].showtimeId == showtimeId.value;
        }
      }
    }
  }

  /** Every seat a booking holds is one of the hall's seats. */
  ghost predicate SeatsInRange(bookings: map<Uuid, Booking>) {
    forall k :: k in bookings ==> BookingValidator.SeatInRange(bookings[k].seatNumber)
  }

  /** Booking keeps every booked seat within the hall. */
  lemma BookPreservesSeatsInRange(db: Db, form: Option<BookingForm>, showtimeId: Option<int>, id: Uuid)
    requires SeatsInRange(db.bookings)
    ensures SeatsInRange(BookStep(db, form, showtimeId, id).db.bookings)
  {
  }

  /** Once a seat is booked, a second request for it in the same showtime is
      refused, whoever asks. */
  lemma SecondBookingOfSeatRejected(db: Db, first: Option<BookingForm>, second: Option<BookingForm>, showtimeId: Option<int>,
                                    id: Uuid, id2: Uuid)
    requires BookStep(db, first, showtimeId, id).result.Success?
    requires BookingValidator.IsValid(second, showtimeId) && second.value.seatNumber == first.value.seatNumber
    ensures BookStep(BookStep(db, first, showtimeId, id).db, second, showtimeId, id2).result ==
              Invalid(SeatTakenMessage(first.value.seatNumber))
  {
    var after := BookStep(db, first, showtimeId, id).db;
    assert after.bookings[id].showtimeId == showtimeId.value && after.bookings[id].seatNumber == first.value.seatNumber;
  }

  /** Whether a seat is taken depends only on the bookings of that showtime:
      a booking in another showtime does not take it. */
  lemma SeatTakenIsPerShowtime(bookings: map<Uuid, Booking>, b: Booking, showtimeId: int, seat: int)
    requires b.id !in bookings && b.showtimeId != showtimeId
    ensures SeatTaken(bookings[b.id := b], showtimeId, seat) == SeatTaken(bookings, showtimeId, seat)
  {
    if SeatTaken(bookings[b.id := b], showtimeId, seat) {
      var k :| k in bookings[b.id := b] && bookings[b.id := b][k].showtimeId == showtimeId && bookings[b.id := b][k].seatNumber == seat;
      assert k in bookings;
    }
    if SeatTaken(bookings, showtimeId, seat) {
      var k :| k in bookings && bookings[k].showtimeId == showtimeId && bookings[k].seatNumber == seat;
      assert k != b.id && bookings[b.id := b][k] == bookings[k];
    }
  }

  /** The same seat number can be booked in two different showtimes. */
  lemma SameSeatOtherShowtimeAccepted(db: Db, first: Option<BookingForm>, second: Option<BookingForm>,
                                      showtimeId: Option<int>, other: Option<int>, id: Uuid, id2: Uuid)
    requires id !in db.bookings
    requires BookStep(db, first, showtimeId, id).result.Success?
    requires BookStep(db, second, other, id2).result.Success?
    requires showtimeId != other
    ensures BookStep(BookStep(db, first, showtimeId, id).db, second, other, id2).result.Success?
  {
    SeatTakenIsPerShowtime(db.bookings, RecordOf(first, showtimeId, id), other.value, second.value.seatNumber);
  }

  /** A seat outside 1..300 is refused whatever the store holds. */
  lemma OutOfRangeSeatRejected(db: Db, form: Option<BookingForm>, showtimeId: Option<int>, id: Uuid)
    requires form.Some? && form.value.userId.Some? && showtimeId.Some?
    requires form.value.seatNumber < BookingValidator.MinSeat || form.value.seatNumber > BookingValidator.MaxSeat
    ensures BookStep(db, form, showtimeId, id) == Step(Invalid(BookingValidator.BadSeat), db)
  {
  }

  class BookingService {
    const store: Database

    constructor (store: Database)
      ensures this.store == store
    {
      this.store := store;
    }

    method Save(form: Option<BookingForm>, showtimeId: Option<int>) returns (r: Result<Booking>)
      requires store.Valid()
      modifies store
      ensures store.Valid()
      ensures Step(r, store.State()) == BookStep(old(store.State()), form, showtimeId, old(store.nextBookingId))
      ensures store.nextBookingId == old(store.nextBookingId) + (if r.Success? then 1 else 0)
      ensures store.nextMovieId == old(store.nextMovieId) && store.nextShowtimeId == old(store.nextShowtimeId)
    {
      var error := BookingValidator.ValidateBooking(form, showtimeId);
      if error.Some? {
        return Invalid(error.value);
      }
      var sid := showtimeId.value;
      var seat := form.value.seatNumber;
      if sid !in store.showtimes {
        return NotFound(ShowtimeNotFound(sid));
      }
      if SeatTaken(store.bookings, sid, seat) {
        return Invalid(SeatTakenMessage(seat));
      }
      var saved := store.InsertBooking(RecordOf(form, showtimeId, 0));
      r := Success(saved);
    }
  }
}
