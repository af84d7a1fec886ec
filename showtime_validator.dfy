/** The fail-fast field checks on a showtime request: the first failing check
    gives the error message. */
module ShowtimeValidator {

  import opened Wrappers
  import opened Text
  import opened Entities

  const NullShowtime := "Showtime cannot be null"
  const NullMovie := "Movie cannot be null"
  const MissingMovieId := "Movie ID is required"
  const NullTheater := "Theater cannot be null"
  const NullTimes := "Start time and End time cannot be null"
  const StartAfterEnd := "Start time cannot be after end time"
  const NegativePrice := "Price cannot be negative"

  predicate HasMovieId(form: Option<ShowtimeForm>) {
    form.Some? && form.value.movie.Some? && form.value.movie.value.id.Some?
  }

  predicate HasTheater(form: Option<ShowtimeForm>) {
    HasMovieId(form) && form.value.theater.Some? && !IsBlank(form.value.theater.value)
  }

  predicate HasTimes(form: Option<ShowtimeForm>) {
    HasTheater(form) && form.value.startTime.Some? && form.value.endTime.Some?
  }

  /** A showtime request the validator lets through. */
  predicate IsValid(form: Option<ShowtimeForm>) {
    && HasTimes(form)
    && form.value.startTime.value <= form.value.endTime.value
    && form.value.price >= 0.0
  }

  /** `validate`: `None` when the request passes, otherwise the message of the
      first check that fails. */
  function Validate(form: Option<ShowtimeForm>): (error: Option<string>)
    ensures error.None? <==> IsValid(form)
    ensures form.None? ==> error == Some(NullShowtime)
    ensures form.Some? && form.value.movie.None? ==> error == Some(NullMovie)
    ensures form.Some? && form.value.movie.Some? && form.value.movie.value.id.None? ==> error == Some(MissingMovieId)
    ensures HasMovieId(form) && !HasTheater(form) ==> error == Some(NullTheater)
    ensures HasTheater(form) && !HasTimes(form) ==> error == Some(NullTimes)
    ensures HasTimes(form) && form.value.startTime.value > form.value.endTime.value ==> error == Some(StartAfterEnd)
    ensures HasTimes(form) && form.value.startTime.value <= form.value.endTime.value && form.value.price < 0.0 ==>
              error == Some(NegativePrice)
  {
    if form.None? then Some(NullShowtime)
    else
      var f := form.value;
      if f.movie.None? then Some(NullMovie)
      else if f.movie.value.id.None? then Some(MissingMovieId)
      else if f.theater.None? || IsBlank(f.theater.value) then Some(NullTheater)
      else if f.startTime.None? || f.endTime.None? then Some(NullTimes)
      else if f.startTime.value > f.endTime.value then Some(StartAfterEnd)
      else if f.price < 0.0 then Some(NegativePrice)
      else None
  }

  /** A show that starts and ends at the same instant, at price zero, passes:
      neither bound is strict. */
  lemma ZeroLengthFreeShowAccepted(movieId: int, theater: string, t: int)
    requires !IsBlank(theater)
    ensures Validate(Some(ShowtimeForm(Some(MovieRef(Some(movieId))), Some(theater), Some(t), Some(t), 0.0))) == None
  {
  }

  /** A blank theater name is rejected even when everything else is fine. */
  lemma BlankTheaterRejected(f: ShowtimeForm)
    requires f.movie.Some? && f.movie.value.id.Some?
    requires f.theater.Some? && IsBlank(f.theater.value)
    ensures Validate(Some(f)) == Some(NullTheater)
  {
  }
}
