/** Showtime operations: look up, add (with the overlap check), replace and
    delete a showtime. Each operation is a function from the store before the
    call to the result and the store after it; the `ShowtimeService` class
    carries them out on a `Database`. */
module ShowtimeService {

  import opened Wrappers
  import opened Text
  import opened Entities
  import opened Store
  import opened Dto
  import ShowtimeValidator

  const OverlapMessage := "Showtime overlaps with an existing one in this theater"

  const ShowtimeNotFoundPrefix := "Showtime not found with id: "

  const MovieNotFoundPrefix := "Movie not found with ID: "

  function ShowtimeNotFound(id: int): (m: string)
    ensures IsNumberMessage(m, ShowtimeNotFoundPrefix, id, "")
  {
    NumberMessage(ShowtimeNotFoundPrefix, id, "");
    ShowtimeNotFoundPrefix + IntToString(id) + ""
  }

  function MovieNotFound(id: int): (m: string)
    ensures IsNumberMessage(m, MovieNotFoundPrefix, id, "")
  {
    NumberMessage(MovieNotFoundPrefix, id, "");
    MovieNotFoundPrefix + IntToString(id) + ""
  }

  /** The messages the unit tests of the service expect. */
  lemma MessagesAsTested()
    ensures MovieNotFound(42) == "Movie not found with ID: 42"
    ensures MovieNotFound(5) == "Movie not found with ID: 5"
    ensures ShowtimeNotFound(999) == "Showtime not found with id: 999"
  {
  }

  /** A showtime over [startTime, endTime) collides with `existing`: it starts
      before `existing` ends and ends after `existing` starts. */
  predicate Conflicts(startTime: int, endTime: int, existing: Showtime) {
    startTime < existing.endTime && endTime > existing.startTime
  }

  /** `isOverlappingWithExistingShowtimes`: some stored showtime in the theater
      with exactly this name collides. */
  predicate IsOverlapping(showtimes: map<int, Showtime>, theater: string, startTime: int, endTime: int) {
    exists k :: k in showtimes && showtimes[k].theater == theater && Conflicts(startTime, endTime, showtimes[k])
  }

  /** `anyMatch` of the overlap test over a list of showtimes, such as the
      list `findAllByTheater` returns. */
  function AnyConflict(found: seq<Showtime>, startTime: int, endTime: int): (b: bool)
    ensures b <==> exists i :: 0 <= i < |found| && Conflicts(startTime, endTime, found[i])
  {
    if found == [] then false
    else Conflicts(startTime, endTime, found[0]) || AnyConflict(found[1..], startTime, endTime)
  }

  /** Whatever order `findAllByTheater` lists the showtimes of the theater in,
      scanning that list gives `IsOverlapping`. */
  lemma AnyConflictIsOverlapping(showtimes: map<int, Showtime>, theater: string, startTime: int, endTime: int,
                                 found: seq<Showtime>)
    requires forall x :: x in found <==> x in showtimes.Values && x.theater == theater
    ensures AnyConflict(found, startTime, endTime) == IsOverlapping(showtimes, theater, startTime, endTime)
  {
    if AnyConflict(found, startTime, endTime) {
      var i :| 0 <= i < |found| && Conflicts(startTime, endTime, found[i]);
      var x := found[i];
      assert x in showtimes.Values;
      if forall k :: k in showtimes ==> showtimes[k] != x {
        assert false;  // x is a value of the map
      }
      var k :| k in showtimes && showtimes[k] == x;
      assert showtimes[k].theater == theater && Conflicts(startTime, endTime, showtimes[k]);
    }
    if IsOverlapping(showtimes, theater, startTime, endTime) {
      var k :| k in showtimes && showtimes[k].theater == theater && Conflicts(startTime, endTime, showtimes[k]);
      var x := showtimes[k];
      assert x in showtimes.Values;
      assert x in found;
      if forall i :: 0 <= i < |found| ==> found[i] != x {
        assert false;  // x is an element of the list
      }
      var i :| 0 <= i < |found| && found[i] == x;
      assert Conflicts(startTime, endTime, found[i]);
    }
  }

  /** No two stored showtimes in the same theater collide. */
  ghost predicate NoOverlap(showtimes: map<int, Showtime>) {
    forall a, b :: a in showtimes && b in showtimes && a != b && showtimes[a].theater == showtimes[b].theater ==>
      !Conflicts(showtimes[a].startTime, showtimes[a].endTime, showtimes[b])
  }

  /** The movie id of a request that passed validation. */
  function MovieIdOf(form: Option<ShowtimeForm>): int
    requires ShowtimeValidator.IsValid(form)
  {
    form.value.movie.value.id.value
  }

  /** The record stored for a validated request: its movie, its theater name
      cleaned, its times and its price. */
  function RecordOf(form: Option<ShowtimeForm>, id: int): (s: Showtime)
    requires ShowtimeValidator.IsValid(form)
    ensures s.id == id && s.movieId == MovieIdOf(form) && s.theater == Clean(form.value.theater.value)
    ensures s.startTime == form.value.startTime.value && s.endTime == form.value.endTime.value && s.price == form.value.price
    ensures s.startTime <= s.endTime && s.price >= 0.0 && s.theater != []
  {
    var f := form.value;
    Showtime(id, f.movie.value.id.value, Clean(f.theater.value), f.startTime.value, f.endTime.value, f.price)
  }

  /** The validated request collides with a stored showtime under its raw theater name. */
  predicate Collides(db: Db, form: Option<ShowtimeForm>)
    requires ShowtimeValidator.IsValid(form)
  {
    IsOverlapping(db.showtimes, form.value.theater.value, form.value.startTime.value, form.value.endTime.value)
  }

  /** `getShowtimeById`. */
  function GetShowtimeStep(db: Db, id: int): (r: Result<ShowtimeDto>)
    ensures r.Success? <==> id in db.showtimes
    ensures r.Success? ==> r.value == ConvertToDto(db.showtimes[id])
    ensures !r.Success? ==> r == NotFound(ShowtimeNotFound(id))
  {
    if id in db.showtimes then Success(ConvertToDto(db.showtimes[id])) else NotFound(ShowtimeNotFound(id))
  }

  /** `save`: validate, find the movie, reject a collision, then store the
      showtime under the fresh id `id`. */
  function SaveStep(db: Db, form: Option<ShowtimeForm>, id: int): (s: Step<Showtime>)
    ensures !s.result.Success? ==> s.db == db
    ensures ShowtimeValidator.Validate(form).Some? ==> s.result == Invalid(ShowtimeValidator.Validate(form).value)
    ensures ShowtimeValidator.IsValid(form) && MovieIdOf(form) !in db.movies ==>
              s.result == NotFound(MovieNotFound(MovieIdOf(form)))
    ensures ShowtimeValidator.IsValid(form) && MovieIdOf(form) in db.movies && Collides(db, form) ==>
              s.result == Invalid(OverlapMessage)
    ensures s.result.Success? <==> ShowtimeValidator.IsValid(form) && MovieIdOf(form) in db.movies && !Collides(db, form)
    ensures s.result.Success? ==>
              s.result.value == RecordOf(form, id) && s.db == db.(showtimes := db.showtimes[id := s.result.value])
  {
    match ShowtimeValidator.Validate(form)
    case Some(e) => Step(Invalid(e), db)
    case None =>
      if MovieIdOf(form) !in db.movies then Step(NotFound(MovieNotFound(MovieIdOf(form))), db)
      else if Collides(db, form) then Step(Invalid(OverlapMessage), db)
      else Step(Success(RecordOf(form, id)), db.(showtimes := db.showtimes[id := RecordOf(form, id)]))
  }

  /** `upgradeById`: find the showtime first, then validate, find the movie and
      overwrite every field but the id. There is no collision check. */
  function UpgradeStep(db: Db, form: Option<ShowtimeForm>, id: int): (s: Step<()>)
    ensures !s.result.Success? ==> s.db == db
    ensures id !in db.showtimes ==> s.result == NotFound(ShowtimeNotFound(id))
    ensures id in db.showtimes && ShowtimeValidator.Validate(form).Some? ==>
              s.result == Invalid(ShowtimeValidator.Validate(form).value)
    ensures id in db.showtimes && ShowtimeValidator.IsValid(form) && MovieIdOf(form) !in db.movies ==>
              s.result == NotFound(MovieNotFound(MovieIdOf(form)))
    ensures s.result.Success? <==> id in db.showtimes && ShowtimeValidator.IsValid(form) && MovieIdOf(form) in db.movies
    ensures s.result.Success? ==> s.db == db.(showtimes := db.showtimes[id := RecordOf(form, id)])
  {
    if id !in db.showtimes then Step(NotFound(ShowtimeNotFound(id)), db)
    else match ShowtimeValidator.Validate(form)
      case Some(e) => Step(Invalid(e), db)
      case None =>
        if MovieIdOf(form) !in db.movies then Step(NotFound(MovieNotFound(MovieIdOf(form))), db)
        else Step(Success(()), db.(showtimes := db.showtimes[id := RecordOf(form, id)]))
  }

  /** `deleteById`: the showtime goes, and its bookings with it. */
  function DeleteStep(db: Db, id: int): (s: Step<()>)
    ensures s.result.Success? <==> id in db.showtimes
    ensures s.result.Success? ==> s.db == DeleteShowtimeCascade(db, id)
    ensures !s.result.Success? ==> s.result == NotFound(ShowtimeNotFound(id)) && s.db == db
  {
    if id !in db.showtimes then Step(NotFound(ShowtimeNotFound(id)), db)
    else Step(Success(()), DeleteShowtimeCascade(db, id))
  }

  /** The instant `t` lies in [a, b). */
  predicate During(t: int, a: int, b: int) { a <= t < b }

  /** For shows of positive length, a collision is a shared instant. */
  lemma ConflictsIffSharedInstant(startTime: int, endTime: int, existing: Showtime)
    requires startTime < endTime && existing.startTime < existing.endTime
    ensures Conflicts(startTime, endTime, existing) <==>
              exists t :: During(t, startTime, endTime) && During(t, existing.startTime, existing.endTime)
  {
    if Conflicts(startTime, endTime, existing) {
      var t := if startTime < existing.startTime then existing.startTime else startTime;
      assert During(t, startTime, endTime) && During(t, existing.startTime, existing.endTime);
    }
  }

  /** A zero-length show strictly inside another one collides with it,
      although the two share no instant. */
  lemma ZeroLengthShowInsideCollides(existing: Showtime)
    requires existing.startTime == 0 && existing.endTime == 10
    ensures Conflicts(5, 5, existing)
    ensures forall t :: !During(t, 5, 5)
  {
  }

  /** A show that starts when another ends, or ends when another starts, does
      not collide with it. */
  lemma BackToBackDoNotConflict(startTime: int, endTime: int, existing: Showtime)
    ensures !Conflicts(existing.endTime, endTime, existing)
    ensures !Conflicts(startTime, existing.startTime, existing)
  {
  }

  /** Shows in other theaters never matter to the collision check. */
  lemma OtherTheatersIrrelevant(showtimes: map<int, Showtime>, x: Showtime, theater: string, startTime: int, endTime: int)
    requires x.id !in showtimes && x.theater != theater
    ensures IsOverlapping(showtimes[x.id := x], theater, startTime, endTime) == IsOverlapping(showtimes, theater, startTime, endTime)
  {
    var more := showtimes[x.id := x];
    if IsOverlapping(more, theater, startTime, endTime) {
      var k :| k in more && more[k].theater == theater && Conflicts(startTime, endTime, more[k]);
      assert k in showtimes && showtimes[k] == more[k];
    }
    if IsOverlapping(showtimes, theater, startTime, endTime) {
      var k :| k in showtimes && showtimes[k].theater == theater && Conflicts(startTime, endTime, showtimes[k]);
      assert k in more && more[k] == showtimes[k];
    }
  }

  /** Adding a showtime whose theater name is already in normal form keeps
      every theater free of collisions. */
  lemma SavePreservesNoOverlap(db: Db, form: Option<ShowtimeForm>, id: int)
    requires NoOverlap(db.showtimes) && id !in db.showtimes
    requires form.Some? && form.value.theater.Some?
    requires NoEdgeWhitespace(form.value.theater.value) && SingleSpaced(form.value.theater.value)
    ensures NoOverlap(SaveStep(db, form, id).db.showtimes)
  {
    var s := SaveStep(db, form, id);
    if s.result.Success? {
      CleanFixesNormalised(form.value.theater.value);
      var after := s.db.showtimes;
      forall a, b | a in after && b in after && a != b && after[a].theater == after[b].theater
        ensures !Conflicts(after[a].startTime, after[a].endTime, after[b])
      {
        if a == id {
          assert !Conflicts(after[a].startTime, after[a].endTime, db.showtimes[b]);
        } else if b == id {
          assert !Conflicts(after[b].startTime, after[b].endTime, db.showtimes[a]);
        }
      }
    }
  }

  /** Once a showtime is stored, a second request for the same theater name
      and a colliding interval is refused. */
  lemma CollidingSecondSaveRejected(db: Db, first: Option<ShowtimeForm>, id: int, second: Option<ShowtimeForm>, id2: int)
    requires SaveStep(db, first, id).result.Success?
    requires ShowtimeValidator.IsValid(second) && MovieIdOf(second) in db.movies
    requires second.value.theater.value == Clean(first.value.theater.value)
    requires Conflicts(second.value.startTime.value, second.value.endTime.value, RecordOf(first, id))
    ensures SaveStep(SaveStep(db, first, id).db, second, id2).result == Invalid(OverlapMessage)
  {
    var after := SaveStep(db, first, id).db;
    assert after.showtimes[id] == RecordOf(first, id);
    assert Collides(after, second);
  }

  /** No two showtimes of a two-entry table in one theater collide exactly
      when neither collides with the other. */
  lemma PairNoOverlap(x: Showtime, y: Showtime)
    requires x.theater == y.theater
    ensures NoOverlap(map[1 := x, 2 := y]) <==> !Conflicts(x.startTime, x.endTime, y) && !Conflicts(y.startTime, y.endTime, x)
  {
    var m := map[1 := x, 2 := y];
    if !Conflicts(x.startTime, x.endTime, y) && !Conflicts(y.startTime, y.endTime, x) {
      forall a, b | a in m && b in m && a != b && m[a].theater == m[b].theater
        ensures !Conflicts(m[a].startTime, m[a].endTime, m[b])
      {
        assert a == 1 || a == 2;
      }
    } else {
      assert m[1] == x && m[2] == y;
    }
  }

  /** A complete request whose theater is one word after some blanks passes
      validation and is stored under the bare word. */
  lemma PaddedWordRequest(movieId: int, pre: string, w: string, startTime: int, endTime: int, price: real, id: int)
    requires IsBlank(pre) && w != [] && HasNoWhitespace(w) && startTime <= endTime && price >= 0.0
    ensures var form := Some(ShowtimeForm(Some(MovieRef(Some(movieId))), Some(pre + w), Some(startTime), Some(endTime), price));
            ShowtimeValidator.IsValid(form) && RecordOf(form, id) == Showtime(id, movieId, w, startTime, endTime, price)
  {
    assert !IsBlank(pre + w) by { assert (pre + w)[|pre|] == w[0]; }
    assert pre + w == pre + w + [];
    CleanPaddedWord(pre, w, []);
  }

  /** Adding a show in a theater named by a padded word, of a stored movie and
      colliding with nothing under the padded name, stores it under the bare word. */
  lemma PaddedWordSave(db: Db, pre: string, w: string, movieId: int, startTime: int, endTime: int, price: real, id: int)
    requires IsBlank(pre) && w != [] && HasNoWhitespace(w) && startTime <= endTime && price >= 0.0
    requires movieId in db.movies && !IsOverlapping(db.showtimes, pre + w, startTime, endTime)
    ensures var form := Some(ShowtimeForm(Some(MovieRef(Some(movieId))), Some(pre + w), Some(startTime), Some(endTime), price));
            SaveStep(db, form, id).result.Success? &&
            SaveStep(db, form, id).db.showtimes == db.showtimes[id := Showtime(id, movieId, w, startTime, endTime, price)]
  {
    PaddedWordRequest(movieId, pre, w, startTime, endTime, price, id);
  }

  /** Replacing a stored show by one of a stored movie in a theater named by a
      word succeeds, collisions or not. */
  lemma WordUpgrade(db: Db, w: string, movieId: int, startTime: int, endTime: int, price: real, id: int)
    requires w != [] && HasNoWhitespace(w) && startTime <= endTime && price >= 0.0
    requires id in db.showtimes && movieId in db.movies
    ensures var form := Some(ShowtimeForm(Some(MovieRef(Some(movieId))), Some(w), Some(startTime), Some(endTime), price));
            UpgradeStep(db, form, id).result.Success? &&
            UpgradeStep(db, form, id).db.showtimes == db.showtimes[id := Showtime(id, movieId, w, startTime, endTime, price)]
  {
    assert [] + w == w;
    PaddedWordRequest(movieId, [], w, startTime, endTime, price, id);
  }

  /** A one-show table has no collision. */
  lemma SingleNoOverlap(x: Showtime)
    ensures NoOverlap(map[1 := x])
  {
  }

  /** A one-show table holds no collision for another theater name. */
  lemma OtherTheaterNotOverlapping(x: Showtime, theater: string, startTime: int, endTime: int)
    requires |theater| != |x.theater|
    ensures !IsOverlapping(map[1 := x], theater, startTime, endTime)
  {
  }

  /** The collision lookup uses the theater name as sent, while the record keeps
      it cleaned: the same name with a leading blank slips past a stored show it
      collides with. */
  lemma UncleanTheaterSlipsPastOverlapCheck(hall: string, movie: Movie)
    requires hall != [] && HasNoWhitespace(hall)
    ensures var db := Db(map[1 := movie], map[1 := Showtime(1, 1, hall, 0, 10, 5.0)], map[]);
            var form := Some(ShowtimeForm(Some(MovieRef(Some(1))), Some(" " + hall), Some(5), Some(15), 5.0));
            var s := SaveStep(db, form, 2);
            NoOverlap(db.showtimes) && s.result.Success? && !NoOverlap(s.db.showtimes)
  {
    var db := Db(map[1 := movie], map[1 := Showtime(1, 1, hall, 0, 10, 5.0)], map[]);
    OtherTheaterNotOverlapping(Showtime(1, 1, hall, 0, 10, 5.0), " " + hall, 5, 15);
    SingleNoOverlap(Showtime(1, 1, hall, 0, 10, 5.0));
    PaddedWordSave(db, " ", hall, 1, 5, 15, 5.0, 2);
    PairNoOverlap(Showtime(1, 1, hall, 0, 10, 5.0), Showtime(2, 1, hall, 5, 15, 5.0));
    assert db.showtimes[2 := Showtime(2, 1, hall, 5, 15, 5.0)] ==
           map[1 := Showtime(1, 1, hall, 0, 10, 5.0), 2 := Showtime(2, 1, hall, 5, 15, 5.0)];
  }

  /** `upgradeById` does not look for collisions, so a replacement can make two
      shows in one theater collide. */
  lemma UpgradeCanCreateOverlap(hall: string, movie: Movie)
    requires hall != [] && HasNoWhitespace(hall)
    ensures var db := Db(map[1 := movie], map[1 := Showtime(1, 1, hall, 0, 10, 5.0), 2 := Showtime(2, 1, hall, 10, 20, 5.0)], map[]);
            var form := Some(ShowtimeForm(Some(MovieRef(Some(1))), Some(hall), Some(5), Some(15), 5.0));
            var s := UpgradeStep(db, form, 2);
            NoOverlap(db.showtimes) && s.result.Success? && !NoOverlap(s.db.showtimes)
  {
    var db := Db(map[1 := movie], map[1 := Showtime(1, 1, hall, 0, 10, 5.0), 2 := Showtime(2, 1, hall, 10, 20, 5.0)], map[]);
    WordUpgrade(db, hall, 1, 5, 15, 5.0, 2);
    PairNoOverlap(Showtime(1, 1, hall, 0, 10, 5.0), Showtime(2, 1, hall, 10, 20, 5.0));
    PairNoOverlap(Showtime(1, 1, hall, 0, 10, 5.0), Showtime(2, 1, hall, 5, 15, 5.0));
    assert db.showtimes[2 := Showtime(2, 1, hall, 5, 15, 5.0)] ==
           map[1 := Showtime(1, 1, hall, 0, 10, 5.0), 2 := Showtime(2, 1, hall, 5, 15, 5.0)];
  }

  /** A stored showtime reads back as the record that was saved, theater cleaned. */
  lemma SaveThenGet(db: Db, form: Option<ShowtimeForm>, id: int)
    requires SaveStep(db, form, id).result.Success?
    ensures GetShowtimeStep(SaveStep(db, form, id).db, id) == Success(ConvertToDto(RecordOf(form, id)))
    ensures GetShowtimeStep(SaveStep(db, form, id).db, id).value.theater == Clean(form.value.theater.value)
  {
  }

  /** A deleted showtime is gone, and so is every booking of it. */
  lemma DeleteThenGet(db: Db, id: int)
    requires id in db.showtimes
    ensures GetShowtimeStep(DeleteStep(db, id).db, id) == NotFound(ShowtimeNotFound(id))
    ensures forall seat :: !SeatTaken(DeleteStep(db, id).db.bookings, id, seat)
  {
  }

  class ShowtimeService {
    const store: Database

    constructor (store: Database)
      ensures this.store == store
    {
      this.store := store;
    }

    method GetShowtimeById(id: int) returns (r: Result<ShowtimeDto>)
      ensures r.Success? <==> id in store.showtimes
      ensures r.Success? ==> r.value == ConvertToDto(store.showtimes[id])
      ensures !r.Success? ==> r == NotFound(ShowtimeNotFound(id))
    {
      if id !in store.showtimes {
        return NotFound(ShowtimeNotFound(id));
      }
      r := Success(ConvertToDto(store.showtimes[id]));
    }

    method Save(form: Option<ShowtimeForm>) returns (r: Result<Showtime>)
      requires store.Valid()
      modifies store
      ensures store.Valid()
      ensures Step(r, store.State()) == SaveStep(old(store.State()), form, old(store.nextShowtimeId))
      ensures store.nextShowtimeId == old(store.nextShowtimeId) + (if r.Success? then 1 else 0)
      ensures store.nextMovieId == old(store.nextMovieId) && store.nextBookingId == old(store.nextBookingId)
    {
      var error := ShowtimeValidator.Validate(form);
      if error.Some? {
        return Invalid(error.value);
      }
      var movieId := MovieIdOf(form);
      if movieId !in store.movies {
        return NotFound(MovieNotFound(movieId));
      }
      var f := form.value;
      if IsOverlapping(store.showtimes, f.theater.value, f.startTime.value, f.endTime.value) {
        return Invalid(OverlapMessage);
      }
      var saved := store.InsertShowtime(RecordOf(form, 0));
      r := Success(saved);
    }

    method UpgradeById(form: Option<ShowtimeForm>, id: int) returns (r: Result<()>)
      requires store.Valid()
      modifies store
      ensures store.Valid()
      ensures Step(r, store.State()) == UpgradeStep(old(store.State()), form, id)
      ensures store.nextMovieId == old(store.nextMovieId) && store.nextShowtimeId == old(store.nextShowtimeId)
      ensures store.nextBookingId == old(store.nextBookingId)
    {
      if id !in store.showtimes {
        return NotFound(ShowtimeNotFound(id));
      }
      var error := ShowtimeValidator.Validate(form);
      if error.Some? {
        return Invalid(error.value);
      }
      var movieId := MovieIdOf(form);
      if movieId !in store.movies {
        return NotFound(MovieNotFound(movieId));
      }
      store.UpdateShowtime(RecordOf(form, id));
      r := Success(());
    }

    method DeleteById(id: int) returns (r: Result<()>)
      requires store.Valid()
      modifies store
      ensures store.Valid()
      ensures Step(r, store.State()) == DeleteStep(old(store.State()), id)
      ensures store.nextMovieId == old(store.nextMovieId) && store.nextShowtimeId == old(store.nextShowtimeId)
      ensures store.nextBookingId == old(store.nextBookingId)
    {
      if id !in store.showtimes {
        return NotFound(ShowtimeNotFound(id));
      }
      store.DeleteShowtime(id);
      r := Success(());
    }
  }
}
