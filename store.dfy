/** The persistent store behind the services: three tables keyed by id, the
    constraints the schema enforces, the cascades of a delete, and a mutable
    `Database` object whose methods are the repository calls the services
    make. */
module Store {

  import opened Wrappers
  import opened Entities

  /** The outcome of a service call: a value, or the exception it raises
      (`IllegalArgumentException`, `EntityNotFoundException`, or the unique
      constraint on a movie title). */
  datatype Result<T> = Success(value: T) | Invalid(message: string) | NotFound(message: string) | DuplicateTitle

  /** The contents of the three tables. */
  datatype Db = Db(movies: map<int, Movie>, showtimes: map<int, Showtime>, bookings: map<Uuid, Booking>)

  /** A result together with the store after the call. */
  datatype Step<T> = Step(result: Result<T>, db: Db)

  /** Every record sits under its own id. */
  ghost predicate KeysMatchIds(db: Db) {
    && (forall k :: k in db.movies ==> db.movies[k].id == k)
    && (forall k :: k in db.showtimes ==> db.showtimes[k].id == k)
    && (forall k :: k in db.bookings ==> db.bookings[k].id == k)
  }

  /** The unique constraint on the movie title. */
  ghost predicate UniqueTitles(movies: map<int, Movie>) {
    forall a, b :: a in movies && b in movies && movies[a].title == movies[b].title ==> a == b
  }

  /** Every showtime belongs to a stored movie and every booking to a stored showtime. */
  ghost predicate ReferencesResolve(db: Db) {
    && (forall k :: k in db.showtimes ==> db.showtimes[k].movieId in db.movies)
    && (forall k :: k in db.bookings ==> db.bookings[k].showtimeId in db.showtimes)
  }

  /** No seat of a showtime is booked twice. */
  ghost predicate SeatsUnique(bookings: map<Uuid, Booking>) {
    forall a, b :: a in bookings && b in bookings && a != b && bookings[a].showtimeId == bookings[b].showtimeId ==>
      bookings[a].seatNumber != bookings[b].seatNumber
  }

  ghost predicate Consistent(db: Db) {
    KeysMatchIds(db) && UniqueTitles(db.movies) && ReferencesResolve(db) && SeatsUnique(db.bookings)
  }

  /** The derived query `existsByShowtimeIdAndSeatNumber`. */
  predicate SeatTaken(bookings: map<Uuid, Booking>, showtimeId: int, seat: int) {
    exists k :: k in bookings && bookings[k].showtimeId == showtimeId && bookings[k].seatNumber == seat
  }

  /** Storing a booking under a new id takes exactly its own seat of its own
      showtime: every other seat is taken afterwards exactly when it was before. */
  lemma SeatTakenAfterInsert(bookings: map<Uuid, Booking>, id: Uuid, b: Booking, showtimeId: int, seat: int)
    requires id !in bookings
    ensures SeatTaken(bookings[id := b], showtimeId, seat) <==>
              SeatTaken(bookings, showtimeId, seat) || (b.showtimeId == showtimeId && b.seatNumber == seat)
  {
    if SeatTaken(bookings, showtimeId, seat) {
      var k :| k in bookings && bookings[k].showtimeId == showtimeId && bookings[k].seatNumber == seat;
      assert k != id && bookings[id := b][k] == bookings[k];
    }
    if b.showtimeId == showtimeId && b.seatNumber == seat {
      assert bookings[id := b][id] == b;
    }
  }

  /** Some movie other than the one stored under `id` already has `title`. */
  predicate TitleTakenByOther(movies: map<int, Movie>, id: int, title: string) {
    exists k :: k in movies && k != id && movies[k].title == title
  }

  /** The derived query `findByTitle`; at most one movie matches. */
  function FindByTitle(movies: map<int, Movie>, title: string): (r: Option<int>)
    requires UniqueTitles(movies)
    ensures r.Some? <==> exists k :: k in movies && movies[k].title == title
    ensures r.Some? ==> r.value in movies && movies[r.value].title == title
  {
    if exists k :: k in movies && movies[k].title == title then
      var k :| k in movies && movies[k].title == title; Some(k)
    else None
  }

  /** A unique title finds its movie, whatever the movie's key. */
  lemma FindByTitleFinds(movies: map<int, Movie>, k: int)
    requires UniqueTitles(movies) && k in movies
    ensures FindByTitle(movies, movies[k].title) == Some(k)
  {
  }

  /** `movieRepository.save` of a movie under its id: inserts or overwrites,
      unless another movie already holds the title. */
  function PutMovie(db: Db, m: Movie): (s: Step<Movie>)
    ensures s.result == DuplicateTitle <==> TitleTakenByOther(db.movies, m.id, m.title)
    ensures s.result != DuplicateTitle ==> s.result == Success(m) && s.db == db.(movies := db.movies[m.id := m])
    ensures s.result == DuplicateTitle ==> s.db == db
  {
    if TitleTakenByOther(db.movies, m.id, m.title) then Step(DuplicateTitle, db)
    else Step(Success(m), db.(movies := db.movies[m.id := m]))
  }

  /** Saving a movie never breaks the store's constraints. */
  lemma PutMoviePreservesConsistency(db: Db, m: Movie)
    requires Consistent(db)
    ensures Consistent(PutMovie(db, m).db)
  {
    var after := PutMovie(db, m).db;
    if after != db {
      forall a, b | a in after.movies && b in after.movies && after.movies[a].title == after.movies[b].title
        ensures a == b
      {
        if a != m.id && b != m.id {
          assert db.movies[a].title == db.movies[b].title;
        }
      }
    }
  }

  /** A movie saved without a clash keeps the titles unique and is found by its title. */
  lemma PutMovieThenFind(db: Db, m: Movie)
    requires UniqueTitles(db.movies) && PutMovie(db, m).result.Success?
    ensures UniqueTitles(PutMovie(db, m).db.movies) && FindByTitle(PutMovie(db, m).db.movies, m.title) == Some(m.id)
  {
    var after := PutMovie(db, m).db.movies;
    forall a, b | a in after && b in after && after[a].title == after[b].title
      ensures a == b
    {
      if a != m.id && b != m.id {
        assert db.movies[a].title == db.movies[b].title;
      }
    }
    FindByTitleFinds(after, m.id);
  }

  /** Saving over a stored movie keeps the set of movie ids. */
  lemma PutMovieKeepsIds(db: Db, m: Movie)
    requires m.id in db.movies
    ensures PutMovie(db, m).db.movies.Keys == db.movies.Keys
  {
  }

  /** Deleting a showtime deletes its bookings (`CascadeType.ALL` on `bookings`). */
  function DeleteShowtimeCascade(db: Db, id: int): (r: Db)
    ensures r.movies == db.movies && r.showtimes == db.showtimes - {id}
    ensures forall k :: k in r.bookings <==> k in db.bookings && db.bookings[k].showtimeId != id
    ensures forall k :: k in r.bookings ==> r.bookings[k] == db.bookings[k]
  {
    db.(showtimes := db.showtimes - {id},
        bookings := map k | k in db.bookings && db.bookings[k].showtimeId != id :: db.bookings[k])
  }

  /** The showtimes of a movie. */
  function ShowtimesOf(showtimes: map<int, Showtime>, movieId: int): (r: set<int>)
    ensures forall k :: k in r <==> k in showtimes && showtimes[k].movieId == movieId
  {
    set k | k in showtimes && showtimes[k].movieId == movieId
  }

  /** Deleting a movie deletes its showtimes and, through them, their bookings
      (`CascadeType.ALL` on `showtimes`, then on `bookings`). */
  function DeleteMovieCascade(db: Db, id: int): (r: Db)
    ensures r.movies == db.movies - {id}
    ensures forall k :: k in r.showtimes <==> k in db.showtimes && db.showtimes[k].movieId != id
    ensures forall k :: k in r.bookings <==> k in db.bookings && db.bookings[k].showtimeId !in ShowtimesOf(db.showtimes, id)
    ensures forall k :: k in r.showtimes ==> r.showtimes[k] == db.showtimes[k]
    ensures forall k :: k in r.bookings ==> r.bookings[k] == db.bookings[k]
  {
    var gone := ShowtimesOf(db.showtimes, id);
    Db(db.movies - {id},
       db.showtimes - gone,
       map k | k in db.bookings && db.bookings[k].showtimeId !in gone :: db.bookings[k])
  }

  /** After a showtime delete no booking points at a missing showtime, and
      every other constraint still holds. */
  lemma DeleteShowtimeCascadePreservesConsistency(db: Db, id: int)
    requires Consistent(db)
    ensures Consistent(DeleteShowtimeCascade(db, id))
  {
  }

  /** After a movie delete nothing points at a missing movie or showtime. */
  lemma DeleteMovieCascadePreservesConsistency(db: Db, id: int)
    requires Consistent(db)
    ensures Consistent(DeleteMovieCascade(db, id))
  {
    var r := DeleteMovieCascade(db, id);
    forall k | k in r.bookings ensures r.bookings[k].showtimeId in r.showtimes {
      var s := db.bookings[k].showtimeId;
      assert s in db.showtimes && s !in ShowtimesOf(db.showtimes, id);
    }
  }

  /** In a consistent store, a booking survives the removal of a movie exactly
      when its showtime belongs to another movie. */
  lemma DeleteMovieCascadeKeepsOtherBookings(db: Db, id: int, k: Uuid)
    requires ReferencesResolve(db) && k in db.bookings
    ensures k in DeleteMovieCascade(db, id).bookings <==> db.showtimes[db.bookings[k].showtimeId].movieId != id
  {
  }

  /** The tables and the id generators. Ids are handed out by counters that
      only grow, so a new record never lands on an existing key. */
  class Database {
    var movies: map<int, Movie>
    var showtimes: map<int, Showtime>
    var bookings: map<Uuid, Booking>
    var nextMovieId: int
    var nextShowtimeId: int
    var nextBookingId: Uuid

    function State(): Db
      reads this
    {
      Db(movies, showtimes, bookings)
    }

    ghost predicate Valid()
      reads this
    {
      && Consistent(State())
      && (forall k :: k in movies ==> k < nextMovieId)
      && (forall k :: k in showtimes ==> k < nextShowtimeId)
      && (forall k :: k in bookings ==> k < nextBookingId)
    }

    constructor ()
      ensures Valid() && State() == Db(map[], map[], map[])
    {
      movies, showtimes, bookings := map[], map[], map[];
      nextMovieId, nextShowtimeId, nextBookingId := 1, 1, 0;
    }

    /** Save a new movie under a fresh id. */
    method InsertMovie(m: Movie) returns (r: Result<Movie>)
      requires Valid()
      modifies this
      ensures Valid()
      ensures old(nextMovieId) !in old(movies)
      ensures Step(r, State()) == PutMovie(old(State()), m.(id := old(nextMovieId)))
      ensures nextMovieId == old(nextMovieId) + 1
      ensures nextShowtimeId == old(nextShowtimeId) && nextBookingId == old(nextBookingId)
    {
      var s := PutMovie(State(), m.(id := nextMovieId));
      PutMoviePreservesConsistency(State(), m.(id := nextMovieId));
      r := s.result;
      movies := s.db.movies;
      nextMovieId := nextMovieId + 1;
    }

    /** Save a stored movie over its old record. */
    method UpdateMovie(m: Movie) returns (r: Result<Movie>)
      requires Valid() && m.id in movies
      modifies this
      ensures Valid()
      ensures Step(r, State()) == PutMovie(old(State()), m)
      ensures nextMovieId == old(nextMovieId) && nextShowtimeId == old(nextShowtimeId) && nextBookingId == old(nextBookingId)
    {
      var s := PutMovie(State(), m);
      PutMoviePreservesConsistency(State(), m);
      r := s.result;
      movies := s.db.movies;
    }

    /** Delete a stored movie with everything it owns. */
    method DeleteMovie(id: int)
      requires Valid()
      modifies this
      ensures Valid()
      ensures State() == DeleteMovieCascade(old(State()), id)
      ensures nextMovieId == old(nextMovieId) && nextShowtimeId == old(nextShowtimeId) && nextBookingId == old(nextBookingId)
    {
      DeleteMovieCascadePreservesConsistency(State(), id);
      var after := DeleteMovieCascade(State(), id);
      movies, showtimes, bookings := after.movies, after.showtimes, after.bookings;
    }

    /** Save a new showtime of a stored movie under a fresh id. */
    method InsertShowtime(s: Showtime) returns (saved: Showtime)
      requires Valid() && s.movieId in movies
      modifies this
      ensures Valid()
      ensures old(nextShowtimeId) !in old(showtimes)
      ensures saved == s.(id := old(nextShowtimeId))
      ensures State() == old(State()).(showtimes := old(showtimes)[saved.id := saved])
      ensures nextShowtimeId == old(nextShowtimeId) + 1
      ensures nextMovieId == old(nextMovieId) && nextBookingId == old(nextBookingId)
    {
      saved := s.(id := nextShowtimeId);
      showtimes := showtimes[saved.id := saved];
      nextShowtimeId := nextShowtimeId + 1;
    }

    /** Save a stored showtime, pointing at a stored movie, over its old record. */
    method UpdateShowtime(s: Showtime)
      requires Valid() && s.id in showtimes && s.movieId in movies
      modifies this
      ensures Valid()
      ensures State() == old(State()).(showtimes := old(showtimes)[s.id := s])
      ensures nextMovieId == old(nextMovieId) && nextShowtimeId == old(nextShowtimeId) && nextBookingId == old(nextBookingId)
    {
      showtimes := showtimes[s.id := s];
    }

    /** Delete a showtime with its bookings. */
    method DeleteShowtime(id: int)
      requires Valid()
      modifies this
      ensures Valid()
      ensures State() == DeleteShowtimeCascade(old(State()), id)
      ensures nextMovieId == old(nextMovieId) && nextShowtimeId == old(nextShowtimeId) && nextBookingId == old(nextBookingId)
    {
      DeleteShowtimeCascadePreservesConsistency(State(), id);
      var after := DeleteShowtimeCascade(State(), id);
      showtimes, bookings := after.showtimes, after.bookings;
    }

    /** Save a new booking of a stored showtime, for a seat still free, under a
        fresh id. */
    method InsertBooking(b: Booking) returns (saved: Booking)
      requires Valid() && b.showtimeId in showtimes && !SeatTaken(bookings, b.showtimeId, b.seatNumber)
      modifies this
      ensures Valid()
      ensures old(nextBookingId) !in old(bookings)
      ensures saved == b.(id := old(nextBookingId))
      ensures State() == old(State()).(bookings := old(bookings)[saved.id := saved])
      ensures nextBookingId == old(nextBookingId) + 1
      ensures nextMovieId == old(nextMovieId) && nextShowtimeId == old(nextShowtimeId)
    {
      saved := b.(id := nextBookingId);
      bookings := bookings[saved.id := saved];
      nextBookingId := nextBookingId + 1;
    }
  }
}
