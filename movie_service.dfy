/** Movie operations: list, add, replace by title and delete by title (with
    the movie's showtimes and their bookings). */
module MovieService {

  import opened Wrappers
  import opened Text
  import opened Entities
  import opened Store
  import MovieValidator

  const MovieNotFoundPrefix := "Movie not found with title: "

  /** The message names the title that was looked up. */
  function MovieNotFound(title: string): (m: string)
    ensures |m| == |MovieNotFoundPrefix| + |title|
    ensures m[..|MovieNotFoundPrefix|] == MovieNotFoundPrefix && m[|MovieNotFoundPrefix|..] == title
  {
    MovieNotFoundPrefix + title
  }

  /** The record stored for a validated request: title and genre cleaned, the
      numbers as sent. */
  function RecordOf(form: Option<MovieForm>, id: int): (m: Movie)
    requires MovieValidator.IsValid(form)
    ensures m.id == id && m.title == Clean(form.value.title.value) && m.genre == Clean(form.value.genre.value)
    ensures m.duration == form.value.duration && m.rating == form.value.rating && m.releaseYear == form.value.releaseYear
    ensures m.title != [] && m.genre != [] && m.duration > 0
    ensures MovieValidator.RatingInRange(m.rating) && MovieValidator.YearInRange(m.releaseYear)
  {
    var f := form.value;
    Movie(id, Clean(f.title.value), Clean(f.genre.value), f.duration, f.rating, f.releaseYear)
  }

  /** `k` is the least of the ids `ks`. */
  predicate IsLeast(k: int, ks: set<int>) {
    k in ks && forall j :: j in ks ==> k <= j
  }

  /** A finite non-empty set of ids has a least element. */
  lemma {:induction false} LeastKeyExists(ks: set<int>)
    requires ks != {}
    ensures exists k :: IsLeast(k, ks)
    decreases |ks|
  {
    if forall y :: y !in ks {
      assert false;  // ks is not empty
    }
    var x :| x in ks;
    var rest := ks - {x};
    if rest == {} {
      assert IsLeast(x, ks) by {
        forall j | j in ks ensures x <= j { assert j !in rest; }
      }
    } else {
      LeastKeyExists(rest);
      var m :| IsLeast(m, rest);
      var least := if x < m then x else m;
      assert IsLeast(least, ks) by {
        forall j | j in ks ensures least <= j {
          if j != x { assert j in rest; }
        }
      }
    }
  }

  /** `findAll`: every stored movie, each once, in ascending order of id. */
  function AllMovies(movies: map<int, Movie>): (r: seq<Movie>)
    ensures |r| == |movies|
    ensures forall m :: m in r <==> m in movies.Values
    decreases |movies|
  {
    if movies == map[] then []
    else
      LeastKeyExists(movies.Keys);
      var k :| IsLeast(k, movies.Keys);
      var rest := movies - {k};
      assert |rest| == |movies| - 1;
      assert forall m :: m in movies.Values <==> m == movies[k] || m in rest.Values by {
        forall m | m in movies.Values ensures m == movies[k] || m in rest.Values {
          if forall j :: j in movies.Keys ==> movies[j] != m {
            assert false;  // m is a value of the map
          }
          var j :| j in movies.Keys && movies[j] == m;
          if j != k { assert j in rest; }
        }
      }
      [movies[k]] + AllMovies(rest)
  }

  /** `save`: validate, clean title and genre, then store under the fresh id
      `id`, unless the cleaned title is taken. */
  function SaveStep(db: Db, form: Option<MovieForm>, id: int): (s: Step<Movie>)
    ensures !s.result.Success? ==> s.db == db
    ensures MovieValidator.Validate(form).Some? ==> s.result == Invalid(MovieValidator.Validate(form).value)
    ensures MovieValidator.IsValid(form) ==> s == PutMovie(db, RecordOf(form, id))
  {
    match MovieValidator.Validate(form)
    case Some(e) => Step(Invalid(e), db)
    case None => PutMovie(db, RecordOf(form, id))
  }

  /** `upgradeByTitle`: find the movie by the cleaned title first, then
      validate and overwrite every field but the id. */
  function UpgradeByTitleStep(db: Db, form: Option<MovieForm>, title: string): (s: Step<Movie>)
    requires UniqueTitles(db.movies)
    ensures !s.result.Success? ==> s.db == db
    ensures FindByTitle(db.movies, Clean(title)).None? ==> s.result == NotFound(MovieNotFound(Clean(title)))
    ensures FindByTitle(db.movies, Clean(title)).Some? && MovieValidator.Validate(form).Some? ==>
              s.result == Invalid(MovieValidator.Validate(form).value)
    ensures FindByTitle(db.movies, Clean(title)).Some? && MovieValidator.IsValid(form) ==>
              s == PutMovie(db, RecordOf(form, FindByTitle(db.movies, Clean(title)).value))
  {
    var cleaned := Clean(title);
    match FindByTitle(db.movies, cleaned)
    case None => Step(NotFound(MovieNotFound(cleaned)), db)
    case Some(k) =>
      match MovieValidator.Validate(form)
      case Some(e) => Step(Invalid(e), db)
      case None => PutMovie(db, RecordOf(form, k))
  }

  /** `deleteByTitle`: find the movie by the cleaned title, then delete it with
      everything it owns. */
  function DeleteByTitleStep(db: Db, title: string): (s: Step<()>)
    requires UniqueTitles(db.movies)
    ensures s.result.Success? <==> FindByTitle(db.movies, Clean(title)).Some?
    ensures s.result.Success? ==> s.db == DeleteMovieCascade(db, FindByTitle(db.movies, Clean(title)).value)
    ensures !s.result.Success? ==> s.result == NotFound(MovieNotFound(Clean(title))) && s.db == db
  {
    var cleaned := Clean(title);
    match FindByTitle(db.movies, cleaned)
    case None => Step(NotFound(MovieNotFound(cleaned)), db)
    case Some(k) => Step(Success(()), DeleteMovieCascade(db, k))
  }

  /** A saved movie is stored under its cleaned title, and that title finds it. */
  lemma SaveThenFind(db: Db, form: Option<MovieForm>, id: int)
    requires UniqueTitles(db.movies)
    requires SaveStep(db, form, id).result.Success?
    ensures SaveStep(db, form, id).result.value.title == Clean(form.value.title.value)
    ensures UniqueTitles(SaveStep(db, form, id).db.movies)
            && FindByTitle(SaveStep(db, form, id).db.movies, Clean(form.value.title.value)) == Some(id)
  {
    PutMovieThenFind(db, RecordOf(form, id));
  }

  /** Two titles that clean to the same text name one movie: once one is
      stored, saving the other under a new id is refused. */
  lemma SaveDuplicateRejected(db: Db, first: Option<MovieForm>, id: int, second: Option<MovieForm>, id2: int)
    requires SaveStep(db, first, id).result.Success? && id2 != id
    requires MovieValidator.IsValid(second) && Clean(second.value.title.value) == Clean(first.value.title.value)
    ensures SaveStep(SaveStep(db, first, id).db, second, id2).result == DuplicateTitle
  {
    SuccessfulSaveStores(db, first, id);
    var after := SaveStep(db, first, id).db;
    assert after.movies[id].title == Clean(second.value.title.value);
    TakenTitleRejected(after, second, id2, id);
  }

  /** A successful save passed validation and wrote its record under `id`. */
  lemma SuccessfulSaveStores(db: Db, form: Option<MovieForm>, id: int)
    requires SaveStep(db, form, id).result.Success?
    ensures MovieValidator.IsValid(form)
    ensures SaveStep(db, form, id).db.movies == db.movies[id := RecordOf(form, id)]
  {
  }

  /** Saving under a new id a movie whose cleaned title another movie holds is refused. */
  lemma TakenTitleRejected(db: Db, form: Option<MovieForm>, id: int, k: int)
    requires MovieValidator.IsValid(form) && k in db.movies && k != id
    requires db.movies[k].title == Clean(form.value.title.value)
    ensures SaveStep(db, form, id).result == DuplicateTitle
  {
    assert TitleTakenByOther(db.movies, id, RecordOf(form, id).title);
  }

  /** `upgradeByTitle` cleans the title before looking it up, so a padded
      title and its clean form act alike. */
  lemma UpgradeIgnoresPadding(db: Db, form: Option<MovieForm>, title: string)
    requires UniqueTitles(db.movies)
    ensures UpgradeByTitleStep(db, form, title) == UpgradeByTitleStep(db, form, Clean(title))
  {
    CleanIdempotent(title);
  }

  /** `deleteByTitle` cleans the title before looking it up, so a padded
      title and its clean form act alike. */
  lemma DeleteIgnoresPadding(db: Db, title: string)
    requires UniqueTitles(db.movies)
    ensures DeleteByTitleStep(db, title) == DeleteByTitleStep(db, Clean(title))
  {
    CleanIdempotent(title);
  }

  /** Replacing a movie keeps its id, so its showtimes stay attached, and keeps
      the store consistent. */
  lemma UpgradePreservesConsistency(db: Db, form: Option<MovieForm>, title: string)
    requires Consistent(db)
    ensures Consistent(UpgradeByTitleStep(db, form, title).db)
    ensures UpgradeByTitleStep(db, form, title).db.movies.Keys == db.movies.Keys
  {
    var found := FindByTitle(db.movies, Clean(title));
    if found.Some? && MovieValidator.IsValid(form) {
      var m := RecordOf(form, found.value);
      PutMoviePreservesConsistency(db, m);
      PutMovieKeepsIds(db, m);
    }
  }

  /** Deleting by title leaves the title free and the store consistent. */
  lemma DeleteByTitleFrees(db: Db, title: string)
    requires Consistent(db)
    ensures Consistent(DeleteByTitleStep(db, title).db)
    ensures FindByTitle(DeleteByTitleStep(db, title).db.movies, Clean(title)).None?
  {
    var cleaned := Clean(title);
    match FindByTitle(db.movies, cleaned)
    case None =>
    case Some(k) =>
      DeleteMovieCascadePreservesConsistency(db, k);
      var after := DeleteMovieCascade(db, k).movies;
      forall j | j in after ensures after[j].title != cleaned {
        assert db.movies[j].title == after[j].title;
      }
  }

  class MovieService {
    const store: Database

    constructor (store: Database)
      ensures this.store == store
    {
      this.store := store;
    }

    method GetAllMovies() returns (movies: seq<Movie>)
      ensures |movies| == |store.movies|
      ensures forall m :: m in movies <==> m in store.movies.Values
    {
      movies := AllMovies(store.movies);
    }

    method Save(form: Option<MovieForm>) returns (r: Result<Movie>)
      requires store.Valid()
      modifies store
      ensures store.Valid()
      ensures Step(r, store.State()) == SaveStep(old(store.State()), form, old(store.nextMovieId))
      ensures store.nextMovieId == old(store.nextMovieId) + (if MovieValidator.IsValid(form) then 1 else 0)
      ensures store.nextShowtimeId == old(store.nextShowtimeId) && store.nextBookingId == old(store.nextBookingId)
    {
      var error := MovieValidator.Validate(form);
      if error.Some? {
        return Invalid(error.value);
      }
      r := store.InsertMovie(RecordOf(form, 0));
    }

    method UpgradeByTitle(form: Option<MovieForm>, title: string) returns (r: Result<Movie>)
      requires store.Valid()
      modifies store
      ensures store.Valid()
      ensures Step(r, store.State()) == UpgradeByTitleStep(old(store.State()), form, title)
      ensures store.nextMovieId == old(store.nextMovieId) && store.nextShowtimeId == old(store.nextShowtimeId)
      ensures store.nextBookingId == old(store.nextBookingId)
    {
      var cleaned := Clean(title);
      var found := FindByTitle(store.movies, cleaned);
      if found.None? {
        return NotFound(MovieNotFound(cleaned));
      }
      var error := MovieValidator.Validate(form);
      if error.Some? {
        return Invalid(error.value);
      }
      r := store.UpdateMovie(RecordOf(form, found.value));
    }

    method DeleteByTitle(title: string) returns (r: Result<()>)
      requires store.Valid()
      modifies store
      ensures store.Valid()
      ensures Step(r, store.State()) == DeleteByTitleStep(old(store.State()), title)
      ensures store.nextMovieId == old(store.nextMovieId) && store.nextShowtimeId == old(store.nextShowtimeId)
      ensures store.nextBookingId == old(store.nextBookingId)
    {
      var cleaned := Clean(title);
      var found := FindByTitle(store.movies, cleaned);
      if found.None? {
        return NotFound(MovieNotFound(cleaned));
      }
      store.DeleteMovie(found.value);
      r := Success(());
    }
  }
}
