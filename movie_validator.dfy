/** The fail-fast field checks on a movie request. */
module MovieValidator {

  import opened Wrappers
  import opened Text
  import opened Entities

  const NullMovie := "Movie cannot be null"
  const NullTitle := "Title cannot be null"
  const TitleTooLong := "Movie title is too long (max 100 characters)"
  const NullGenre := "Genre cannot be null"
  const BadDuration := "Movie duration must be greater than 0 minutes"
  const BadRating := "Movie rating must be between 0.0 and 10.0"
  const BadYear := "Movie release year must be realistic"

  const MaxTitleLength := 100
  const MinYear := 1900
  const MaxYear := 2030

  predicate HasTitle(form: Option<MovieForm>) {
    form.Some? && form.value.title.Some? && !IsBlank(form.value.title.value)
  }

  predicate HasShortTitle(form: Option<MovieForm>) {
    HasTitle(form) && |form.value.title.value| <= MaxTitleLength
  }

  predicate HasGenre(form: Option<MovieForm>) {
    HasShortTitle(form) && form.value.genre.Some? && !IsBlank(form.value.genre.value)
  }

  predicate RatingInRange(r: real) { 0.0 <= r <= 10.0 }

  predicate YearInRange(y: int) { MinYear <= y <= MaxYear }

  /** A movie request the validator lets through. */
  predicate IsValid(form: Option<MovieForm>) {
    && HasGenre(form)
    && form.value.duration > 0
    && RatingInRange(form.value.rating)
    && YearInRange(form.value.releaseYear)
  }

  /** `validate`: `None` when the request passes, otherwise the message of the
      first check that fails. The title length is that of the raw title. */
  function Validate(form: Option<MovieForm>): (error: Option<string>)
    ensures error.None? <==> IsValid(form)
    ensures form.None? ==> error == Some(NullMovie)
    ensures form.Some? && !HasTitle(form) ==> error == Some(NullTitle)
    ensures HasTitle(form) && !HasShortTitle(form) ==> error == Some(TitleTooLong)
    ensures HasShortTitle(form) && !HasGenre(form) ==> error == Some(NullGenre)
    ensures HasGenre(form) && form.value.duration <= 0 ==> error == Some(BadDuration)
    ensures HasGenre(form) && form.value.duration > 0 && !RatingInRange(form.value.rating) ==> error == Some(BadRating)
    ensures HasGenre(form) && form.value.duration > 0 && RatingInRange(form.value.rating) && !YearInRange(form.value.releaseYear) ==>
              error == Some(BadYear)
  {
    if form.None? then Some(NullMovie)
    else
      var f := form.value;
      if f.title.None? || IsBlank(f.title.value) then Some(NullTitle)
      else if |f.title.value| > MaxTitleLength then Some(TitleTooLong)
      else if f.genre.None? || IsBlank(f.genre.value) then Some(NullGenre)
      else if f.duration <= 0 then Some(BadDuration)
      else if f.rating < 0.0 || f.rating > 10.0 then Some(BadRating)
      else if f.releaseYear < MinYear || f.releaseYear > MaxYear then Some(BadYear)
      else None
  }

  /** The inclusive edges of every numeric range pass. */
  lemma EdgeValuesAccepted(title: string, genre: string)
    requires !IsBlank(title) && |title| == MaxTitleLength && !IsBlank(genre)
    ensures Validate(Some(MovieForm(Some(title), Some(genre), 1, 0.0, MinYear))) == None
    ensures Validate(Some(MovieForm(Some(title), Some(genre), 1, 10.0, MaxYear))) == None
  {
  }

  /** The length limit applies to the raw title: a one-letter title padded to
      101 characters is rejected, although it would be stored as one letter. */
  lemma {:induction false} RawTitleLengthCounts(pad: string)
    requires |pad| == MaxTitleLength && IsBlank(pad)
    ensures Validate(Some(MovieForm(Some("A" + pad), Some("Drama"), 120, 7.5, 2000))) == Some(TitleTooLong)
    ensures Clean("A" + pad) == "A"
  {
    assert !IsBlank("A" + pad) by { assert ("A" + pad)[0] == 'A'; }
    assert "A" + pad == [] + "A" + pad;
    CleanPaddedWord([], "A", pad);
  }
}
