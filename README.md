# Popcorn Palace service layer in Dafny

This project models the service layer of the Popcorn Palace cinema back end.
Three services share one store:
- Showtime scheduling: add a showtime with an overlap check per theater, replace it, delete it, look it up as a DTO.
- Seat booking: at most one booking per seat of a showtime.
- The movie catalog: add, replace by title, delete by title, list all.

The field validators are modelled with their exact check order and messages.
So is `cleanString`, which trims and then collapses every whitespace run to one space.

The store is a value `Db` holding three maps: movies, showtimes and bookings, each keyed by id.
Each service operation is a function from the store before the call to a `Step`.
A `Step` is the outcome (`Success`, `Invalid(message)`, `NotFound(message)` or `DuplicateTitle`) plus the store after the call.
An exception in the source is an outcome here.

The mutable side is the class `Store.Database`.
It holds the three maps and the id generators, and its methods are the repository calls.
Each service class (`ShowtimeService`, `BookingService`, `MovieService`) holds a `Database`.
Each of its methods is proved to change the database exactly as the matching step function says.
Each method also preserves `Database.Valid()`, which requires the following:
- every record sits under its own id;
- titles are unique;
- every showtime belongs to a stored movie, and every booking to a stored showtime;
- no seat of a showtime is booked twice;
- every key is below its id counter, so a generated id is always fresh.

Files:
- `wrappers.dfy`: `Option`.
- `text.dfy`: whitespace, `cleanString` with its proofs, and decimal rendering for messages.
- `entities.dfy`: the stored records and the request bodies, whose reference fields may be null.
- `showtime_validator.dfy`, `movie_validator.dfy`, `booking_validator.dfy`: the guard chains.
- `showtime_dto.dfy`: the DTO projection.
- `store.dfy`: tables, constraints, cascades and `Database`.
- `showtime_service.dfy`, `booking_service.dfy`, `movie_service.dfy`: the services.

The overlap property deserves a note.
"No two showtimes in one theater overlap" is not an invariant of the code, for two reasons:
- the overlap lookup uses the theater name as sent, while the stored name is cleaned;
- `upgradeById` does not check for overlaps at all.

So the model proves two things:
- adding a showtime whose theater name is already clean keeps the property (`SavePreservesNoOverlap`);
- concrete counterexamples exist for the other two paths (`UncleanTheaterSlipsPastOverlapCheck`, `UpgradeCanCreateOverlap`).

## Model

| member | source | states |
|---|---|---|
| Text.Trim | src/main/java/com/att/tdp/popcorn_palace/validation/ShowtimeValidator.java:37 | the result is the slice of the input left between a blank prefix and a blank suffix, with no whitespace at either end; it is empty exactly when the input is blank |
| Text.CollapseRuns | src/main/java/com/att/tdp/popcorn_palace/validation/ShowtimeValidator.java:37 | after collapsing, every whitespace character is a single space with no whitespace beside it; the result is empty only for empty input; a leading or trailing whitespace run becomes one space, and a non-whitespace first or last character stays in place |
| Text.CollapseRunsKeepsWords | src/main/java/com/att/tdp/popcorn_palace/validation/ShowtimeValidator.java:37 | collapsing keeps the words of the string, in order; with the edge clauses of `CollapseRuns` this fixes the result |
| Text.Clean | src/main/java/com/att/tdp/popcorn_palace/validation/ShowtimeValidator.java:34-38 | `cleanString` of a string has no edge whitespace, every whitespace character in it is a lone space, and it is empty exactly when the input is blank |
| Text.CleanString | src/main/java/com/att/tdp/popcorn_palace/validation/MovieValidator.java:34-38 | null maps to null; a string maps to its words joined by single spaces, which is normalised |
| Text.CleanFixesNormalised | src/main/java/com/att/tdp/popcorn_palace/validation/ShowtimeValidator.java:37 | a string that is already trimmed and single-spaced is left unchanged |
| Text.CleanIdempotent | src/main/java/com/att/tdp/popcorn_palace/validation/ShowtimeValidator.java:34-38 | cleaning twice equals cleaning once |
| Text.CleanIsJoinedWords | src/main/java/com/att/tdp/popcorn_palace/validation/ShowtimeValidator.java:37 | against an independent definition: the result is the maximal whitespace-free words of the input joined by single spaces |
| Text.CleanPaddedWord | src/main/java/com/att/tdp/popcorn_palace/validation/MovieValidator.java:37 | a single word with blank padding on both sides cleans to the word |
| Text.CleanExampleTitle | src/test/java/com/att/tdp/popcorn_palace/service/MovieServiceTest.java:38-45 | "  Inception  " cleans to "Inception" |
| Text.CleanExampleGenre | src/test/java/com/att/tdp/popcorn_palace/service/MovieServiceTest.java:38-46 | "  Sci-Fi  " cleans to "Sci-Fi" |
| Text.CleanExampleTheater | src/test/java/com/att/tdp/popcorn_palace/service/ShowtimeServiceTest.java:37-49 | "Main Hall" is stored unchanged |
| Text.NatToString | src/main/java/com/att/tdp/popcorn_palace/service/ShowtimeService.java:30 | the rendering of a number is its canonical decimal numeral: digits only, no leading zero, denoting the number |
| Text.IntToString | src/main/java/com/att/tdp/popcorn_palace/service/ShowtimeService.java:30 | Java's rendering of an integral value: a minus sign exactly for negative values, then the canonical numeral of the magnitude |
| Text.NumeralIsNatToString | src/main/java/com/att/tdp/popcorn_palace/service/ShowtimeService.java:30 | every canonical numeral of a number is the one rendered, so the contract of `NatToString` fixes its result |
| Text.JavaDecimalIsIntToString | src/main/java/com/att/tdp/popcorn_palace/service/ShowtimeService.java:30 | every string meeting the contract of `IntToString` is the one rendered |
| ShowtimeValidator.Validate | src/main/java/com/att/tdp/popcorn_palace/validation/ShowtimeValidator.java:9-32 | passes exactly when every field check holds; otherwise gives the message of the first failing check in the order null showtime, null movie, null movie id, null or blank theater, missing start or end, start after end, negative price |
| ShowtimeValidator.ZeroLengthFreeShowAccepted | src/main/java/com/att/tdp/popcorn_palace/validation/ShowtimeValidator.java:26-31 | start equal to end and a price of 0.0 both pass, since neither bound is strict |
| ShowtimeValidator.BlankTheaterRejected | src/main/java/com/att/tdp/popcorn_palace/validation/ShowtimeValidator.java:20-22 | a blank theater name gives "Theater cannot be null" |
| MovieValidator.Validate | src/main/java/com/att/tdp/popcorn_palace/validation/MovieValidator.java:9-32 | passes exactly when every check holds; otherwise gives the first failing message in the order null movie, null or blank title, raw title longer than 100, null or blank genre, duration not positive, rating outside 0.0..10.0, year outside 1900..2030 |
| MovieValidator.EdgeValuesAccepted | src/main/java/com/att/tdp/popcorn_palace/validation/MovieValidator.java:17-31 | a 100-character title, duration 1, ratings 0.0 and 10.0 and years 1900 and 2030 all pass |
| MovieValidator.RawTitleLengthCounts | src/main/java/com/att/tdp/popcorn_palace/validation/MovieValidator.java:17-19 | length is measured before cleaning: "A" followed by 100 blanks is rejected as too long, although it cleans to "A" |
| BookingValidator.ValidateBooking | src/main/java/com/att/tdp/popcorn_palace/validation/BookingValidator.java:9-23 | passes exactly when the booking, the showtime id and the user id are present and the seat is in 1..300; otherwise gives the first failing message in that order |
| BookingValidator.SeatEdges | src/main/java/com/att/tdp/popcorn_palace/validation/BookingValidator.java:20-22 | seats 1 and 300 pass; seats 0 and 301 give "Incorrect seat number" |
| Dto.ConvertToDto | src/main/java/com/att/tdp/popcorn_palace/dto/ShowtimeDTO.java:22-32 | the DTO carries the showtime's id, its movie's id, and its theater, start, end and price verbatim |
| Dto.ConvertToDtoInjective | src/main/java/com/att/tdp/popcorn_palace/dto/ShowtimeDTO.java:25-30 | no information is lost: equal DTOs come from equal showtimes |
| Store.FindByTitle | src/main/java/com/att/tdp/popcorn_palace/service/MovieService.java:41 | under unique titles, finds a movie exactly when some stored movie has the title, and the one found has it |
| Store.SeatTaken | src/main/java/com/att/tdp/popcorn_palace/service/BookingService.java:34 | the query `existsByShowtimeIdAndSeatNumber`: some stored booking has this showtime and seat (a definition; its partners are the next row and `BookingService.SeatTakenIsPerShowtime`) |
| Store.SeatTakenAfterInsert | src/main/java/com/att/tdp/popcorn_palace/service/BookingService.java:34-41 | storing a booking under a new id takes exactly its own seat of its own showtime; every other seat is taken afterwards exactly when it was before |
| Store.FindByTitleFinds | src/main/java/com/att/tdp/popcorn_palace/model/Movie.java:23 | with unique titles, a stored movie's title finds that movie |
| Store.PutMovie | src/main/java/com/att/tdp/popcorn_palace/model/Movie.java:23 | a save fails with the title conflict exactly when another movie holds the title; the store is then unchanged; otherwise the movie is written under its id |
| Store.PutMoviePreservesConsistency | src/main/java/com/att/tdp/popcorn_palace/model/Movie.java:23 | saving a movie keeps every store constraint, title uniqueness included |
| Store.PutMovieThenFind | src/main/java/com/att/tdp/popcorn_palace/model/Movie.java:23 | after a save without a title clash, titles are still unique and the title finds the saved movie |
| Store.PutMovieKeepsIds | src/main/java/com/att/tdp/popcorn_palace/service/MovieService.java:49 | saving over a stored movie leaves the set of movie ids unchanged |
| Store.DeleteShowtimeCascade | src/main/java/com/att/tdp/popcorn_palace/model/Showtime.java:38 | removes the showtime and exactly the bookings pointing at it; movies and every other booking are unchanged |
| Store.DeleteMovieCascade | src/main/java/com/att/tdp/popcorn_palace/model/Movie.java:38 | removes the movie, exactly its showtimes, and exactly the bookings of those showtimes; everything else is unchanged |
| Store.DeleteShowtimeCascadePreservesConsistency | src/main/java/com/att/tdp/popcorn_palace/model/Showtime.java:38 | after a showtime delete no booking is left pointing at a missing showtime, and every constraint still holds |
| Store.DeleteMovieCascadePreservesConsistency | src/main/java/com/att/tdp/popcorn_palace/model/Movie.java:38 | after a movie delete nothing is left pointing at a missing movie or showtime |
| Store.DeleteMovieCascadeKeepsOtherBookings | src/main/java/com/att/tdp/popcorn_palace/model/Movie.java:38 | a booking survives a movie delete exactly when its showtime belongs to another movie |
| Store.Database.InsertMovie | src/main/java/com/att/tdp/popcorn_palace/model/Movie.java:19-23 | the new movie gets a fresh generated id and is saved subject to the unique title; the store stays valid |
| Store.Database.UpdateMovie | src/main/java/com/att/tdp/popcorn_palace/service/MovieService.java:49 | a stored movie is overwritten subject to the unique title; the store stays valid |
| Store.Database.DeleteMovie | src/main/java/com/att/tdp/popcorn_palace/service/MovieService.java:57 | the store becomes the cascade delete of the movie and stays valid |
| Store.Database.InsertShowtime | src/main/java/com/att/tdp/popcorn_palace/service/ShowtimeService.java:48 | the showtime is added under a fresh generated id; nothing else changes |
| Store.Database.UpdateShowtime | src/main/java/com/att/tdp/popcorn_palace/service/ShowtimeService.java:65 | a stored showtime is overwritten; nothing else changes |
| Store.Database.DeleteShowtime | src/main/java/com/att/tdp/popcorn_palace/service/ShowtimeService.java:72 | the store becomes the cascade delete of the showtime and stays valid |
| Store.Database.InsertBooking | src/main/java/com/att/tdp/popcorn_palace/model/Booking.java:20-24 | the booking gets a fresh generated id and is added; the store stays valid, seat uniqueness included |
| ShowtimeService.RecordOf | src/main/java/com/att/tdp/popcorn_palace/service/ShowtimeService.java:46-48 | the stored showtime has the requested movie and times, the theater cleaned, and the price as sent |
| ShowtimeService.ShowtimeNotFound | src/main/java/com/att/tdp/popcorn_palace/service/ShowtimeService.java:30 | the message is "Showtime not found with id: " followed by Java's rendering of the id |
| ShowtimeService.MovieNotFound | src/main/java/com/att/tdp/popcorn_palace/service/ShowtimeService.java:40 | the message is "Movie not found with ID: " followed by Java's rendering of the movie id |
| ShowtimeService.MessagesAsTested | src/test/java/com/att/tdp/popcorn_palace/service/ShowtimeServiceTest.java:81-215 | "Movie not found with ID: 42", "Movie not found with ID: 5" and "Showtime not found with id: 999", as the tests expect |
| ShowtimeService.Conflicts | src/main/java/com/att/tdp/popcorn_palace/service/ShowtimeService.java:78-81 | the overlap test: the new show starts before the stored one ends and ends after it starts (a definition; its meaning is the `ConflictsIffSharedInstant` row) |
| ShowtimeService.IsOverlapping | src/main/java/com/att/tdp/popcorn_palace/service/ShowtimeService.java:75-82 | `isOverlappingWithExistingShowtimes`: some stored showtime with exactly this theater name passes the overlap test (a definition; its partner is `AnyConflictIsOverlapping`) |
| ShowtimeService.AnyConflict | src/main/java/com/att/tdp/popcorn_palace/service/ShowtimeService.java:77-81 | the `anyMatch` scan of a list holds exactly when some element of the list passes the overlap test |
| ShowtimeService.AnyConflictIsOverlapping | src/main/java/com/att/tdp/popcorn_palace/service/ShowtimeService.java:75-82 | for any list holding exactly the stored showtimes of the theater, in any order, the scan agrees with `IsOverlapping` |
| ShowtimeService.GetShowtimeStep | src/main/java/com/att/tdp/popcorn_palace/service/ShowtimeService.java:28-32 | succeeds exactly for a stored id, with the DTO of the stored showtime; otherwise "Showtime not found with id: <id>" |
| ShowtimeService.SaveStep | src/main/java/com/att/tdp/popcorn_palace/service/ShowtimeService.java:35-49 | checks in order (validation message, then "Movie not found with ID: <id>", then the overlap message); succeeds exactly when all pass; a failure leaves the store unchanged; a success adds exactly the cleaned record under the new id |
| ShowtimeService.UpgradeStep | src/main/java/com/att/tdp/popcorn_palace/service/ShowtimeService.java:52-66 | an unknown id gives NotFound before validation; then validation, then the movie lookup; a success overwrites only that showtime, keeping its id, with no overlap check; a failure changes nothing |
| ShowtimeService.DeleteStep | src/main/java/com/att/tdp/popcorn_palace/service/ShowtimeService.java:69-73 | succeeds exactly for a stored id and then removes the showtime with its bookings; otherwise NotFound and no change |
| ShowtimeService.ConflictsIffSharedInstant | src/main/java/com/att/tdp/popcorn_palace/service/ShowtimeService.java:78-81 | for shows of positive length, the overlap test holds exactly when the two half-open intervals share an instant |
| ShowtimeService.ZeroLengthShowInsideCollides | src/main/java/com/att/tdp/popcorn_palace/service/ShowtimeService.java:78-81 | a zero-length show inside another counts as overlapping, although no instant is shared |
| ShowtimeService.BackToBackDoNotConflict | src/main/java/com/att/tdp/popcorn_palace/service/ShowtimeService.java:79-80 | a show starting when another ends, or ending when it starts, does not overlap it |
| ShowtimeService.OtherTheatersIrrelevant | src/main/java/com/att/tdp/popcorn_palace/service/ShowtimeService.java:77 | adding a show in another theater does not change the overlap test for a theater |
| ShowtimeService.SavePreservesNoOverlap | src/main/java/com/att/tdp/popcorn_palace/service/ShowtimeService.java:42-48 | if the submitted theater name is already clean, saving keeps every theater free of overlapping shows |
| ShowtimeService.CollidingSecondSaveRejected | src/main/java/com/att/tdp/popcorn_palace/service/ShowtimeService.java:42-44 | after a show is stored, a request with the stored theater name and an overlapping interval gets the overlap message |
| ShowtimeService.PaddedWordRequest | src/main/java/com/att/tdp/popcorn_palace/service/ShowtimeService.java:46 | a complete request whose theater is a word after blanks passes validation and is stored under the bare word |
| ShowtimeService.PaddedWordSave | src/main/java/com/att/tdp/popcorn_palace/service/ShowtimeService.java:42-48 | such a request for a stored movie, with no overlap under the name as sent, is saved under the bare word |
| ShowtimeService.WordUpgrade | src/main/java/com/att/tdp/popcorn_palace/service/ShowtimeService.java:60-65 | replacing a stored show with a valid request for a stored movie always succeeds and writes exactly the new record |
| ShowtimeService.UncleanTheaterSlipsPastOverlapCheck | src/main/java/com/att/tdp/popcorn_palace/service/ShowtimeService.java:77 | a theater name with a leading blank is checked under that name but stored cleaned, so two overlapping shows end up in one theater |
| ShowtimeService.UpgradeCanCreateOverlap | src/main/java/com/att/tdp/popcorn_palace/service/ShowtimeService.java:52-66 | a replacement can make two shows in one theater overlap |
| ShowtimeService.SaveThenGet | src/main/java/com/att/tdp/popcorn_palace/service/ShowtimeService.java:28-32 | a saved showtime reads back as the DTO of the saved record, with the theater cleaned |
| ShowtimeService.DeleteThenGet | src/main/java/com/att/tdp/popcorn_palace/service/ShowtimeService.java:69-73 | after a delete the showtime is not found and none of its seats is taken |
| ShowtimeService.ShowtimeService.GetShowtimeById | src/main/java/com/att/tdp/popcorn_palace/service/ShowtimeService.java:28-32 | returns the DTO of the stored showtime, or NotFound for an unknown id |
| ShowtimeService.ShowtimeService.Save | src/main/java/com/att/tdp/popcorn_palace/service/ShowtimeService.java:35-49 | changes the database exactly as SaveStep with the next generated id, and keeps it valid |
| ShowtimeService.ShowtimeService.UpgradeById | src/main/java/com/att/tdp/popcorn_palace/service/ShowtimeService.java:52-66 | changes the database exactly as UpgradeStep and keeps it valid |
| ShowtimeService.ShowtimeService.DeleteById | src/main/java/com/att/tdp/popcorn_palace/service/ShowtimeService.java:69-73 | changes the database exactly as DeleteStep and keeps it valid |
| BookingService.RecordOf | src/main/java/com/att/tdp/popcorn_palace/service/BookingService.java:40-41 | the stored booking references the requested showtime and keeps the seat and user; the seat is within the hall |
| BookingService.ShowtimeNotFound | src/main/java/com/att/tdp/popcorn_palace/service/BookingService.java:33 | the message is "Showtime not found with ID: " followed by Java's rendering of the id |
| BookingService.SeatTakenMessage | src/main/java/com/att/tdp/popcorn_palace/service/BookingService.java:37 | the message is "Seat ", Java's rendering of the seat number, then " is already booked for this showtime" |
| BookingService.ShowtimeNotFoundAsTested | src/test/java/com/att/tdp/popcorn_palace/service/BookingServiceTest.java:187 | "Showtime not found with ID: 999", as the test expects |
| BookingService.SeatTakenAsTested | src/test/java/com/att/tdp/popcorn_palace/service/BookingServiceTest.java:163 | "Seat 10 is already booked for this showtime", as the test expects |
| BookingService.BookStep | src/main/java/com/att/tdp/popcorn_palace/service/BookingService.java:30-42 | checks in order (validation, then "Showtime not found with ID: <id>", then "Seat <n> is already booked for this showtime"); succeeds exactly when all pass; a failure leaves the store unchanged; a success adds exactly one booking |
| BookingService.BookPreservesSeatsUnique | src/main/java/com/att/tdp/popcorn_palace/service/BookingService.java:34-41 | if no seat of a showtime was booked twice before a booking, none is after it |
| BookingService.BookPreservesSeatsInRange | src/main/java/com/att/tdp/popcorn_palace/validation/BookingValidator.java:20-22 | booking keeps every booked seat within 1..300 |
| BookingService.SecondBookingOfSeatRejected | src/main/java/com/att/tdp/popcorn_palace/service/BookingService.java:34-38 | once a seat is booked, any valid request for the same seat of that showtime is refused with the seat-taken message |
| BookingService.SeatTakenIsPerShowtime | src/main/java/com/att/tdp/popcorn_palace/service/BookingService.java:34 | whether a seat is taken depends only on the bookings of that showtime |
| BookingService.SameSeatOtherShowtimeAccepted | src/main/java/com/att/tdp/popcorn_palace/service/BookingService.java:34 | a booking that would succeed for one showtime still succeeds after the same seat is booked in another showtime |
| BookingService.OutOfRangeSeatRejected | src/main/java/com/att/tdp/popcorn_palace/validation/BookingValidator.java:20-22 | a request with booking, showtime id and user present but a seat outside 1..300 gets "Incorrect seat number" whatever the store holds, and the store is unchanged |
| BookingService.BookingService.Save | src/main/java/com/att/tdp/popcorn_palace/service/BookingService.java:30-42 | changes the database exactly as BookStep with the next generated id, and keeps it valid |
| MovieService.RecordOf | src/main/java/com/att/tdp/popcorn_palace/service/MovieService.java:32-33 | the stored movie has title and genre cleaned (non-empty) and the validated numbers unchanged |
| MovieService.MovieNotFound | src/main/java/com/att/tdp/popcorn_palace/service/MovieService.java:41 | the message is "Movie not found with title: " followed by exactly the title looked up |
| MovieService.AllMovies | src/main/java/com/att/tdp/popcorn_palace/service/MovieService.java:23-26 | lists every stored movie and nothing else, one entry per stored id |
| MovieService.SaveStep | src/main/java/com/att/tdp/popcorn_palace/service/MovieService.java:29-35 | a validation failure gives its message and changes nothing; a valid movie is saved with title and genre cleaned, subject to the unique title |
| MovieService.UpgradeByTitleStep | src/main/java/com/att/tdp/popcorn_palace/service/MovieService.java:38-50 | looks up the cleaned title before validating ("Movie not found with title: <cleaned>"); then validates; then overwrites the found movie, keeping its id, subject to the unique title; a failure changes nothing |
| MovieService.DeleteByTitleStep | src/main/java/com/att/tdp/popcorn_palace/service/MovieService.java:53-58 | succeeds exactly when the cleaned title is stored, and then cascades the delete; otherwise NotFound and no change |
| MovieService.SaveThenFind | src/main/java/com/att/tdp/popcorn_palace/service/MovieService.java:32-34 | a saved movie is stored under its cleaned title, and that title finds it |
| MovieService.SaveDuplicateRejected | src/main/java/com/att/tdp/popcorn_palace/model/Movie.java:23 | two titles that clean to the same text cannot both be saved |
| MovieService.TakenTitleRejected | src/main/java/com/att/tdp/popcorn_palace/model/Movie.java:23 | saving under a new id a movie whose cleaned title is taken fails with the title conflict |
| MovieService.UpgradeIgnoresPadding | src/main/java/com/att/tdp/popcorn_palace/service/MovieService.java:40-41 | replacing by a padded title acts as replacing by its clean form |
| MovieService.DeleteIgnoresPadding | src/main/java/com/att/tdp/popcorn_palace/service/MovieService.java:55-56 | deleting by a padded title acts as deleting by its clean form |
| MovieService.UpgradePreservesConsistency | src/main/java/com/att/tdp/popcorn_palace/service/MovieService.java:44-49 | a replacement keeps the set of movie ids, so showtimes stay attached, and keeps every constraint |
| MovieService.DeleteByTitleFrees | src/main/java/com/att/tdp/popcorn_palace/service/MovieService.java:55-57 | after a delete by title the store is consistent and the cleaned title no longer finds a movie |
| MovieService.MovieService.GetAllMovies | src/main/java/com/att/tdp/popcorn_palace/service/MovieService.java:23-26 | returns every stored movie and nothing else, one entry per stored id |
| MovieService.MovieService.Save | src/main/java/com/att/tdp/popcorn_palace/service/MovieService.java:29-35 | changes the database exactly as SaveStep with the next generated id, and keeps it valid |
| MovieService.MovieService.UpgradeByTitle | src/main/java/com/att/tdp/popcorn_palace/service/MovieService.java:38-50 | changes the database exactly as UpgradeByTitleStep and keeps it valid |
| MovieService.MovieService.DeleteByTitle | src/main/java/com/att/tdp/popcorn_palace/service/MovieService.java:53-58 | changes the database exactly as DeleteByTitleStep and keeps it valid |

## Left out

- Controllers and `GlobalExceptionHandler`: HTTP routing and the mapping of exceptions to status codes are transport. The booking controller reads the showtime id from the request body; here it is the separate `showtimeId` argument of the booking operation.
- Concurrency and transactions: every operation runs alone and atomically. The check-then-insert race in `BookingService.save` is not modelled. Seat uniqueness holds in the model because calls run one at a time, not because of a database constraint (there is none).
- JPA and Lombok: entities are values in maps, not shared mutable objects. Setters on a loaded entity followed by `save` become writing a new record under the same id. References between entities are ids, and child lists are recovered from the back references.
- Id generation: the identity column and the UUID generator are counters in `Database` that hand out fresh ids. UUIDs are natural numbers. The movie counter also advances when a save fails on the title constraint.
- A request that carries its own id is not modelled. New records always get a generated id, and the id in a request body is ignored.
- Repository queries `findAllByTheater` and `existsByShowtimeIdAndSeatNumber` are predicates over the maps (`IsOverlapping`, `SeatTaken`). The list `findAllByTheater` returns is not built; `AnyConflictIsOverlapping` shows that scanning any list of the theater's showtimes agrees with `IsOverlapping`. `MovieService.AllMovies` lists movies in ascending id order. The source's `findAll` promises no order, so no ordering claim is made.
- `LocalDateTime` is an integer instant, since only `isBefore` and `isAfter` are used. Price and rating are `real` without IEEE rounding, since they are only compared with constants.
- Text.IsWhitespace: one whitespace class (space, tab, line feed, vertical tab, form feed, carriage return) stands for `isBlank`, `trim` and the regular expression `\s`. Java's `trim` also strips other control characters up to U+0020, and `isBlank` also treats Unicode spaces as blank; those differences are not modelled.
- MovieValidator.Validate: the title length is counted in Dafny characters, not UTF-16 code units, so a title with characters outside the Basic Multilingual Plane may differ from Java's `length()`.
- The JSON (de)serialisation of request bodies is not modelled. Null reference fields are `Option`, and primitive fields cannot be null.
