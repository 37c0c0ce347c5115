# filmorate core in Dafny

This project models the decision-making Java code of filmorate, a film-rating backend, and
proves properties of that model. Users like films, befriend each other, review films and get
film recommendations. The model covers these parts:

- **Recommender** (`DbUserStorage.getRecommendations`). The (user, film) like rows are grouped
  into one film list per user. The other user who shares the most liked films with the target
  becomes the neighbour. The result is the neighbour's films that the target has not liked, in
  the neighbour's order.
- **Row grouping** (`extractGenresByFilmId` in `DbGenreStorage` and `DbDirectorStorage`). A
  result set becomes an insertion-ordered map from film id to a list of genres or directors.
  The shared specification lives in module `Grouping`.
- **`FilmService`**:
  - which popularity query runs and which search query runs;
  - merging the genre and director maps into the films a query returned, in place;
  - the guards and feed events of liking and unliking a film;
  - the order of the checks in `getCommonFilms`.
- **`UserService`**: the guards and feed events of adding and deleting a friend, `getFriends`,
  and naming a user after the login when the name is missing.
- **In-memory tables**: `InMemoryFilmStorage`, `InMemoryUserStorage` and the early
  `UserController`. Each is a map plus an id counter.
- **Validation**:
  - `Validator`'s checks;
  - the `@AfterCinemaBirthday` constraint and its agreement with `validateFilmDate`;
  - the field constraints of `Film` and `User`;
  - `Review.getUseful`.

Modelling choices:

- Storage lookups are maps. A Java `null` is `Option.None`.
- A thrown exception is a `Failure`/`Fail` value of `Exceptions.Error`.
- The results of SQL queries are inputs: a sequence of rows, or the films a query returned.
- Feed events keep their user, entity, type and operation. The clock time stamp is dropped.
- `HashMap` iteration is modelled by picking the next key from the set of keys not yet visited,
  so no proof depends on the iteration order.

**Targets without likes or without a neighbour.** `getRecommendations` gives neither case an
empty list:

- For a target without likes, the loop at `DbUserStorage.java:153` iterates the null list
  `data.get(id)`.
- When nobody shares a film with the target, line 110 iterates `data.get(null)`.

Both paths throw `NullPointerException`. The model returns the failures `TargetHasNoLikes` and
`NoNeighbour` for these two cases.

## Model

| member | source | states |
|---|---|---|
| Text.Utf16LengthBounds | src/main/java/ru/yandex/practicum/filmorate/model/Film.java:25 | `String.length()` is between the number of characters and twice it: equal to it for Basic Multilingual Plane text, twice it for text above U+FFFF |
| Text.RegexSpaceIsJavaWhitespace | src/main/java/ru/yandex/practicum/filmorate/model/User.java:25 | every regex `\s` character is whitespace for `Character.isWhitespace` |
| Text.NonSpaceRunMayBeBlank | src/main/java/ru/yandex/practicum/filmorate/model/User.java:25 | the login "U+2000" matches `\A\S+\Z`, yet `isBlank` calls it blank |
| Text.VisibleCharIsNotBlank | src/main/java/ru/yandex/practicum/filmorate/model/Film.java:22 | a string with a visible character passes `@NotBlank` and is not blank |
| Dates.BeforeIsStrictTotalOrder | src/main/java/ru/yandex/practicum/filmorate/validator/Validator.java:47 | `isBefore` on days is irreflexive, transitive and total |
| Dates.BeforeNextDay | src/main/java/ru/yandex/practicum/filmorate/validator/annotation/CinemaBirthdayConstraintValidator.java:17 | a day is before the day after `b` exactly when it is not after `b` |
| Films.AddGenre | src/main/java/ru/yandex/practicum/filmorate/model/Film.java:35 | `TreeSet.add` grows the set by at most one genre and brings in no genre but the one added |
| Films.AddGenreKeepsOrder | src/main/java/ru/yandex/practicum/filmorate/model/Film.java:35 | inserting into the genre `TreeSet` keeps ids strictly ascending and adds exactly the new id |
| Films.AddGenreContents | src/main/java/ru/yandex/practicum/filmorate/model/Film.java:35 | a genre whose id is present collapses into the stored one; otherwise it joins the set, and nothing else does |
| Films.AddAllGenres | src/main/java/ru/yandex/practicum/filmorate/service/FilmService.java:148 | `addAll` yields the union of the ids, keeps every stored genre and holds only stored or added genres |
| Films.AddAllGenresKnown | src/main/java/ru/yandex/practicum/filmorate/service/FilmService.java:148 | adding genres whose ids are all present leaves the set unchanged |
| Films.ValidFilm | src/main/java/ru/yandex/practicum/filmorate/model/Film.java:21-32 | a film passing the field constraints has a non-empty name and at most 200 characters of description |
| Films.ValidFilmExamples | src/test/java/ru/yandex/practicum/filmorate/controller/FilmControllerTest.java:116-180 | the sample film is valid; an empty name, a release date in 2555 or a duration of -200 makes it invalid |
| Films.SameFilmIgnoresRatingGenresLikes | src/main/java/ru/yandex/practicum/filmorate/model/Film.java:17 | film equality ignores `mpa`, `genres` and `usersIdLiked` |
| Films.SameFilmIsEquivalence | src/main/java/ru/yandex/practicum/filmorate/model/Film.java:17 | film equality is reflexive, symmetric and transitive |
| Films.DescriptionLimit | src/main/java/ru/yandex/practicum/filmorate/model/Film.java:25 | the limit counts UTF-16 units: at most 200 characters from the Basic Multilingual Plane pass, at most 100 above U+FFFF, and never more than 200 characters |
| Users.ValidUser | src/main/java/ru/yandex/practicum/filmorate/model/User.java:24-29 | a user passing the field constraints has a non-empty login without spaces and a birthday not after today |
| Users.ValidUserExamples | src/test/java/ru/yandex/practicum/filmorate/controller/UserControllerTest.java:106-140 | the sample user is valid; the login "Login Loginovich" and a birthday in 2555 are each rejected |
| Users.SameUserIgnoresFriends | src/main/java/ru/yandex/practicum/filmorate/model/User.java:16 | user equality ignores the friends |
| Users.CheckPresenceUserName | src/main/java/ru/yandex/practicum/filmorate/service/UserService.java:109-114 | a null, empty or blank name becomes the login; any other name is kept; no other field changes |
| Users.CheckPresenceUserNameIdempotent | src/main/java/ru/yandex/practicum/filmorate/service/UserService.java:109-114 | defaulting the name twice equals defaulting it once |
| Users.DefaultedNameIsPresent | src/main/java/ru/yandex/practicum/filmorate/service/UserService.java:110-112 | with a non-blank login, the defaulted name is never missing |
| Users.NameDefaultExamples | src/test/java/ru/yandex/practicum/filmorate/controller/UserControllerTest.java:37-51 | login "Login": no name or "" gives "Login"; "Name" is kept |
| Reviews.StreamSumIsUseful | src/main/java/ru/yandex/practicum/filmorate/model/Review.java:28-32 | the ±1 stream sum over the votes equals up-votes minus down-votes, for every iteration order |
| Reviews.NoVotesNoUsefulness | src/main/java/ru/yandex/practicum/filmorate/model/Review.java:28-32 | with no votes the score is 0 |
| Reviews.GetUseful | src/main/java/ru/yandex/practicum/filmorate/model/Review.java:28-32 | the score lies between minus and plus the number of voters |
| Reviews.VotersPartition | src/main/java/ru/yandex/practicum/filmorate/model/Review.java:29-31 | every voter counts on exactly one side, so the two sides together are the voters |
| Reviews.UsefulExtremes | src/main/java/ru/yandex/practicum/filmorate/model/Review.java:28-32 | the score equals the number of voters exactly when all votes are useful, and its negation exactly when none is |
| Reviews.StoredUsefulIgnored | src/main/java/ru/yandex/practicum/filmorate/model/Review.java:26-28 | the stored `useful` field never affects the score |
| Reviews.FirstVoteMovesUsefulByOne | src/main/java/ru/yandex/practicum/filmorate/model/Review.java:25-30 | a user's first vote moves the score by +1 (useful) or -1 (not useful) |
| Reviews.UsefulWithout | src/main/java/ru/yandex/practicum/filmorate/model/Review.java:28-32 | withdrawing one user's vote moves the score back by exactly that vote |
| Reviews.FlippedVoteLowersUsefulByTwo | src/main/java/ru/yandex/practicum/filmorate/model/Review.java:25-30 | changing one user's vote from useful to not useful lowers the score by 2 |
| Validator.ValidateUser | src/main/java/ru/yandex/practicum/filmorate/validator/Validator.java:28-32 | fails with `UnknownUser` exactly when the user is not stored |
| Validator.ValidateUserNotExist | src/main/java/ru/yandex/practicum/filmorate/validator/Validator.java:34-38 | fails with `AlreadyExists` exactly when the user has an id and it is stored; a null id passes |
| Validator.ValidateFilm | src/main/java/ru/yandex/practicum/filmorate/validator/Validator.java:40-44 | fails with `UnknownFilm` exactly when the film is not stored |
| Validator.ValidateFilmDate | src/main/java/ru/yandex/practicum/filmorate/validator/Validator.java:46-50 | fails with `InvalidValue` exactly when the release date is before 1895-12-28 |
| Validator.ValidateFilmNotExist | src/main/java/ru/yandex/practicum/filmorate/validator/Validator.java:52-56 | fails with `AlreadyExists` exactly when the film has an id and it is stored |
| Validator.UserChecksComplementary | src/main/java/ru/yandex/practicum/filmorate/validator/Validator.java:28-38 | for a user with an id, exactly one of "exists" and "does not exist" throws |
| Validator.FilmChecksComplementary | src/main/java/ru/yandex/practicum/filmorate/validator/Validator.java:40-56 | for a film with an id, exactly one of "exists" and "does not exist" throws |
| Validator.FilmDateBoundary | src/main/java/ru/yandex/practicum/filmorate/validator/Validator.java:46-50 | 1895-12-28 passes and 1895-12-27 fails |
| CinemaBirthday.IsValid | src/main/java/ru/yandex/practicum/filmorate/validator/annotation/CinemaBirthdayConstraintValidator.java:16-18 | an accepted date is neither before 1895 nor 27 December 1895 itself |
| CinemaBirthday.AgreesWithValidateFilmDate | src/main/java/ru/yandex/practicum/filmorate/validator/annotation/CinemaBirthdayConstraintValidator.java:13-17 | "after 1895-12-27" accepts exactly the dates `validateFilmDate` accepts |
| CinemaBirthday.Boundary | src/main/java/ru/yandex/practicum/filmorate/validator/annotation/CinemaBirthdayConstraintValidator.java:13-17 | 1895-12-28 is accepted and 1895-12-27 is rejected |
| CinemaBirthday.Monotone | src/main/java/ru/yandex/practicum/filmorate/validator/annotation/CinemaBirthdayConstraintValidator.java:17 | every date later than an accepted date is accepted |
| CinemaBirthday.NoUpperBound | src/main/java/ru/yandex/practicum/filmorate/validator/annotation/CinemaBirthdayConstraintValidator.java:17 | every date in a year after 1895 is accepted |
| Grouping.KeyOrder | src/main/java/ru/yandex/practicum/filmorate/storage/genre/DbGenreStorage.java:46-49 | the linked map's key order holds each key once, and exactly the keys of the rows |
| Grouping.GroupedSnoc | src/main/java/ru/yandex/practicum/filmorate/storage/genre/DbGenreStorage.java:49-54 | one more row appends its value to its key's list (made if absent) and changes no other list |
| Grouping.ValuesOfPresent | src/main/java/ru/yandex/practicum/filmorate/storage/genre/DbGenreStorage.java:49 | a key's list is non-empty exactly when a row has that key; no key maps to an empty list |
| Grouping.ValuesOfMembership | src/main/java/ru/yandex/practicum/filmorate/storage/genre/DbGenreStorage.java:54 | a value is in a key's list exactly when a row pairs them |
| Grouping.ValuesOfConcat | src/main/java/ru/yandex/practicum/filmorate/storage/genre/DbGenreStorage.java:54 | values from earlier rows come first in each list |
| Grouping.GroupedConservesRows | src/main/java/ru/yandex/practicum/filmorate/storage/genre/DbGenreStorage.java:47-55 | the list lengths add up to the number of rows |
| Grouping.SortedRowsGiveAscendingKeys | src/main/java/ru/yandex/practicum/filmorate/storage/genre/DbGenreStorage.java:41-46 | rows sorted by key give strictly ascending key order |
| GenreStorage.ExtractGenresByFilmId | src/main/java/ru/yandex/practicum/filmorate/storage/genre/DbGenreStorage.java:45-57 | the loop builds exactly the grouped map of the rows, in first-appearance key order |
| GenreStorage.GenreKeysAreFilmIds | src/main/java/ru/yandex/practicum/filmorate/storage/genre/DbGenreStorage.java:48-49 | the keys are exactly the film ids of the rows, each with a non-empty list |
| GenreStorage.GenreListedIffRow | src/main/java/ru/yandex/practicum/filmorate/storage/genre/DbGenreStorage.java:50-54 | a genre is listed under a film exactly when a row pairs them |
| GenreStorage.GenreRowsConserved | src/main/java/ru/yandex/practicum/filmorate/storage/genre/DbGenreStorage.java:47-55 | each row appends exactly one genre |
| GenreStorage.GenreKeysAscending | src/main/java/ru/yandex/practicum/filmorate/storage/genre/DbGenreStorage.java:41 | rows ordered by film id give ascending keys |
| GenreStorage.GenreListsKeepRowOrder | src/main/java/ru/yandex/practicum/filmorate/storage/genre/DbGenreStorage.java:54 | genres keep row order within a film's list |
| DirectorStorage.ExtractDirectorsByFilmId | src/main/java/ru/yandex/practicum/filmorate/storage/director/DbDirectorStorage.java:69-80 | the loop builds exactly the grouped map of the rows, in first-appearance key order |
| DirectorStorage.DirectorKeysAreFilmIds | src/main/java/ru/yandex/practicum/filmorate/storage/director/DbDirectorStorage.java:72-73 | the keys are exactly the film ids of the rows, each with a non-empty list |
| DirectorStorage.DirectorListedIffRow | src/main/java/ru/yandex/practicum/filmorate/storage/director/DbDirectorStorage.java:74-77 | a director is listed under a film exactly when a row pairs them |
| DirectorStorage.DirectorRowsConserved | src/main/java/ru/yandex/practicum/filmorate/storage/director/DbDirectorStorage.java:71-78 | each row appends exactly one director |
| DirectorStorage.DirectorKeysAscending | src/main/java/ru/yandex/practicum/filmorate/storage/director/DbDirectorStorage.java:59 | rows ordered by film id give ascending keys |
| DirectorStorage.DirectorListsKeepRowOrder | src/main/java/ru/yandex/practicum/filmorate/storage/director/DbDirectorStorage.java:77 | directors keep row order within a film's list |
| Recommender.OverlapMeaning | src/main/java/ru/yandex/practicum/filmorate/storage/user/DbUserStorage.java:153-160 | a user's count is positive exactly when they share a film with the target, and it never exceeds the target's likes |
| Recommender.NoNeighbourMeansNoSharedFilm | src/main/java/ru/yandex/practicum/filmorate/storage/user/DbUserStorage.java:153-172 | there is no neighbour exactly when no other user liked any of the target's films |
| Recommender.RecommendedMeaning | src/main/java/ru/yandex/practicum/filmorate/storage/user/DbUserStorage.java:109-114 | a film is recommended exactly when the neighbour liked it and the target did not |
| Recommender.GetDataMap | src/main/java/ru/yandex/practicum/filmorate/storage/user/DbUserStorage.java:137-149 | the loop builds exactly the rows grouped by user, each list in row order |
| Recommender.Frequency | src/main/java/ru/yandex/practicum/filmorate/storage/user/DbUserStorage.java:151-165 | the counted users are exactly the other users with a shared film; each count is the number of the target's films they liked |
| Recommender.SelectMax | src/main/java/ru/yandex/practicum/filmorate/storage/user/DbUserStorage.java:167-171 | none for an empty map; otherwise a key whose count no other count exceeds |
| Recommender.MostIntersectionsUserId | src/main/java/ru/yandex/practicum/filmorate/storage/user/DbUserStorage.java:151-173 | fails for a target without likes; null when nobody shares a film; otherwise a neighbour with a maximal count |
| Recommender.GetRecommendations | src/main/java/ru/yandex/practicum/filmorate/storage/user/DbUserStorage.java:95-117 | the two failures as above; otherwise the films of a maximal neighbour the target did not like, in the neighbour's order |
| Recommender.RecommendationsComeFromTheNeighbour | src/main/java/ru/yandex/practicum/filmorate/storage/user/DbUserStorage.java:109-114 | a recommended film is one with a like row from the neighbour and none from the target |
| Recommender.ExampleGrouping | src/test/java/ru/yandex/practicum/filmorate/controller/UserControllerTest.java:394-400 | the example's likes group to user 1 → [1, 2], user 2 → [1, 2, 3] |
| Recommender.TwoUsersExample | src/test/java/ru/yandex/practicum/filmorate/controller/UserControllerTest.java:394-407 | in the example the only possible result is [3] |
| FilmService.ChoosePopularQuery | src/main/java/ru/yandex/practicum/filmorate/service/FilmService.java:64-76 | the chosen query's filters are exactly the non-null arguments, and it keeps the count |
| FilmService.PopularQueryRoundTrip | src/main/java/ru/yandex/practicum/filmorate/service/FilmService.java:64-76 | each query is chosen by exactly its own count and filters |
| FilmService.ChooseSearchQuery | src/main/java/ru/yandex/practicum/filmorate/service/FilmService.java:119-132 | each of the four modes selects its query on the text; any other mode gives the empty result |
| FilmService.SearchModesRoundTrip | src/main/java/ru/yandex/practicum/filmorate/service/FilmService.java:126-128 | a mode selects a query exactly when it is one of that query's modes; "title,director" and "director,title" run the same query |
| FilmService.WithGenres | src/main/java/ru/yandex/practicum/filmorate/service/FilmService.java:147-149 | only the genres change: they gain the map's genres for the film's id; a film not in the map is untouched |
| FilmService.WithDirectors | src/main/java/ru/yandex/practicum/filmorate/service/FilmService.java:161-163 | only the directors change: they become the old ones plus those listed under the film's id |
| FilmService.WithGenresIdempotent | src/main/java/ru/yandex/practicum/filmorate/service/FilmService.java:148 | merging the genre map twice equals merging it once |
| FilmService.WithDirectorsIdempotent | src/main/java/ru/yandex/practicum/filmorate/service/FilmService.java:162 | merging the director map twice equals merging it once |
| FilmService.MergesCommute | src/main/java/ru/yandex/practicum/filmorate/service/FilmService.java:157-164 | the genre merge and the director merge commute |
| FilmService.AddFilmsGenres | src/main/java/ru/yandex/practicum/filmorate/service/FilmService.java:144-152 | each film in the list, in place, becomes its genre-merged self; directors, length and order are unchanged |
| FilmService.PopulateFilmsWithGenresAndDirectors | src/main/java/ru/yandex/practicum/filmorate/service/FilmService.java:154-166 | each film in the list, in place, becomes its genre- and director-merged self |
| FilmService.PopulatedFilmKeepsItself | src/main/java/ru/yandex/practicum/filmorate/service/FilmService.java:154-166 | a merged film keeps its id and other fields and everything it held |
| FilmService.FilmService.constructor | src/main/java/ru/yandex/practicum/filmorate/service/FilmService.java:27-33 | a service starts with no likes and an empty feed |
| FilmService.FilmService.AddLikeFilm | src/main/java/ru/yandex/practicum/filmorate/service/FilmService.java:35-46 | film checked, then user, then duplicate like; success stores exactly that like and one LIKE/ADD event; a failure changes nothing |
| FilmService.FilmService.RemoveLikeFilm | src/main/java/ru/yandex/practicum/filmorate/service/FilmService.java:48-59 | film, then user; a storage failure reports `UnknownUser` with no change and no event; success removes the like and saves one LIKE/REMOVE event |
| FilmService.FilmService.GetCommonFilms | src/main/java/ru/yandex/practicum/filmorate/service/FilmService.java:136-142 | both users are checked before the storage's films are touched; on success those films are merged in place |
| FilmService.LikeThenUnlike | src/main/java/ru/yandex/practicum/filmorate/service/FilmService.java:35-59 | a like followed by an unlike restores the likes and leaves two events |
| UserService.UserService.constructor | src/main/java/ru/yandex/practicum/filmorate/service/UserService.java:21-26 | a service starts with no friendships and an empty feed |
| UserService.UserService.AddFriend | src/main/java/ru/yandex/practicum/filmorate/service/UserService.java:27-38 | both users must exist; an existing friendship is refused; success adds only (id, friendId) and one FRIEND/ADD event; the reverse direction is unchanged |
| UserService.UserService.DeleteFriend | src/main/java/ru/yandex/practicum/filmorate/service/UserService.java:40-51 | both users must exist; an absent friendship is refused; success removes only that pair and saves one FRIEND/REMOVE event |
| UserService.UserService.GetFriends | src/main/java/ru/yandex/practicum/filmorate/service/UserService.java:53-58 | for a stored user, a list holding each friend exactly once |
| UserService.AddThenDelete | src/main/java/ru/yandex/practicum/filmorate/service/UserService.java:27-51 | adding then deleting a friend restores the relation and leaves two events |
| InMemoryFilmStorage.InMemoryFilmStorage.constructor | src/main/java/ru/yandex/practicum/filmorate/storage/film/InMemoryFilmStorage.java:20-21 | a storage starts empty with the counter at 0 |
| InMemoryFilmStorage.InMemoryFilmStorage.AddFilm | src/main/java/ru/yandex/practicum/filmorate/storage/film/InMemoryFilmStorage.java:25-34 | a stored id is refused, then an early date; failures leave the map and counter unchanged; success stores the film under counter+1, larger than every key, adding exactly one entry |
| InMemoryFilmStorage.InMemoryFilmStorage.UpdateFilm | src/main/java/ru/yandex/practicum/filmorate/storage/film/InMemoryFilmStorage.java:37-45 | a missing or unknown id is refused, then an early date; success replaces only that entry and keeps the keys |
| InMemoryFilmStorage.InMemoryFilmStorage.GetFilms | src/main/java/ru/yandex/practicum/filmorate/storage/film/InMemoryFilmStorage.java:48-51 | a list of every stored film, each once, as long as the map |
| InMemoryFilmStorage.InMemoryFilmStorage.GetFilmById | src/main/java/ru/yandex/practicum/filmorate/storage/film/InMemoryFilmStorage.java:54-60 | the film stored under the id, carrying that id; `UnknownFilm` when absent |
| InMemoryFilmStorage.AddTwoFilms | src/main/java/ru/yandex/practicum/filmorate/storage/film/InMemoryFilmStorage.java:62-64 | a fresh storage gives the ids 1 and 2 in turn |
| InMemoryUserStorage.InMemoryUserStorage.constructor | src/main/java/ru/yandex/practicum/filmorate/storage/user/InMemoryUserStorage.java:18-19 | a storage starts empty with the counter at 0 |
| InMemoryUserStorage.InMemoryUserStorage.CreateUser | src/main/java/ru/yandex/practicum/filmorate/storage/user/InMemoryUserStorage.java:21-30 | a stored id is refused with nothing changed; success names the user, stores it under counter+1 and adds exactly one entry |
| InMemoryUserStorage.InMemoryUserStorage.UpdateUser | src/main/java/ru/yandex/practicum/filmorate/storage/user/InMemoryUserStorage.java:32-40 | an unknown id is refused; success names the user and replaces only that entry |
| InMemoryUserStorage.InMemoryUserStorage.GetUsers | src/main/java/ru/yandex/practicum/filmorate/storage/user/InMemoryUserStorage.java:42-45 | a list of every stored user, each once, as long as the map |
| InMemoryUserStorage.InMemoryUserStorage.GetUserById | src/main/java/ru/yandex/practicum/filmorate/storage/user/InMemoryUserStorage.java:48-54 | the user stored under the id; `UnknownUser` when absent |
| InMemoryUserStorage.CreateNamelessUser | src/main/java/ru/yandex/practicum/filmorate/storage/user/InMemoryUserStorage.java:60-65 | a nameless user is stored under id 1, named after the login |
| UserController.UserController.constructor | src/main/java/ru/yandex/practicum/filmorate/controller/UserController.java:20-21 | a controller starts empty with the counter at 0 |
| UserController.UserController.CreateUser | src/main/java/ru/yandex/practicum/filmorate/controller/UserController.java:23-34 | a stored id is refused with nothing changed; success names the user, stores it under ++id and adds exactly one entry |
| UserController.UserController.UpdateUser | src/main/java/ru/yandex/practicum/filmorate/controller/UserController.java:36-46 | a stored id gets its user named and replaced, and only that entry; an unknown id is refused |
| UserController.UserController.GetUsers | src/main/java/ru/yandex/practicum/filmorate/controller/UserController.java:48-52 | a list of every stored user, each once, as long as the map |
| UserController.CreateTwice | src/main/java/ru/yandex/practicum/filmorate/controller/UserController.java:54-56 | ids run 1, 2; creating the first user again is refused |

## Left out

- SQL: the queries behind the storages are not modelled. This covers popularity, common films, search, likes, friends, feed and reviews. Their result sets are inputs, and their ranking and matching are not modelled.
- Logging, `System.out.println`, and the clock time stamp and generated id of feed events.
- Recommender.GetRecommendations: returns the recommended film ids. The final `filmStorage.getFilmById` per id is a storage call and is not modelled.
- Recommender.SelectMax: any key with a maximal count may be chosen. Java keeps the first maximum in `HashMap` iteration order, and that order is not modelled.
- FilmService.ChoosePopularQuery: `validateGenreAndYear` is called but is missing from `Validator.java`, so it is not part of this model.
- FilmService.ChooseSearchQuery: models the switch only. The chosen query's films then go through `PopulateFilmsWithGenresAndDirectors`. `validateSearchParameter` is missing from `Validator.java` and is not part of this model.
- FilmService.FilmService.RemoveLikeFilm: the storage's `DataAccessException` is the input `storageFails`. What makes the database fail is not modelled.
- `FilmService.addFilm`, `updateFilm`, `getFilms`, `getFilmById`, `removeFilmById` and `getFilmsByDirector`: these only validate and delegate to storage. They are not modelled.
- UserService.UserService.GetFriends: returns friend ids. The `User` records loaded from the database are not modelled.
- `UserStorage.checkUserExists` is called by `UserService` but has no implementation in the files. It is modelled like `Validator.validateUser`.
- `User.friends` holds `User` objects compared by their `equals`. The model identifies friends by id.
- Aliasing:
  - The Java storages store, and mutate, the caller's object (`setId`, `setName`). The model returns the stored value and does not model the caller's reference.
  - `addFilmsGenres` and `populateFilmsWithGenresAndDirectors` mutate shared `Film` objects. The model replaces the array's elements, so sharing between list entries is not captured. Merging is idempotent (`WithGenresIdempotent`, `WithDirectorsIdempotent`), so a film listed twice ends the same either way.
- InMemoryFilmStorage.InMemoryFilmStorage.AddFilm: the `long` counter is an unbounded integer, so wrap-around after 2^63 - 1 ids is not modelled.
- InMemoryUserStorage.InMemoryUserStorage.CreateUser: the `long` counter is an unbounded integer, so wrap-around is not modelled.
- UserController.UserController.CreateUser: the `Integer` counter is an unbounded integer, so wrap-around after 2^31 - 1 ids is not modelled.
- UserController: in the `User` class shown, the id is a `Long`, while the controller's map is keyed by `Integer`. The controller was written against an earlier `User`, so the model gives it integer keys.
- `@Email` on `User.email`: its format rules belong to the validation library and are not modelled. `@NonNull` fields are non-null by construction.
- `CinemaBirthday.IsValid`: a null date, which would throw, is not modelled.
- Dates are (year, month, day) triples compared as `LocalDate` compares them. Whether a triple is a real calendar day is not checked.
- `Review.getUseful` returns a `long`. The model uses unbounded integers, since the sum cannot exceed the number of voters.
- Text.Utf16Length: strings are sequences of Unicode scalar values, so a Java string holding an unpaired surrogate cannot be represented. Every other string has the same `length()` as in Java.
