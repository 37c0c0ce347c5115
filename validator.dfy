/** The static checks the services run before touching storage (`Validator`). The storage
    lookups are passed in as maps: a lookup yields null exactly when the id is not a key. */
module Validator {
  import opened Wrappers
  import opened Dates
  import opened Exceptions
  import opened Films
  import opened Users

  /** 28 December 1895, the first public film screening. */
  const MovieBirthday := Date(1895, 12, 28)

  /** `validateUser`: fails with `UnknownUser` exactly when the lookup yields null. */
  function ValidateUser(users: map<int, User>, id: int): (r: Outcome<Error>)
    ensures r.Fail? <==> id !in users
    ensures r.Fail? ==> r.error == UnknownUser
  {
    if id !in users then Fail(UnknownUser) else Pass
  }

  /** `validateUserNotExist`: fails with `AlreadyExists` exactly when the user carries an id and
      that id is found; a user without an id always passes. */
  function ValidateUserNotExist(users: map<int, User>, user: User): (r: Outcome<Error>)
    ensures r.Fail? <==> user.id.Some? && user.id.value in users
    ensures r.Fail? ==> r.error == AlreadyExists
  {
    if user.id.Some? && user.id.value in users then Fail(AlreadyExists) else Pass
  }

  /** `validateFilm`: fails with `UnknownFilm` exactly when the lookup yields null. */
  function ValidateFilm(films: map<int, Film>, id: int): (r: Outcome<Error>)
    ensures r.Fail? <==> id !in films
    ensures r.Fail? ==> r.error == UnknownFilm
  {
    if id !in films then Fail(UnknownFilm) else Pass
  }

  /** `validateFilmDate`: fails with `InvalidValue` exactly when the release date is strictly
      before 28 December 1895; that day itself passes. */
  function ValidateFilmDate(film: Film): (r: Outcome<Error>)
    ensures r.Fail? <==> Before(film.releaseDate, MovieBirthday)
    ensures r.Fail? ==> r.error == InvalidValue
  {
    if Before(film.releaseDate, MovieBirthday) then Fail(InvalidValue) else Pass
  }

  /** `validateFilmNotExist`: fails with `AlreadyExists` exactly when the film carries an id and
      that id is found. */
  function ValidateFilmNotExist(films: map<int, Film>, film: Film): (r: Outcome<Error>)
    ensures r.Fail? <==> film.id.Some? && film.id.value in films
    ensures r.Fail? ==> r.error == AlreadyExists
  {
    if film.id.Some? && film.id.value in films then Fail(AlreadyExists) else Pass
  }

  /** For a user that carries an id, "exists" and "does not exist yet" are complementary checks:
      exactly one of them throws. */
  lemma UserChecksComplementary(users: map<int, User>, user: User)
    requires user.id.Some?
    ensures ValidateUser(users, user.id.value).Fail? <==> ValidateUserNotExist(users, user).Pass?
  {
  }

  /** The same holds for films. */
  lemma FilmChecksComplementary(films: map<int, Film>, film: Film)
    requires film.id.Some?
    ensures ValidateFilm(films, film.id.value).Fail? <==> ValidateFilmNotExist(films, film).Pass?
  {
  }

  /** The release-date boundary: 1895-12-28 passes, 1895-12-27 fails. */
  lemma FilmDateBoundary(f: Film)
    ensures f.releaseDate == Date(1895, 12, 28) ==> ValidateFilmDate(f).Pass?
    ensures f.releaseDate == Date(1895, 12, 27) ==> ValidateFilmDate(f).Fail?
  {
  }
}
