/** `InMemoryFilmStorage`: films kept in a map under ids drawn from a counter. */
module InMemoryFilmStorage {
  import opened Wrappers
  import opened Dates
  import opened Exceptions
  import opened Films
  import opened Validator
  import opened Collections

  class InMemoryFilmStorage {
    var films: map<int, Film>
    var id: int

    /** Every key was drawn from the counter, so it lies in 1..id, and the film stored under a
        key carries that key as its id. */
    ghost predicate Valid()
      reads this
    {
      && id >= 0
      && forall k :: k in films ==> 1 <= k <= id && films[k].id == Some(k)
    }

    /** An empty storage whose counter starts at 0. */
    constructor ()
      ensures films == map[] && id == 0
      ensures Valid()
    {
      films := map[];
      id := 0;
    }

    /** `addFilm`: a film whose id is already a key is refused; then the release date is checked
      (its floor is the same 28 December 1895 as `Validator`'s); only then is the counter
      advanced and the film stored under the new id, which it now carries. */
    method AddFilm(film: Film) returns (r: Result<Film, Error>)
      requires Valid()
      modifies this
      ensures Valid()
      ensures r == Failure(AlreadyExists) <==> film.id.Some? && film.id.value in old(films)
      ensures r == Failure(InvalidValue) <==>
        !(film.id.Some? && film.id.value in old(films)) && Before(film.releaseDate, MovieBirthday)
      ensures r.Failure? ==> r.error in {AlreadyExists, InvalidValue}
      ensures r.Failure? ==> films == old(films) && id == old(id)
      ensures r.Success? ==> id == old(id) + 1 && r.value == film.(id := Some(id))
      ensures r.Success? ==> id !in old(films) && films == old(films)[id := r.value]
      ensures r.Success? ==> |films| == |old(films)| + 1
      ensures r.Success? ==> forall k :: k in old(films) ==> k < id
    {
      if film.id.Some? && film.id.value in films {
        return Failure(AlreadyExists);
      }
      var check := ValidateFilmDate(film);
      if check.Fail? {
        return Failure(check.error);
      }
      id := id + 1;
      var stored := film.(id := Some(id));
      films := films[id := stored];
      return Success(stored);
    }

    /** `updateFilm`: a film without an id or with an unknown id is refused, then the release
      date is checked; otherwise the film replaces the one under its id and nothing else
      changes. */
    method UpdateFilm(film: Film) returns (r: Result<Film, Error>)
      requires Valid()
      modifies this
      ensures Valid()
      ensures id == old(id)
      ensures r == Failure(UnknownFilm) <==> !(film.id.Some? && film.id.value in old(films))
      ensures r == Failure(InvalidValue) <==>
        film.id.Some? && film.id.value in old(films) && Before(film.releaseDate, MovieBirthday)
      ensures r.Failure? ==> r.error in {UnknownFilm, InvalidValue}
      ensures r.Failure? ==> films == old(films)
      ensures r.Success? ==> r.value == film && films == old(films)[film.id.value := film]
      ensures r.Success? ==> films.Keys == old(films.Keys)
    {
      if !(film.id.Some? && film.id.value in films) {
        return Failure(UnknownFilm);
      }
      var check := ValidateFilmDate(film);
      if check.Fail? {
        return Failure(check.error);
      }
      films := films[film.id.value := film];
      return Success(film);
    }

    /** `getFilms`: a fresh list of every stored film, one entry per key. */
    method GetFilms() returns (list: seq<Film>)
      requires Valid()
      ensures |list| == |films.Keys|
      ensures forall k :: k in films ==> films[k] in list
      ensures forall f :: f in list ==> f in films.Values
      ensures forall i, j :: 0 <= i < j < |list| ==> list[i] != list[j]
    {
      list := [];
      var remaining := films.Keys;
      while remaining != {}
        invariant remaining <= films.Keys
        invariant |list| + |remaining| == |films.Keys|
        invariant forall k :: k in films && k !in remaining ==> films[k] in list
        invariant forall i :: 0 <= i < |list| ==>
          list[i].id.Some? && list[i].id.value in films && list[i].id.value !in remaining && films[list[i].id.value] == list[i]
        invariant forall i, j :: 0 <= i < j < |list| ==> list[i] != list[j]
        decreases remaining
      {
        ghost var pick := Inhabitant(remaining);
        var k :| k in remaining;
        list := list + [films[k]];
        remaining := remaining - {k};
      }
    }

    /** `getFilmById`: the film stored under the id, or `UnknownFilm` when there is none. */
    function GetFilmById(filmId: int): (r: Result<Film, Error>)
      requires Valid()
      reads this
      ensures r.Success? <==> filmId in films
      ensures r.Success? ==> r.value in films.Values && r.value.id == Some(filmId)
      ensures r.Failure? ==> r.error == UnknownFilm
    {
      if filmId in films then Success(films[filmId]) else Failure(UnknownFilm)
    }
  }

  /** In a fresh storage two films added one after the other get the ids 1 and 2, and the
      second is then found under its id. */
  method AddTwoFilms(a: Film, b: Film) returns (first: Result<Film, Error>, second: Result<Film, Error>, found: Result<Film, Error>)
    requires a.id.None? && b.id.None?
    requires !Before(a.releaseDate, MovieBirthday) && !Before(b.releaseDate, MovieBirthday)
    ensures first == Success(a.(id := Some(1)))
    ensures second == Success(b.(id := Some(2)))
    ensures found == second
  {
    var storage := new InMemoryFilmStorage();
    first := storage.AddFilm(a);
    second := storage.AddFilm(b);
    found := storage.GetFilmById(2);
  }
}
