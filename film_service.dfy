/** The decisions `FilmService` takes around its storage calls: which popularity or search query
    runs, how the genre and director maps are merged into the films a query returned, and the
    guards and feed events of liking and unliking a film. The queries themselves run in SQL and
    are not part of this model; their results are given. */
module FilmService {
  import opened Wrappers
  import opened Exceptions
  import opened Events
  import opened Films
  import opened Users
  import opened Validator

  /** The four popularity queries of the film storage, with their arguments. */
  datatype PopularQuery =
    | ByGenreAndYear(count: int, genreId: int, year: int)
    | ByGenre(count: int, genreId: int)
    | ByYear(count: int, year: int)
    | Unfiltered(count: int)

  /** The genre filter a query applies, if any. */
  function GenreFilter(q: PopularQuery): Option<int> {
    match q
    case ByGenreAndYear(_, g, _) => Some(g)
    case ByGenre(_, g) => Some(g)
    case _ => None
  }

  /** The year filter a query applies, if any. */
  function YearFilter(q: PopularQuery): Option<int> {
    match q
    case ByGenreAndYear(_, _, y) => Some(y)
    case ByYear(_, y) => Some(y)
    case _ => None
  }

  /** `getListPopularFilm`'s dispatch: the one query whose filters are exactly the non-null
      arguments. */
  function ChoosePopularQuery(count: int, genreId: Option<int>, year: Option<int>): (q: PopularQuery)
    ensures q.count == count
    ensures GenreFilter(q) == genreId && YearFilter(q) == year
  {
    if genreId.Some? && year.Some? then ByGenreAndYear(count, genreId.value, year.value)
    else if genreId.Some? then ByGenre(count, genreId.value)
    else if year.Some? then ByYear(count, year.value)
    else Unfiltered(count)
  }

  /** Every query is chosen by its own count and filters and by nothing else. */
  lemma PopularQueryRoundTrip(q: PopularQuery, count: int, genreId: Option<int>, year: Option<int>)
    ensures ChoosePopularQuery(q.count, GenreFilter(q), YearFilter(q)) == q
    ensures ChoosePopularQuery(count, genreId, year) == q <==>
      count == q.count && genreId == GenreFilter(q) && year == YearFilter(q)
  {
  }

  /** The search queries of the film storage; `NoSearch` stands for the empty list the switch's
      default branch makes. */
  datatype SearchQuery =
    | ByTitle(text: string)
    | ByDirector(text: string)
    | ByTitleAndDirector(text: string)
    | NoSearch

  /** The `searchBy` values that select each kind of query. */
  function ModesOf(s: SearchQuery): set<string> {
    match s
    case ByTitle(_) => {"title"}
    case ByDirector(_) => {"director"}
    case ByTitleAndDirector(_) => {"title,director", "director,title"}
    case NoSearch => {}
  }

  /** `searchFilmsByTitleOrDirector`'s switch. */
  function ChooseSearchQuery(query: string, searchBy: string): (s: SearchQuery)
    ensures s == NoSearch <==> searchBy !in {"title", "director", "title,director", "director,title"}
    ensures s != NoSearch ==> s.text == query && searchBy in ModesOf(s)
  {
    match searchBy
    case "title" => ByTitle(query)
    case "director" => ByDirector(query)
    case "title,director" => ByTitleAndDirector(query)
    case "director,title" => ByTitleAndDirector(query)
    case _ => NoSearch
  }

  /** A mode selects a query exactly when it is one of that query's modes, and both spellings
      of the combined mode run the same query. */
  lemma SearchModesRoundTrip(s: SearchQuery, query: string, searchBy: string)
    requires s != NoSearch
    ensures ChooseSearchQuery(query, searchBy) == s <==> searchBy in ModesOf(s) && query == s.text
    ensures ChooseSearchQuery(query, "title,director") == ChooseSearchQuery(query, "director,title")
  {
  }

  /** The genres a film gains from the genre map: those listed under its id, when it has one
      and the map holds it; the rest of the film is untouched. */
  function WithGenres(f: Film, genresByFilmsId: map<int, seq<Genre>>): (r: Film)
    ensures r == f.(genres := r.genres)
    ensures f.id.Some? && f.id.value in genresByFilmsId ==>
      GenreIds(r.genres) == GenreIds(f.genres) + GenreIds(genresByFilmsId[f.id.value])
    ensures forall g :: g in f.genres ==> g in r.genres
    ensures !(f.id.Some? && f.id.value in genresByFilmsId) ==> r == f
  {
    if f.id.Some? && f.id.value in genresByFilmsId then
      f.(genres := AddAllGenres(f.genres, genresByFilmsId[f.id.value]))
    else f
  }

  /** The directors a film gains from the director map, in the same way. */
  function WithDirectors(f: Film, directorsByFilmsId: map<int, seq<Director>>): (r: Film)
    ensures r == f.(directors := r.directors)
    ensures f.directors <= r.directors
    ensures forall d :: d in r.directors <==>
      d in f.directors || (f.id.Some? && f.id.value in directorsByFilmsId && d in directorsByFilmsId[f.id.value])
  {
    if f.id.Some? && f.id.value in directorsByFilmsId then
      var listed := directorsByFilmsId[f.id.value];
      f.(directors := f.directors + set i | 0 <= i < |listed| :: listed[i])
    else f
  }

  /** Merging the genre map twice is merging it once: `addAll` keeps the genre already present
      under an id. */
  lemma WithGenresIdempotent(f: Film, genresByFilmsId: map<int, seq<Genre>>)
    ensures WithGenres(WithGenres(f, genresByFilmsId), genresByFilmsId) == WithGenres(f, genresByFilmsId)
  {
    var once := WithGenres(f, genresByFilmsId);
    if f.id.Some? && f.id.value in genresByFilmsId {
      AddAllGenresKnown(once.genres, genresByFilmsId[f.id.value]);
    }
  }

  /** Merging the director map twice is merging it once. */
  lemma WithDirectorsIdempotent(f: Film, directorsByFilmsId: map<int, seq<Director>>)
    ensures WithDirectors(WithDirectors(f, directorsByFilmsId), directorsByFilmsId) == WithDirectors(f, directorsByFilmsId)
  {
  }

  /** The genre merge and the director merge touch different fields, so their order does not
      matter. */
  lemma MergesCommute(f: Film, genresByFilmsId: map<int, seq<Genre>>, directorsByFilmsId: map<int, seq<Director>>)
    ensures WithDirectors(WithGenres(f, genresByFilmsId), directorsByFilmsId) ==
      WithGenres(WithDirectors(f, directorsByFilmsId), genresByFilmsId)
  {
  }

  /** `addFilmsGenres`: every film of the list gains its genres in place; directors stay as they
      are, as do the list's length and order. */
  method AddFilmsGenres(films: array<Film>, genresByFilmsId: map<int, seq<Genre>>)
    modifies films
    ensures forall i :: 0 <= i < films.Length ==> films[i] == WithGenres(old(films[i]), genresByFilmsId)
    ensures forall i :: 0 <= i < films.Length ==> films[i].directors == old(films[i].directors)
  {
    var i := 0;
    while i < films.Length
      invariant 0 <= i <= films.Length
      invariant forall k :: 0 <= k < i ==> films[k] == WithGenres(old(films[k]), genresByFilmsId)
      invariant forall k :: i <= k < films.Length ==> films[k] == old(films[k])
    {
      var film := films[i];
      if film.id.Some? && film.id.value in genresByFilmsId {
        films[i] := film.(genres := AddAllGenres(film.genres, genresByFilmsId[film.id.value]));
      }
      i := i + 1;
    }
  }

  /** `populateFilmsWithGenresAndDirectors`: every film of the list gains its genres and its
      directors in place. */
  method PopulateFilmsWithGenresAndDirectors(films: array<Film>,
    genresByFilmsId: map<int, seq<Genre>>, directorsByFilmsId: map<int, seq<Director>>)
    modifies films
    ensures forall i :: 0 <= i < films.Length ==>
      films[i] == WithDirectors(WithGenres(old(films[i]), genresByFilmsId), directorsByFilmsId)
  {
    var i := 0;
    while i < films.Length
      invariant 0 <= i <= films.Length
      invariant forall k :: 0 <= k < i ==>
        films[k] == WithDirectors(WithGenres(old(films[k]), genresByFilmsId), directorsByFilmsId)
      invariant forall k :: i <= k < films.Length ==> films[k] == old(films[k])
    {
      var film := films[i];
      if film.id.Some? && film.id.value in genresByFilmsId {
        film := film.(genres := AddAllGenres(film.genres, genresByFilmsId[film.id.value]));
      }
      if film.id.Some? && film.id.value in directorsByFilmsId {
        var listed := directorsByFilmsId[film.id.value];
        film := film.(directors := film.directors + set k | 0 <= k < |listed| :: listed[k]);
      }
      films[i] := film;
      i := i + 1;
    }
  }

  /** A film merged with both maps keeps its id and every field other than its genres and
      directors, and holds everything it held before. */
  lemma PopulatedFilmKeepsItself(f: Film, genresByFilmsId: map<int, seq<Genre>>, directorsByFilmsId: map<int, seq<Director>>)
    ensures var r := WithDirectors(WithGenres(f, genresByFilmsId), directorsByFilmsId);
      && r == f.(genres := r.genres, directors := r.directors)
      && (forall g :: g in f.genres ==> g in r.genres)
      && f.directors <= r.directors
      && SameFilm(f, r) == (r.directors == f.directors)
  {
  }

  /** A like: the user `userId` likes the film `filmId`. */
  datatype FilmLike = FilmLike(filmId: int, userId: int)

  /** The service over its storages: the films and users it looks up, the like relation and the
      feed it appends to. */
  class FilmService {
    var films: map<int, Film>
    var users: map<int, User>
    var likes: set<FilmLike>
    var feed: seq<Event>

    /** Every like links a stored film and a stored user. */
    ghost predicate Valid()
      reads this
    {
      forall l :: l in likes ==> l.filmId in films && l.userId in users
    }

    /** A service over the given storages, with no likes and an empty feed. */
    constructor (films: map<int, Film>, users: map<int, User>)
      ensures this.films == films && this.users == users
      ensures likes == {} && feed == []
      ensures Valid()
    {
      this.films := films;
      this.users := users;
      likes := {};
      feed := [];
    }

    /** The ids of the users who liked a film: the film's `usersIdLiked`. */
    function UsersIdLiked(filmId: int): set<int>
      reads this
    {
      set l | l in likes && l.filmId == filmId :: l.userId
    }

    /** `addLikeFilm`: the film must exist, then the user; a user who already likes the film is
      refused. Otherwise exactly that like is stored and exactly one LIKE/ADD event is saved. */
    method AddLikeFilm(id: int, userId: int) returns (r: Outcome<Error>)
      requires Valid()
      modifies this
      ensures Valid()
      ensures films == old(films) && users == old(users)
      ensures id !in films ==> r == Fail(UnknownFilm)
      ensures id in films && userId !in users ==> r == Fail(UnknownUser)
      ensures id in films && userId in users && userId in old(UsersIdLiked(id)) ==> r == Fail(AlreadyExists)
      ensures r.Pass? <==> id in films && userId in users && userId !in old(UsersIdLiked(id))
      ensures r.Fail? ==> likes == old(likes) && feed == old(feed)
      ensures r.Pass? ==> likes == old(likes) + {FilmLike(id, userId)} && feed == old(feed) + [Event(userId, id, Like, Add)]
      ensures r.Pass? ==> UsersIdLiked(id) == old(UsersIdLiked(id)) + {userId}
    {
      var check := ValidateFilm(films, id);
      if check.Fail? {
        return check;
      }
      check := ValidateUser(users, userId);
      if check.Fail? {
        return check;
      }
      if userId in UsersIdLiked(id) {
        return Fail(AlreadyExists);
      }
      assert FilmLike(id, userId) !in likes;
      likes := likes + {FilmLike(id, userId)};
      feed := feed + [Event(userId, id, Like, Add)];
      return Pass;
    }

    /** `removeLikeFilm`: the film must exist, then the user. `storageFails` is the storage's
      `DataAccessException`, reported as an unknown user with nothing removed and no event;
      otherwise the like is gone (removing an absent like is no error) and exactly one
      LIKE/REMOVE event is saved. */
    method RemoveLikeFilm(id: int, userId: int, storageFails: bool) returns (r: Outcome<Error>)
      requires Valid()
      modifies this
      ensures Valid()
      ensures films == old(films) && users == old(users)
      ensures id !in films ==> r == Fail(UnknownFilm)
      ensures id in films && (userId !in users || storageFails) ==> r == Fail(UnknownUser)
      ensures r.Pass? <==> id in films && userId in users && !storageFails
      ensures r.Fail? ==> likes == old(likes) && feed == old(feed)
      ensures r.Pass? ==> likes == old(likes) - {FilmLike(id, userId)} && feed == old(feed) + [Event(userId, id, Like, Remove)]
      ensures r.Pass? ==> UsersIdLiked(id) == old(UsersIdLiked(id)) - {userId}
    {
      var check := ValidateFilm(films, id);
      if check.Fail? {
        return check;
      }
      check := ValidateUser(users, userId);
      if check.Fail? {
        return check;
      }
      if storageFails {
        return Fail(UnknownUser);
      }
      likes := likes - {FilmLike(id, userId)};
      feed := feed + [Event(userId, id, Like, Remove)];
      return Pass;
    }

    /** `getCommonFilms`: both users are checked, in this order, before the storage's answer
      `common` is used; on success its films gain their genres and directors in place. */
    method GetCommonFilms(userId: int, friendId: int, common: array<Film>,
      genresByFilmsId: map<int, seq<Genre>>, directorsByFilmsId: map<int, seq<Director>>) returns (r: Outcome<Error>)
      modifies common
      ensures userId !in users ==> r == Fail(UnknownUser)
      ensures r.Fail? <==> userId !in users || friendId !in users
      ensures r.Fail? ==> r.error == UnknownUser && common[..] == old(common[..])
      ensures r.Pass? ==> forall i :: 0 <= i < common.Length ==>
        common[i] == WithDirectors(WithGenres(old(common[i]), genresByFilmsId), directorsByFilmsId)
    {
      var check := ValidateUser(users, userId);
      if check.Fail? {
        return check;
      }
      check := ValidateUser(users, friendId);
      if check.Fail? {
        return check;
      }
      PopulateFilmsWithGenresAndDirectors(common, genresByFilmsId, directorsByFilmsId);
      return Pass;
    }
  }

  /** Liking a film and then taking the like back leaves the like relation as it was, with two
      events in the feed. */
  method LikeThenUnlike(s: FilmService, id: int, userId: int)
    requires s.Valid() && id in s.films && userId in s.users && userId !in s.UsersIdLiked(id)
    modifies s
    ensures s.likes == old(s.likes)
    ensures s.feed == old(s.feed) + [Event(userId, id, Like, Add), Event(userId, id, Like, Remove)]
  {
    var added := s.AddLikeFilm(id, userId);
    var removed := s.RemoveLikeFilm(id, userId, false);
    assert FilmLike(id, userId) !in old(s.likes) by {
      assert forall l :: l in old(s.likes) && l.filmId == id ==> l.userId in old(s.UsersIdLiked(id));
    }
  }
}
