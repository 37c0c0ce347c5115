/** The row-grouping half of `DbGenreStorage.getGenresByFilmsId`: the SQL query is not part of
    this model; its result set is given as a sequence of rows. */
module GenreStorage {
  import opened Films
  import opened Grouping

  /** One row of the join of `genres` with `genre`. */
  datatype GenreRow = GenreRow(filmId: int, genreId: int, genreName: string)

  /** Each row as its film id paired with the genre built from it. */
  function GenrePairs(rows: seq<GenreRow>): seq<(int, Genre)> {
    seq(|rows|, i requires 0 <= i < |rows| => (rows[i].filmId, Genre(rows[i].genreId, rows[i].genreName)))
  }

  /** `extractGenresByFilmId`: walks the result set once; `putIfAbsent` gives a film its list the
      first time its id is seen and every row appends its genre to that list. */
  method ExtractGenresByFilmId(rows: seq<GenreRow>) returns (genresByFilmId: LinkedMap<Genre>)
    ensures genresByFilmId.order == KeyOrder(GenrePairs(rows))
    ensures genresByFilmId.entries == Grouped(GenrePairs(rows))
  {
    ghost var pairs := GenrePairs(rows);
    var order: seq<int> := [];
    var entries: map<int, seq<Genre>> := map[];
    var i := 0;
    while i < |rows|
      invariant 0 <= i <= |rows|
      invariant order == KeyOrder(pairs[..i])
      invariant entries == Grouped(pairs[..i])
    {
      var filmId := rows[i].filmId;
      var genre := Genre(rows[i].genreId, rows[i].genreName);
      assert pairs[i] == (filmId, genre);
      assert pairs[..i + 1] == pairs[..i] + [pairs[i]];
      GroupStep(pairs[..i], pairs[i], order, entries);
      if filmId !in entries {
        order := order + [filmId];
        entries := entries[filmId := []];
      }
      entries := entries[filmId := entries[filmId] + [genre]];
      i := i + 1;
    }
    assert pairs[..i] == pairs;
    genresByFilmId := LinkedMap(order, entries);
  }

  /** A film id is a key exactly when some row carries it, and then its list is not empty:
      a film without genre rows gets no key rather than an empty list. */
  lemma GenreKeysAreFilmIds(rows: seq<GenreRow>, f: int)
    ensures f in Grouped(GenrePairs(rows)) <==> exists i :: 0 <= i < |rows| && rows[i].filmId == f
    ensures f in Grouped(GenrePairs(rows)) ==> Grouped(GenrePairs(rows))[f] != []
  {
    var pairs := GenrePairs(rows);
    if f in KeySet(pairs) {
      var i :| 0 <= i < |pairs| && pairs[i].0 == f;
      assert rows[i].filmId == f;
      ValuesOfPresent(pairs, f);
    }
    if exists i :: 0 <= i < |rows| && rows[i].filmId == f {
      var i :| 0 <= i < |rows| && rows[i].filmId == f;
      assert pairs[i].0 == f;
    }
  }

  /** A genre is listed under a film exactly when some row pairs them. */
  lemma GenreListedIffRow(rows: seq<GenreRow>, f: int, g: Genre)
    requires f in Grouped(GenrePairs(rows))
    ensures g in Grouped(GenrePairs(rows))[f] <==> exists i :: 0 <= i < |rows| && rows[i].filmId == f && Genre(rows[i].genreId, rows[i].genreName) == g
  {
    var pairs := GenrePairs(rows);
    ValuesOfMembership(pairs, f, g);
    if (f, g) in pairs {
      var i :| 0 <= i < |pairs| && pairs[i] == (f, g);
      assert rows[i].filmId == f;
    }
    if exists i :: 0 <= i < |rows| && rows[i].filmId == f && Genre(rows[i].genreId, rows[i].genreName) == g {
      var i :| 0 <= i < |rows| && rows[i].filmId == f && Genre(rows[i].genreId, rows[i].genreName) == g;
      assert pairs[i] == (f, g);
    }
  }

  /** Every row lands in exactly one list: the lengths add up to the number of rows. */
  lemma GenreRowsConserved(rows: seq<GenreRow>)
    ensures SumLengths(Grouped(GenrePairs(rows)), KeyOrder(GenrePairs(rows))) == |rows|
  {
    GroupedConservesRows(GenrePairs(rows));
  }

  /** Rows ordered by film id, as the query's `order by` asks, give ascending keys. */
  lemma GenreKeysAscending(rows: seq<GenreRow>)
    requires forall i, j :: 0 <= i < j < |rows| ==> rows[i].filmId <= rows[j].filmId
    ensures Ascending(KeyOrder(GenrePairs(rows)))
  {
    SortedRowsGiveAscendingKeys(GenrePairs(rows));
  }

  /** Genres keep row order: splitting the rows anywhere, a film's list is its list from the
      earlier rows followed by its list from the later rows. */
  lemma GenreListsKeepRowOrder(rows: seq<GenreRow>, k: int, f: int)
    requires 0 <= k <= |rows|
    ensures ValuesOf(GenrePairs(rows), f) == ValuesOf(GenrePairs(rows[..k]), f) + ValuesOf(GenrePairs(rows[k..]), f)
  {
    assert GenrePairs(rows) == GenrePairs(rows[..k]) + GenrePairs(rows[k..]);
    ValuesOfConcat(GenrePairs(rows[..k]), GenrePairs(rows[k..]), f);
  }
}
