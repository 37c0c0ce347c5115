/** The row-grouping half of `DbDirectorStorage.getGenresByFilmsId`, which despite its name
    groups directors: the SQL query is not part of this model; its result set is given as a
    sequence of rows. */
module DirectorStorage {
  import opened Films
  import opened Grouping

  /** One row of the join of `directors` with `director`. */
  datatype DirectorRow = DirectorRow(filmId: int, directorId: int, directorName: string)

  /** Each row as its film id paired with the director built from it. */
  function DirectorPairs(rows: seq<DirectorRow>): seq<(int, Director)> {
    seq(|rows|, i requires 0 <= i < |rows| => (rows[i].filmId, Director(rows[i].directorId, rows[i].directorName)))
  }

  /** The director storage's `extractGenresByFilmId` (named after its genre twin): walks the result set once; `putIfAbsent` gives a film its list the
      first time its id is seen and every row appends its director to that list. */
  method ExtractDirectorsByFilmId(rows: seq<DirectorRow>) returns (directorsByFilmId: LinkedMap<Director>)
    ensures directorsByFilmId.order == KeyOrder(DirectorPairs(rows))
    ensures directorsByFilmId.entries == Grouped(DirectorPairs(rows))
  {
    ghost var pairs := DirectorPairs(rows);
    var order: seq<int> := [];
    var entries: map<int, seq<Director>> := map[];
    var i := 0;
    while i < |rows|
      invariant 0 <= i <= |rows|
      invariant order == KeyOrder(pairs[..i])
      invariant entries == Grouped(pairs[..i])
    {
      var filmId := rows[i].filmId;
      var director := Director(rows[i].directorId, rows[i].directorName);
      assert pairs[i] == (filmId, director);
      assert pairs[..i + 1] == pairs[..i] + [pairs[i]];
      GroupStep(pairs[..i], pairs[i], order, entries);
      if filmId !in entries {
        order := order + [filmId];
        entries := entries[filmId := []];
      }
      entries := entries[filmId := entries[filmId] + [director]];
      i := i + 1;
    }
    assert pairs[..i] == pairs;
    directorsByFilmId := LinkedMap(order, entries);
  }

  /** A film id is a key exactly when some row carries it, and then its list is not empty:
      a film without director rows gets no key rather than an empty list. */
  lemma DirectorKeysAreFilmIds(rows: seq<DirectorRow>, f: int)
    ensures f in Grouped(DirectorPairs(rows)) <==> exists i :: 0 <= i < |rows| && rows[i].filmId == f
    ensures f in Grouped(DirectorPairs(rows)) ==> Grouped(DirectorPairs(rows))[f] != []
  {
    var pairs := DirectorPairs(rows);
    if f in KeySet(pairs) {
      var i :| 0 <= i < |pairs| && pairs[i].0 == f;
      assert rows[i].filmId == f;
      ValuesOfPresent(pairs, f);
    }
    if exists i :: 0 <= i < |rows| && rows[i].filmId == f {
      var i :| 0 <= i < |rows| && rows[i].filmId == f;
      assert pairs[i].0 == f;
    }
  }

  /** A director is listed under a film exactly when some row pairs them. */
  lemma DirectorListedIffRow(rows: seq<DirectorRow>, f: int, d: Director)
    requires f in Grouped(DirectorPairs(rows))
    ensures d in Grouped(DirectorPairs(rows))[f] <==> exists i :: 0 <= i < |rows| && rows[i].filmId == f && Director(rows[i].directorId, rows[i].directorName) == d
  {
    var pairs := DirectorPairs(rows);
    ValuesOfMembership(pairs, f, d);
    if (f, d) in pairs {
      var i :| 0 <= i < |pairs| && pairs[i] == (f, d);
      assert rows[i].filmId == f;
    }
    if exists i :: 0 <= i < |rows| && rows[i].filmId == f && Director(rows[i].directorId, rows[i].directorName) == d {
      var i :| 0 <= i < |rows| && rows[i].filmId == f && Director(rows[i].directorId, rows[i].directorName) == d;
      assert pairs[i] == (f, d);
    }
  }

  /** Every row lands in exactly one list: the lengths add up to the number of rows. */
  lemma DirectorRowsConserved(rows: seq<DirectorRow>)
    ensures SumLengths(Grouped(DirectorPairs(rows)), KeyOrder(DirectorPairs(rows))) == |rows|
  {
    GroupedConservesRows(DirectorPairs(rows));
  }

  /** Rows ordered by film id, as the query's `order by` asks, give ascending keys. */
  lemma DirectorKeysAscending(rows: seq<DirectorRow>)
    requires forall i, j :: 0 <= i < j < |rows| ==> rows[i].filmId <= rows[j].filmId
    ensures Ascending(KeyOrder(DirectorPairs(rows)))
  {
    SortedRowsGiveAscendingKeys(DirectorPairs(rows));
  }

  /** Directors keep row order: splitting the rows anywhere, a film's list is its list from the
      earlier rows followed by its list from the later rows. */
  lemma DirectorListsKeepRowOrder(rows: seq<DirectorRow>, k: int, f: int)
    requires 0 <= k <= |rows|
    ensures ValuesOf(DirectorPairs(rows), f) == ValuesOf(DirectorPairs(rows[..k]), f) + ValuesOf(DirectorPairs(rows[k..]), f)
  {
    assert DirectorPairs(rows) == DirectorPairs(rows[..k]) + DirectorPairs(rows[k..]);
    ValuesOfConcat(DirectorPairs(rows[..k]), DirectorPairs(rows[k..]), f);
  }
}
