/** The film recommender of `DbUserStorage`: the users' likes are grouped by user, the user who
    shares the most liked films with the target becomes the neighbour, and the neighbour's films
    the target has not liked are recommended. The SQL query is not part of this model: its
    result set is given as a sequence of (user id, film id) rows. */
module Recommender {
  import opened Wrappers
  import opened Grouping
  import opened Collections

  /** The two ways `getRecommendations` fails; both are a `NullPointerException` in the code. */
  datatype RecommendationError =
    | TargetHasNoLikes  // `data.get(id)` is null: the target liked no film
    | NoNeighbour       // no other user shares a film, so `data.get(null)` is iterated

  /** How many entries of `mine` occur in `other`: the count the frequency loop arrives at for
      one user. */
  function Overlap(mine: seq<int>, other: seq<int>): nat {
    if mine == [] then 0
    else Overlap(mine[..|mine| - 1], other) + (if mine[|mine| - 1] in other then 1 else 0)
  }

  /** The overlap grows by one for each further shared entry. */
  lemma OverlapSnoc(mine: seq<int>, i: int, other: seq<int>)
    requires 0 <= i < |mine|
    ensures Overlap(mine[..i + 1], other) == Overlap(mine[..i], other) + (if mine[i] in other then 1 else 0)
  {
    assert mine[..i + 1][..i] == mine[..i];
  }

  /** Two users overlap exactly when they share a liked film, and the overlap never exceeds the
      number of the target's likes. */
  lemma {:induction false} OverlapMeaning(mine: seq<int>, other: seq<int>)
    ensures Overlap(mine, other) > 0 <==> exists f :: f in mine && f in other
    ensures Overlap(mine, other) <= |mine|
  {
    if mine != [] {
      var init := mine[..|mine| - 1];
      var last := mine[|mine| - 1];
      assert mine == init + [last];
      OverlapMeaning(init, other);
      if exists f :: f in init && f in other {
        var f :| f in init && f in other;
        assert f in mine;
      }
    }
  }

  /** `n` is a user `getMostIntersectionsUserId` may return: another user with likes, sharing at
      least one film with the target, and with no other user sharing more. */
  ghost predicate IsNeighbour(data: map<int, seq<int>>, id: int, n: int)
    requires id in data
  {
    && n in data && n != id
    && Overlap(data[id], data[n]) > 0
    && forall u :: u in data && u != id ==> Overlap(data[id], data[u]) <= Overlap(data[id], data[n])
  }

  /** No other user shares a film with the target. */
  ghost predicate NoNeighbourIn(data: map<int, seq<int>>, id: int)
    requires id in data
  {
    forall u :: u in data && u != id ==> Overlap(data[id], data[u]) == 0
  }

  /** Having no neighbour means that none of the target's films is liked by anyone else. */
  lemma NoNeighbourMeansNoSharedFilm(data: map<int, seq<int>>, id: int)
    requires id in data
    ensures NoNeighbourIn(data, id) <==>
      forall u, f :: u in data && u != id && f in data[id] ==> f !in data[u]
  {
    forall u | u in data && u != id {
      OverlapMeaning(data[id], data[u]);
    }
  }

  /** The films of `other` that are not in `mine`, in the order of `other`. */
  function Recommended(other: seq<int>, mine: seq<int>): seq<int> {
    if other == [] then []
    else
      var last := other[|other| - 1];
      Recommended(other[..|other| - 1], mine) + (if last !in mine then [last] else [])
  }

  /** A film is recommended exactly when the neighbour liked it and the target did not, and the
      recommendations are never more than the neighbour's likes. */
  lemma {:induction false} RecommendedMeaning(other: seq<int>, mine: seq<int>, f: int)
    ensures f in Recommended(other, mine) <==> f in other && f !in mine
    ensures |Recommended(other, mine)| <= |other|
  {
    if other != [] {
      var init := other[..|other| - 1];
      assert other == init + [other[|other| - 1]];
      RecommendedMeaning(init, mine, f);
    }
  }

  /** `getDataMap`: every row appends its film to its user's list; a user's list is created the
      first time the user is seen. */
  method GetDataMap(dataList: seq<(int, int)>) returns (data: map<int, seq<int>>)
    ensures data == Grouped(dataList)
  {
    data := map[];
    var i := 0;
    while i < |dataList|
      invariant 0 <= i <= |dataList|
      invariant data == Grouped(dataList[..i])
    {
      var entryKey := dataList[i].0;
      if entryKey in data {
        data := data[entryKey := data[entryKey] + [dataList[i].1]];
      } else {
        data := data[entryKey := [dataList[i].1]];
        assert [] + [dataList[i].1] == [dataList[i].1];
      }
      assert dataList[..i + 1] == dataList[..i] + [dataList[i]];
      GroupedSnoc(dataList[..i], dataList[i]);
      i := i + 1;
    }
    assert dataList[..i] == dataList;
  }

  /** The frequency loop of `getMostIntersectionsUserId`: for each film the target liked, every
      other user who liked it gets one more intersection. A user enters the map with their first
      shared film. */
  method Frequency(id: int, data: map<int, seq<int>>) returns (frequency: map<int, int>)
    requires id in data
    ensures forall u :: u in frequency <==> u in data && u != id && Overlap(data[id], data[u]) > 0
    ensures forall u :: u in frequency ==> frequency[u] == Overlap(data[id], data[u])
  {
    var mine := data[id];
    frequency := map[];
    var i := 0;
    while i < |mine|
      invariant 0 <= i <= |mine|
      invariant forall u :: Counts(frequency, data, id, mine[..i], u)
    {
      var userFilmId := mine[i];
      ghost var before, after := mine[..i], mine[..i + 1];
      var remaining := data.Keys;
      forall u | u !in remaining ensures Counts(frequency, data, id, after, u) {
        assert Counts(frequency, data, id, before, u);
      }
      while remaining != {}
        invariant remaining <= data.Keys
        invariant forall u :: u in remaining ==> Counts(frequency, data, id, before, u)
        invariant forall u :: u !in remaining ==> Counts(frequency, data, id, after, u)
        decreases remaining
      {
        ghost var pick := Inhabitant(remaining);
        var user :| user in remaining;
        OverlapSnoc(mine, i, data[user]);
        if user != id && userFilmId in data[user] {
          if user in frequency {
            frequency := frequency[user := frequency[user] + 1];
          } else {
            frequency := frequency[user := 1];
          }
        }
        remaining := remaining - {user};
      }
      i := i + 1;
    }
    assert mine[..i] == mine;
    forall u
      ensures u in frequency <==> u in data && u != id && Overlap(mine, data[u]) > 0
      ensures u in frequency ==> frequency[u] == Overlap(mine, data[u])
    {
      assert Counts(frequency, data, id, mine, u);
    }
  }

  /** `frequency` holds the right count for `u` after the target's films `films` were visited:
      `u` is a key exactly when it is another user sharing one of those films, with the number
      it shares. */
  predicate Counts(frequency: map<int, int>, data: map<int, seq<int>>, id: int, films: seq<int>, u: int) {
    && (u in frequency <==> u in data && u != id && Overlap(films, data[u]) > 0)
    && (u in frequency && u in data ==> frequency[u] == Overlap(films, data[u]))
  }

  /** `frequency.entrySet().stream().max(comparingByValue())`: a key with the largest count, or
      none when the map is empty. The map's iteration order decides between equal counts; the
      model leaves that choice open. */
  method SelectMax(frequency: map<int, int>) returns (best: Option<int>)
    ensures best.None? <==> frequency == map[]
    ensures best.Some? ==>
      best.value in frequency && forall u :: u in frequency ==> frequency[u] <= frequency[best.value]
  {
    best := None;
    var remaining := frequency.Keys;
    while remaining != {}
      invariant remaining <= frequency.Keys
      invariant best.None? <==> remaining == frequency.Keys
      invariant best.Some? ==> best.value in frequency
      invariant best.Some? ==> forall u :: u in frequency && u !in remaining ==> frequency[u] <= frequency[best.value]
      decreases remaining
    {
      ghost var pick := Inhabitant(remaining);
      var u :| u in remaining;
      if best.None? || frequency[u] > frequency[best.value] {
        best := Some(u);
      }
      remaining := remaining - {u};
    }
    if best.None? {
      assert frequency.Keys == {};
    }
  }

  /** `getMostIntersectionsUserId`: fails when the target has no likes (iterating a null list);
      otherwise the user sharing the most films, or none when nobody shares one. */
  method MostIntersectionsUserId(id: int, data: map<int, seq<int>>) returns (r: Result<Option<int>, RecommendationError>)
    ensures r == Failure(TargetHasNoLikes) <==> id !in data
    ensures r.Failure? ==> r.error == TargetHasNoLikes
    ensures r == Success(None) <==> id in data && NoNeighbourIn(data, id)
    ensures r.Success? && r.value.Some? ==> id in data && IsNeighbour(data, id, r.value.value)
  {
    if id !in data {
      return Failure(TargetHasNoLikes);
    }
    var frequency := Frequency(id, data);
    var best := SelectMax(frequency);
    if best.Some? {
      var n := best.value;
      forall u | u in data && u != id
        ensures Overlap(data[id], data[u]) <= Overlap(data[id], data[n])
      {
        if u !in frequency {
          assert Overlap(data[id], data[u]) == 0;
        }
      }
      assert !NoNeighbourIn(data, id) by {
        assert Overlap(data[id], data[n]) > 0;
      }
    } else {
      forall u | u in data && u != id ensures Overlap(data[id], data[u]) == 0 {
        assert u !in frequency;
      }
    }
    return Success(best);
  }

  /** `getRecommendations`, up to the film lookup: the neighbour's films that the target has not
      liked, in the order of the neighbour's list. */
  method GetRecommendations(id: int, dataList: seq<(int, int)>) returns (r: Result<seq<int>, RecommendationError>)
    ensures r == Failure(TargetHasNoLikes) <==> id !in KeySet(dataList)
    ensures r == Failure(NoNeighbour) <==> id in KeySet(dataList) && NoNeighbourIn(Grouped(dataList), id)
    ensures r.Success? ==> id in Grouped(dataList)
    ensures r.Success? ==>
      exists n :: IsNeighbour(Grouped(dataList), id, n) && r.value == Recommended(Grouped(dataList)[n], Grouped(dataList)[id])
    ensures RecommendationsFor(dataList, id, r)
  {
    var data := GetDataMap(dataList);
    var mostIntersectionsUserId := MostIntersectionsUserId(id, data);
    if mostIntersectionsUserId.Failure? {
      return Failure(mostIntersectionsUserId.error);
    }
    if mostIntersectionsUserId.value.None? {
      return Failure(NoNeighbour);
    }
    var n := mostIntersectionsUserId.value.value;
    var other := data[n];
    var mine := data[id];
    var result: seq<int> := [];
    var j := 0;
    while j < |other|
      invariant 0 <= j <= |other|
      invariant result == Recommended(other[..j], mine)
    {
      var otherFilmId := other[j];
      if otherFilmId !in mine {
        result := result + [otherFilmId];
      }
      assert other[..j + 1][..j] == other[..j];
      j := j + 1;
    }
    assert other[..j] == other;
    return Success(result);
  }

  /** The specification of `GetRecommendations` as a relation between the rows, the target and a
      result. */
  ghost predicate RecommendationsFor(dataList: seq<(int, int)>, id: int, r: Result<seq<int>, RecommendationError>) {
    var data := Grouped(dataList);
    if id !in data then r == Failure(TargetHasNoLikes)
    else if NoNeighbourIn(data, id) then r == Failure(NoNeighbour)
    else exists n :: IsNeighbour(data, id, n) && r == Success(Recommended(data[n], data[id]))
  }

  /** Every recommended film is liked by the neighbour and not by the target, read off the rows. */
  lemma RecommendationsComeFromTheNeighbour(dataList: seq<(int, int)>, id: int, n: int, f: int)
    requires id in Grouped(dataList) && IsNeighbour(Grouped(dataList), id, n)
    ensures f in Recommended(Grouped(dataList)[n], Grouped(dataList)[id]) <==>
      (n, f) in dataList && (id, f) !in dataList
  {
    var data := Grouped(dataList);
    RecommendedMeaning(data[n], data[id], f);
    ValuesOfMembership(dataList, n, f);
    ValuesOfMembership(dataList, id, f);
  }

  /** The likes of the recommendation example: user 1 liked films 1 and 2, user 2 liked films
      1, 2 and 3. */
  const ExampleRows: seq<(int, int)> := [(1, 1), (1, 2), (2, 1), (2, 2), (2, 3)]

  /** The example's rows grouped by user. */
  lemma ExampleGrouping()
    ensures Grouped(ExampleRows) == map[1 := [1, 2], 2 := [1, 2, 3]]
  {
    var rows := ExampleRows;
    assert KeySet(rows) == {1, 2} by {
      assert rows[0].0 == 1 && rows[2].0 == 2;
    }
    var p1 := [(1, 1)];
    var p2 := p1 + [(1, 2)];
    var p3 := p2 + [(2, 1)];
    var p4 := p3 + [(2, 2)];
    assert rows == p4 + [(2, 3)];
    assert p1[..0] == [] && p2[..1] == p1 && p3[..2] == p2 && p4[..3] == p3 && rows[..4] == p4;
    assert ValuesOf(p1, 1) == [1] && ValuesOf(p1, 2) == [];
    assert ValuesOf(p2, 1) == [1, 2] && ValuesOf(p2, 2) == [];
    assert ValuesOf(p3, 1) == [1, 2] && ValuesOf(p3, 2) == [1];
    assert ValuesOf(p4, 1) == [1, 2] && ValuesOf(p4, 2) == [1, 2];
    assert ValuesOf(rows, 1) == [1, 2] && ValuesOf(rows, 2) == [1, 2, 3];
  }

  /** In the example user 2 shares both of user 1's films and gets film 3 recommended. */
  lemma ExampleCounts()
    ensures Overlap([1, 2], [1, 2, 3]) == 2
    ensures Recommended([1, 2, 3], [1, 2]) == [3]
  {
    assert [1, 2][..1] == [1];
    assert [1, 2, 3][..2] == [1, 2];
    assert [1, 2, 3][..2][..1] == [1];
  }

  /** In the example user 2 is user 1's neighbour and film 3 is user 1's only recommendation. */
  lemma TwoUsersExample()
    ensures forall r :: RecommendationsFor(ExampleRows, 1, r) ==> r == Success([3])
  {
    ExampleGrouping();
    ExampleCounts();
    var data := Grouped(ExampleRows);
    assert data.Keys == {1, 2};
    assert IsNeighbour(data, 1, 2);
    forall r | RecommendationsFor(ExampleRows, 1, r) ensures r == Success([3]) {
      var n :| IsNeighbour(data, 1, n) && r == Success(Recommended(data[n], data[1]));
    }
  }
}
