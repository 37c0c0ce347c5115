/** The film record (`Film`): its field constraints, its genre set ordered by genre id, and the
    fields its equality looks at. */
module Films {
  import opened Wrappers
  import opened Dates
  import opened Text

  datatype Genre = Genre(id: int, name: string)

  datatype Director = Director(id: int, name: string)

  datatype Mpa = Mpa(id: int, name: Option<string>)

  /** Genres with strictly increasing ids: a `TreeSet` ordered by `Genre::getId` iterates its
      elements this way and never holds two genres with the same id. */
  predicate GenresOrdered(gs: seq<Genre>) {
    forall i, j :: 0 <= i < j < |gs| ==> gs[i].id < gs[j].id
  }

  type GenreSet = gs: seq<Genre> | GenresOrdered(gs)

  /** A film; `id` is `None` until the storage assigns one. The non-null string, date, number
      and rating fields are non-null by construction here. */
  datatype Film = Film(
    id: Option<int>,
    name: string,
    description: string,
    releaseDate: Date,
    duration: int,
    mpa: Mpa,
    genres: GenreSet,
    directors: set<Director>,
    usersIdLiked: set<int>)

  const MaxDescriptionLength := 200

  /** The bean-validation constraints on a film's fields, `today` being the clock's date:
      a name that is not blank after trimming, a description of at most 200 UTF-16 units
      (`@Size` counts `String.length()`), a release date not in the future and a strictly
      positive duration. A valid film has a non-empty name and at most 200 characters of
      description, whatever the characters. */
  predicate ValidFilm(f: Film, today: Date)
    ensures ValidFilm(f, today) ==> f.name != [] && |f.description| <= MaxDescriptionLength
  {
    Utf16LengthBounds(f.description);
    && NotBlankTrimmed(f.name)
    && Utf16Length(f.description) <= MaxDescriptionLength
    && !After(f.releaseDate, today)
    && f.duration > 0
  }

  /** The ids in a genre sequence. */
  function GenreIds(gs: seq<Genre>): set<int> {
    set i | 0 <= i < |gs| :: gs[i].id
  }

  /** The ids of a sequence with one more genre in front. */
  lemma GenreIdsCons(x: Genre, gs: seq<Genre>)
    ensures GenreIds([x] + gs) == {x.id} + GenreIds(gs)
  {
    var s := [x] + gs;
    forall k | k in GenreIds(s) ensures k in {x.id} + GenreIds(gs) {
      var i :| 0 <= i < |s| && s[i].id == k;
      if i > 0 { assert s[i] == gs[i - 1]; }
    }
    forall k | k in GenreIds(gs) ensures k in GenreIds(s) {
      var i :| 0 <= i < |gs| && gs[i].id == k;
      assert s[i + 1] == gs[i];
    }
    assert s[0] == x;
  }

  /** `TreeSet.add`: a genre whose id is already present is not added (the stored one is kept);
      any other genre is inserted at its place in id order. */
  function AddGenre(gs: seq<Genre>, g: Genre): (r: seq<Genre>)
    ensures |gs| <= |r| <= |gs| + 1
    ensures forall x :: x in r ==> x in gs || x == g
  {
    if gs == [] then [g]
    else if g.id < gs[0].id then [g] + gs
    else if g.id == gs[0].id then gs
    else [gs[0]] + AddGenre(gs[1..], g)
  }

  /** Adding a genre adds exactly its id to the ids. */
  lemma {:induction false} AddGenreIds(gs: seq<Genre>, g: Genre)
    ensures GenreIds(AddGenre(gs, g)) == GenreIds(gs) + {g.id}
  {
    if gs == [] {
      GenreIdsCons(g, []);
    } else if g.id < gs[0].id {
      GenreIdsCons(g, gs);
    } else if g.id == gs[0].id {
      assert gs[0].id in GenreIds(gs);
    } else {
      var tail := gs[1..];
      AddGenreIds(tail, g);
      assert gs == [gs[0]] + tail;
      GenreIdsCons(gs[0], tail);
      GenreIdsCons(gs[0], AddGenre(tail, g));
    }
  }

  /** In an ordered sequence every id after the first is larger than the first. */
  lemma HeadBelowTail(gs: seq<Genre>)
    requires GenresOrdered(gs) && gs != []
    ensures forall k :: k in GenreIds(gs[1..]) ==> gs[0].id < k
  {
    forall k | k in GenreIds(gs[1..]) ensures gs[0].id < k {
      var i :| 0 <= i < |gs[1..]| && gs[1..][i].id == k;
      assert gs[1..][i] == gs[i + 1];
    }
  }

  /** Adding to an ordered genre set keeps it ordered and adds exactly the new genre's id. */
  lemma {:induction false} AddGenreKeepsOrder(gs: seq<Genre>, g: Genre)
    requires GenresOrdered(gs)
    ensures GenresOrdered(AddGenre(gs, g))
    ensures GenreIds(AddGenre(gs, g)) == GenreIds(gs) + {g.id}
  {
    AddGenreIds(gs, g);
    if gs != [] && g.id < gs[0].id {
      HeadBelowTail(gs);
      assert gs == [gs[0]] + gs[1..];
      GenreIdsCons(gs[0], gs[1..]);
      OrderedCons(g, gs);
    } else if gs != [] && g.id > gs[0].id {
      var tail := gs[1..];
      AddGenreKeepsOrder(tail, g);
      HeadBelowTail(gs);
      OrderedCons(gs[0], AddGenre(tail, g));
    }
  }

  /** The set after `add` holds every stored genre, and the new genre only when its id is new;
      when the id is already present nothing changes. */
  lemma {:induction false} AddGenreContents(gs: seq<Genre>, g: Genre)
    requires GenresOrdered(gs)
    ensures g.id in GenreIds(gs) ==> AddGenre(gs, g) == gs
    ensures forall x :: x in AddGenre(gs, g) <==> x in gs || (x == g && g.id !in GenreIds(gs))
  {
    if gs == [] {
    } else if g.id < gs[0].id {
      forall k | k in GenreIds(gs) ensures g.id < k {
        var i :| 0 <= i < |gs| && gs[i].id == k;
        if i > 0 { assert gs[0].id < gs[i].id; }
      }
    } else if g.id == gs[0].id {
      assert gs[0].id in GenreIds(gs);
    } else {
      var tail := gs[1..];
      AddGenreContents(tail, g);
      assert gs == [gs[0]] + tail;
      GenreIdsCons(gs[0], tail);
    }
  }

  /** A genre with a smaller id than every id of an ordered sequence can go in front of it. */
  lemma OrderedCons(x: Genre, gs: seq<Genre>)
    requires GenresOrdered(gs)
    requires forall k :: k in GenreIds(gs) ==> x.id < k
    ensures GenresOrdered([x] + gs)
  {
    var s := [x] + gs;
    forall i, j | 0 <= i < j < |s| ensures s[i].id < s[j].id {
      assert s[j] == gs[j - 1];
      if i == 0 { assert gs[j - 1].id in GenreIds(gs); }
    }
  }

  /** `Collection.addAll` on the genre set: the genres of `more` are added one by one, in order. */
  function AddAllGenres(gs: GenreSet, more: seq<Genre>): (r: GenreSet)
    ensures GenreIds(r) == GenreIds(gs) + GenreIds(more)
    ensures forall x :: x in gs ==> x in r
    ensures forall x :: x in r ==> x in gs || x in more
    decreases |more|
  {
    if more == [] then gs
    else
      AddOneGenre(gs, more);
      var step: GenreSet := AddGenre(gs, more[0]);
      AddAllGenres(step, more[1..])
  }

  /** The first step of `addAll`: adding the first genre of `more` to an ordered set. */
  lemma AddOneGenre(gs: seq<Genre>, more: seq<Genre>)
    requires GenresOrdered(gs) && more != []
    ensures GenresOrdered(AddGenre(gs, more[0]))
    ensures GenreIds(AddGenre(gs, more[0])) == GenreIds(gs) + {more[0].id}
    ensures forall x :: x in AddGenre(gs, more[0]) <==> x in gs || (x == more[0] && more[0].id !in GenreIds(gs))
    ensures GenreIds(more) == {more[0].id} + GenreIds(more[1..])
    ensures forall x :: x in more <==> x == more[0] || x in more[1..]
  {
    AddGenreKeepsOrder(gs, more[0]);
    AddGenreContents(gs, more[0]);
    SplitFirstGenre(more);
  }

  /** A non-empty genre sequence is its first genre followed by the rest. */
  lemma SplitFirstGenre(more: seq<Genre>)
    requires more != []
    ensures GenreIds(more) == {more[0].id} + GenreIds(more[1..])
    ensures forall x :: x in more <==> x == more[0] || x in more[1..]
  {
    assert more == [more[0]] + more[1..];
    GenreIdsCons(more[0], more[1..]);
  }

  /** Adding genres whose ids are all present already changes nothing: `addAll` of the same
      genres a second time leaves the set as it was. */
  lemma {:induction false} AddAllGenresKnown(gs: GenreSet, more: seq<Genre>)
    requires GenreIds(more) <= GenreIds(gs)
    ensures AddAllGenres(gs, more) == gs
    decreases |more|
  {
    if more != [] {
      assert more == [more[0]] + more[1..];
      GenreIdsCons(more[0], more[1..]);
      AddGenreContents(gs, more[0]);
      AddAllGenresKnown(gs, more[1..]);
    }
  }

  /** Lombok's `equals`: every field except `mpa`, `genres` and `usersIdLiked`. */
  predicate SameFilm(a: Film, b: Film) {
    && a.id == b.id
    && a.name == b.name
    && a.description == b.description
    && a.releaseDate == b.releaseDate
    && a.duration == b.duration
    && a.directors == b.directors
  }

  /** Changing the rating, the genres or the likes leaves a film equal to itself. */
  lemma SameFilmIgnoresRatingGenresLikes(f: Film, mpa: Mpa, genres: GenreSet, liked: set<int>)
    ensures SameFilm(f, f.(mpa := mpa, genres := genres, usersIdLiked := liked))
  {
  }

  /** Film equality is an equivalence relation. */
  lemma SameFilmIsEquivalence(a: Film, b: Film, c: Film)
    ensures SameFilm(a, a)
    ensures SameFilm(a, b) ==> SameFilm(b, a)
    ensures SameFilm(a, b) && SameFilm(b, c) ==> SameFilm(a, c)
  {
  }

  /** The description limit: with every other field valid, a description of characters from the
      Basic Multilingual Plane passes exactly when it has at most 200 characters; one of
      characters above U+FFFF (emoji, say) passes exactly when it has at most 100; and more than
      200 characters never pass. */
  lemma DescriptionLimit(f: Film, today: Date)
    requires NotBlankTrimmed(f.name) && !After(f.releaseDate, today) && f.duration > 0
    ensures (forall i :: 0 <= i < |f.description| ==> f.description[i] <= '\U{FFFF}') ==>
      (ValidFilm(f, today) <==> |f.description| <= 200)
    ensures (forall i :: 0 <= i < |f.description| ==> f.description[i] > '\U{FFFF}') ==>
      (ValidFilm(f, today) <==> |f.description| <= 100)
    ensures |f.description| > 200 ==> !ValidFilm(f, today)
  {
    Utf16LengthBounds(f.description);
  }

  /** The film cases of the controller tests, on a clock between 2000 and 2555: the sample film
      is valid, and an empty name, a release date in 2555 or a negative duration each make it
      invalid. */
  lemma ValidFilmExamples(f: Film, today: Date)
    requires f.name == "Name" && f.description == "Description Film"
    requires f.releaseDate == Date(2000, 1, 1) && f.duration == 200
    requires 2000 < today.year < 2555
    ensures ValidFilm(f, today)
    ensures !ValidFilm(f.(name := ""), today)
    ensures !ValidFilm(f.(releaseDate := Date(2555, 12, 27)), today)
    ensures !ValidFilm(f.(duration := -200), today)
  {
    assert f.name[0] > ' ';
    Utf16LengthBounds(f.description);
  }
}
