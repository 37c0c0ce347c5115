/** The review record (`Review`) and its usefulness score. */
module Reviews {
  import opened Wrappers

  /** A review. `usersRating` maps each voting user to `true` (useful) or `false` (not useful);
      the stored `useful` field is never read by the getter. */
  datatype Review = Review(
    reviewId: Option<int>,
    userId: int,
    filmId: int,
    content: string,
    isPositive: bool,
    usersRating: map<int, bool>,
    useful: Option<int>)

  /** The users who voted the review useful. */
  function Upvoters(votes: map<int, bool>): set<int> {
    set u | u in votes && votes[u]
  }

  /** The users who voted the review not useful. */
  function Downvoters(votes: map<int, bool>): set<int> {
    set u | u in votes && !votes[u]
  }

  /** The usefulness of a set of votes: up-votes minus down-votes. */
  function Useful(votes: map<int, bool>): int {
    |Upvoters(votes)| - |Downvoters(votes)|
  }

  /** `getUseful`: the score is recomputed from the votes on every call, and it never exceeds the
      number of voters either way. */
  function GetUseful(r: Review): (useful: int)
    ensures -|r.usersRating| <= useful <= |r.usersRating|
  {
    VotersPartition(r.usersRating);
    Useful(r.usersRating)
  }

  /** Every voter is on exactly one side. */
  lemma VotersPartition(m: map<int, bool>)
    ensures Upvoters(m) !! Downvoters(m)
    ensures Upvoters(m) + Downvoters(m) == m.Keys
    ensures |Upvoters(m)| + |Downvoters(m)| == |m|
  {
    assert Upvoters(m) + Downvoters(m) == m.Keys;
    assert |Upvoters(m) + Downvoters(m)| == |Upvoters(m)| + |Downvoters(m)|;
  }

  /** `mapToLong(v -> v ? 1 : -1).sum()` over a stream of votes. */
  function VoteSum(votes: seq<bool>): int {
    if votes == [] then 0
    else VoteSum(votes[..|votes| - 1]) + (if votes[|votes| - 1] then 1 else -1)
  }

  /** The votes in the order in which `order` lists the voters. */
  function VotesInOrder(votes: map<int, bool>, order: seq<int>): seq<bool>
    requires forall i :: 0 <= i < |order| ==> order[i] in votes
  {
    seq(|order|, i requires 0 <= i < |order| => votes[order[i]])
  }

  /** An enumeration of the voters in which each occurs once, as a hash map yields them. */
  predicate EnumeratesVoters(votes: map<int, bool>, order: seq<int>) {
    && (forall i, j :: 0 <= i < j < |order| ==> order[i] != order[j])
    && (forall i :: 0 <= i < |order| ==> order[i] in votes)
    && (forall u :: u in votes ==> u in order)
  }

  /** The stream sum equals up-votes minus down-votes, whatever order the map yields its values in. */
  lemma {:induction false} StreamSumIsUseful(votes: map<int, bool>, order: seq<int>)
    requires EnumeratesVoters(votes, order)
    ensures VoteSum(VotesInOrder(votes, order)) == Useful(votes)
  {
    if order == [] {
      assert forall u :: u !in votes;
      assert Upvoters(votes) == {} && Downvoters(votes) == {};
    } else {
      var init := order[..|order| - 1];
      var last := order[|order| - 1];
      var rest := votes - {last};
      assert order == init + [last];
      assert EnumeratesVoters(rest, init) by {
        forall u | u in rest ensures u in init {
          var i :| 0 <= i < |order| && order[i] == u;
        }
      }
      StreamSumIsUseful(rest, init);
      var vs := VotesInOrder(votes, order);
      assert vs[..|vs| - 1] == VotesInOrder(rest, init);
      UsefulWithout(votes, last);
    }
  }

  /** Taking one user's vote out moves the score back by that vote. */
  lemma UsefulWithout(m: map<int, bool>, u: int)
    requires u in m
    ensures Useful(m) == Useful(m - {u}) + (if m[u] then 1 else -1)
  {
    var rest := m - {u};
    assert m == rest[u := m[u]];
    AddVoteSides(rest, u, m[u]);
    assert u !in Upvoters(rest) && u !in Downvoters(rest);
  }

  /** A review nobody voted on has usefulness 0. */
  lemma NoVotesNoUsefulness(r: Review)
    requires r.usersRating == map[]
    ensures GetUseful(r) == 0
  {
    assert Upvoters(r.usersRating) == {} && Downvoters(r.usersRating) == {};
  }

  /** The score reaches the number of voters exactly when every vote is useful, and its
      negation exactly when every vote is not useful. */
  lemma UsefulExtremes(r: Review)
    ensures GetUseful(r) == |r.usersRating| <==> forall u :: u in r.usersRating ==> r.usersRating[u]
    ensures GetUseful(r) == -|r.usersRating| <==> forall u :: u in r.usersRating ==> !r.usersRating[u]
  {
    var m := r.usersRating;
    VotersPartition(m);
    if forall u :: u in m ==> m[u] {
      assert Downvoters(m) == {};
    }
    if forall u :: u in m ==> !m[u] {
      assert Upvoters(m) == {};
    }
    if GetUseful(r) == |m| {
      assert Downvoters(m) == {};
      forall u | u in m ensures m[u] {
        assert u !in Downvoters(m);
      }
    }
    if GetUseful(r) == -|m| {
      assert Upvoters(m) == {};
      forall u | u in m ensures !m[u] {
        assert u !in Upvoters(m);
      }
    }
  }

  /** The stored `useful` field has no effect on the score. */
  lemma StoredUsefulIgnored(r: Review, stored: Option<int>)
    ensures GetUseful(r.(useful := stored)) == GetUseful(r)
  {
  }

  /** Adding a vote for a user who had not voted adds that user to one side only. */
  lemma AddVoteSides(m: map<int, bool>, u: int, vote: bool)
    requires u !in m
    ensures Upvoters(m[u := vote]) == if vote then Upvoters(m) + {u} else Upvoters(m)
    ensures Downvoters(m[u := vote]) == if vote then Downvoters(m) else Downvoters(m) + {u}
  {
    var m' := m[u := vote];
    forall x ensures x in Upvoters(m') <==> x in Upvoters(m) || (vote && x == u) {
      if x != u { assert (x in m') == (x in m); }
    }
    forall x ensures x in Downvoters(m') <==> x in Downvoters(m) || (!vote && x == u) {
      if x != u { assert (x in m') == (x in m); }
    }
  }

  /** A first vote by a user raises the score by one when useful and lowers it by one otherwise. */
  lemma FirstVoteMovesUsefulByOne(r: Review, u: int, vote: bool)
    requires u !in r.usersRating
    ensures GetUseful(r.(usersRating := r.usersRating[u := vote])) == GetUseful(r) + (if vote then 1 else -1)
  {
    AddVoteSides(r.usersRating, u, vote);
    assert u !in Upvoters(r.usersRating) && u !in Downvoters(r.usersRating);
  }

  /** Votes are keyed by user: a user who changes a useful vote to not useful lowers the score by two. */
  lemma FlippedVoteLowersUsefulByTwo(r: Review, u: int)
    requires u in r.usersRating && r.usersRating[u]
    ensures GetUseful(r.(usersRating := r.usersRating[u := false])) == GetUseful(r) - 2
  {
    var m := r.usersRating;
    var rest := m - {u};
    assert m == rest[u := true] && m[u := false] == rest[u := false];
    AddVoteSides(rest, u, true);
    AddVoteSides(rest, u, false);
    assert u !in Upvoters(rest) && u !in Downvoters(rest);
  }
}
