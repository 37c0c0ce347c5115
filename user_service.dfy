/** The friendship decisions of `UserService`: both users must exist, a friendship is added only
    once and removed only when present, and each change appends one feed event. Friendship is
    directed: adding `friendId` to the friends of `id` says nothing about the reverse. */
module UserService {
  import opened Wrappers
  import opened Exceptions
  import opened Events
  import opened Users
  import opened Validator
  import opened Grouping
  import opened Collections

  /** The service over its storages: the stored users, the directed friend relation (a pair
      `(id, friendId)` says `friendId` is among the friends of `id`) and the feed. */
  class UserService {
    var users: map<int, User>
    var friends: set<(int, int)>
    var feed: seq<Event>

    /** Every friendship links two stored users. */
    ghost predicate Valid()
      reads this
    {
      forall p :: p in friends ==> p.0 in users && p.1 in users
    }

    /** A service over the given users, with no friendships and an empty feed. */
    constructor (users: map<int, User>)
      ensures this.users == users && friends == {} && feed == []
      ensures Valid()
    {
      this.users := users;
      friends := {};
      feed := [];
    }

    /** The friends of `id`, as `getUserById(id).getFriends()` loads them. */
    function FriendsOf(id: int): set<int>
      reads this
    {
      set p | p in friends && p.0 == id :: p.1
    }

    /** `addFriend`: both users must exist, `id` first; an existing friendship is refused.
      Otherwise only the pair `(id, friendId)` is added and one FRIEND/ADD event is saved. */
    method AddFriend(id: int, friendId: int) returns (r: Outcome<Error>)
      requires Valid()
      modifies this
      ensures Valid()
      ensures users == old(users)
      ensures id !in users || friendId !in users ==> r == Fail(UnknownUser)
      ensures id in users && friendId in users && friendId in old(FriendsOf(id)) ==> r == Fail(AlreadyExists)
      ensures r.Pass? <==> id in users && friendId in users && friendId !in old(FriendsOf(id))
      ensures r.Fail? ==> friends == old(friends) && feed == old(feed)
      ensures r.Pass? ==> friends == old(friends) + {(id, friendId)} && feed == old(feed) + [Event(id, friendId, Friend, Add)]
      ensures r.Pass? ==> FriendsOf(id) == old(FriendsOf(id)) + {friendId}
      ensures id != friendId ==> FriendsOf(friendId) == old(FriendsOf(friendId))
    {
      var check := ValidateUser(users, id);
      if check.Fail? {
        return check;
      }
      check := ValidateUser(users, friendId);
      if check.Fail? {
        return check;
      }
      if friendId in FriendsOf(id) {
        return Fail(AlreadyExists);
      }
      assert (id, friendId) !in friends;
      friends := friends + {(id, friendId)};
      feed := feed + [Event(id, friendId, Friend, Add)];
      return Pass;
    }

    /** `deleteFriend`: both users must exist, `id` first; removing a friendship that is not
      there is refused with the same `ExistsException`. Otherwise only the pair is removed and
      one FRIEND/REMOVE event is saved. */
    method DeleteFriend(id: int, friendId: int) returns (r: Outcome<Error>)
      requires Valid()
      modifies this
      ensures Valid()
      ensures users == old(users)
      ensures id !in users || friendId !in users ==> r == Fail(UnknownUser)
      ensures id in users && friendId in users && friendId !in old(FriendsOf(id)) ==> r == Fail(AlreadyExists)
      ensures r.Pass? <==> id in users && friendId in users && friendId in old(FriendsOf(id))
      ensures r.Fail? ==> friends == old(friends) && feed == old(feed)
      ensures r.Pass? ==> friends == old(friends) - {(id, friendId)} && feed == old(feed) + [Event(id, friendId, Friend, Remove)]
      ensures r.Pass? ==> FriendsOf(id) == old(FriendsOf(id)) - {friendId}
      ensures id != friendId ==> FriendsOf(friendId) == old(FriendsOf(friendId))
    {
      var check := ValidateUser(users, id);
      if check.Fail? {
        return check;
      }
      check := ValidateUser(users, friendId);
      if check.Fail? {
        return check;
      }
      if friendId !in FriendsOf(id) {
        assert (id, friendId) !in friends;
        return Fail(AlreadyExists);
      }
      friends := friends - {(id, friendId)};
      feed := feed + [Event(id, friendId, Friend, Remove)];
      return Pass;
    }

    /** `getFriends`: the user must exist; the answer is a fresh list holding each friend once. */
    method GetFriends(id: int) returns (r: Result<seq<int>, Error>)
      ensures r.Failure? <==> id !in users
      ensures r.Failure? ==> r.error == UnknownUser
      ensures r.Success? ==> Distinct(r.value) && forall f :: f in r.value <==> f in FriendsOf(id)
      ensures r.Success? ==> |r.value| == |FriendsOf(id)|
    {
      var check := ValidateUser(users, id);
      if check.Fail? {
        return Failure(check.error);
      }
      var all := FriendsOf(id);
      var list: seq<int> := [];
      var remaining := all;
      while remaining != {}
        invariant remaining <= all
        invariant Distinct(list)
        invariant forall f :: f in list <==> f in all && f !in remaining
        invariant |list| + |remaining| == |all|
        decreases remaining
      {
        ghost var pick := Inhabitant(remaining);
        var f :| f in remaining;
        list := list + [f];
        remaining := remaining - {f};
      }
      return Success(list);
    }
  }

  /** Adding a friendship and then deleting it restores the relation, with two events in the
      feed. */
  method AddThenDelete(s: UserService, id: int, friendId: int)
    requires s.Valid() && id in s.users && friendId in s.users && friendId !in s.FriendsOf(id)
    modifies s
    ensures s.friends == old(s.friends)
    ensures s.feed == old(s.feed) + [Event(id, friendId, Friend, Add), Event(id, friendId, Friend, Remove)]
  {
    var added := s.AddFriend(id, friendId);
    var deleted := s.DeleteFriend(id, friendId);
    assert (id, friendId) !in old(s.friends) by {
      assert forall p :: p in old(s.friends) && p.0 == id ==> p.1 in old(s.FriendsOf(id));
    }
  }
}
