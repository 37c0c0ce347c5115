/** `InMemoryUserStorage`: users kept in a map under ids drawn from a counter; a user stored
    without a name is named after the login. */
module InMemoryUserStorage {
  import opened Wrappers
  import opened Exceptions
  import opened Users
  import opened Collections

  class InMemoryUserStorage {
    var users: map<int, User>
    var id: int

    /** Every key was drawn from the counter, so it lies in 1..id, and the user stored under a
        key carries that key as its id and has a name. */
    ghost predicate Valid()
      reads this
    {
      && id >= 0
      && forall k :: k in users ==> 1 <= k <= id && users[k].id == Some(k) && users[k].name.Some?
    }

    /** An empty storage whose counter starts at 0. */
    constructor ()
      ensures users == map[] && id == 0
      ensures Valid()
    {
      users := map[];
      id := 0;
    }

    /** `createUser`: a user whose id is already a key is refused; otherwise a missing name is
      replaced by the login, the counter is advanced and the user is stored under the new id,
      which it now carries. */
    method CreateUser(user: User) returns (r: Result<User, Error>)
      requires Valid()
      modifies this
      ensures Valid()
      ensures r.Failure? <==> user.id.Some? && user.id.value in old(users)
      ensures r.Failure? ==> r.error == AlreadyExists && users == old(users) && id == old(id)
      ensures r.Success? ==> id == old(id) + 1 && r.value == CheckPresenceUserName(user).(id := Some(id))
      ensures r.Success? ==> id !in old(users) && users == old(users)[id := r.value]
      ensures r.Success? ==> |users| == |old(users)| + 1
      ensures r.Success? ==> forall k :: k in old(users) ==> k < id
    {
      if user.id.Some? && user.id.value in users {
        return Failure(AlreadyExists);
      }
      var named := CheckPresenceUserName(user);
      id := id + 1;
      var stored := named.(id := Some(id));
      users := users[id := stored];
      return Success(stored);
    }

    /** `updateUser`: a user without an id or with an unknown id is refused; otherwise a missing
      name is replaced by the login and the user replaces the one under its id. */
    method UpdateUser(user: User) returns (r: Result<User, Error>)
      requires Valid()
      modifies this
      ensures Valid()
      ensures id == old(id)
      ensures r.Failure? <==> !(user.id.Some? && user.id.value in old(users))
      ensures r.Failure? ==> r.error == UnknownUser && users == old(users)
      ensures r.Success? ==> r.value == CheckPresenceUserName(user)
      ensures r.Success? ==> users == old(users)[user.id.value := r.value]
      ensures r.Success? ==> users.Keys == old(users.Keys)
    {
      if !(user.id.Some? && user.id.value in users) {
        return Failure(UnknownUser);
      }
      var named := CheckPresenceUserName(user);
      users := users[user.id.value := named];
      return Success(named);
    }

    /** `getUsers`: a fresh list of every stored user, one entry per key. */
    method GetUsers() returns (list: seq<User>)
      requires Valid()
      ensures |list| == |users.Keys|
      ensures forall k :: k in users ==> users[k] in list
      ensures forall u :: u in list ==> u in users.Values
      ensures forall i, j :: 0 <= i < j < |list| ==> list[i] != list[j]
    {
      list := [];
      var remaining := users.Keys;
      while remaining != {}
        invariant remaining <= users.Keys
        invariant |list| + |remaining| == |users.Keys|
        invariant forall k :: k in users && k !in remaining ==> users[k] in list
        invariant forall i :: 0 <= i < |list| ==>
          list[i].id.Some? && list[i].id.value in users && list[i].id.value !in remaining && users[list[i].id.value] == list[i]
        invariant forall i, j :: 0 <= i < j < |list| ==> list[i] != list[j]
        decreases remaining
      {
        ghost var pick := Inhabitant(remaining);
        var k :| k in remaining;
        list := list + [users[k]];
        remaining := remaining - {k};
      }
    }

    /** `getUserById`: the user stored under the id, or `UnknownUser` when there is none. */
    function GetUserById(userId: int): (r: Result<User, Error>)
      requires Valid()
      reads this
      ensures r.Success? <==> userId in users
      ensures r.Success? ==> r.value in users.Values && r.value.id == Some(userId)
      ensures r.Failure? ==> r.error == UnknownUser
    {
      if userId in users then Success(users[userId]) else Failure(UnknownUser)
    }
  }

  /** A user created without a name is stored under id 1, named after the login. */
  method CreateNamelessUser(u: User) returns (created: Result<User, Error>, found: Result<User, Error>)
    requires u.id.None? && u.name.None?
    ensures created == Success(u.(id := Some(1), name := Some(u.login)))
    ensures found == created
  {
    var storage := new InMemoryUserStorage();
    created := storage.CreateUser(u);
    found := storage.GetUserById(1);
  }
}
