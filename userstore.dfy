/**
 * The user registry (server/stores/userStore.js): users by socket id, and an index from the
 * lowercased username to the socket id. A disconnected user keeps its record, and its name,
 * until it reconnects on a new socket or is cleaned up five minutes later.
 */
module UserStore {
  import opened Optional
  import opened Ordering
  import opened Text

  datatype User = User(
    socketId: string,
    username: string,
    lobbyId: Option<string>,
    gameId: Option<string>,
    isSpectator: bool,
    connectedAt: int,
    disconnectedAt: Option<int>)

  /** `user.disconnectedAt` as a condition: set, and not the falsy 0. */
  predicate Disconnected(u: User) {
    u.disconnectedAt.Some? && u.disconnectedAt.value != 0
  }

  /** `!user.gameId`: no game, or the falsy empty id. */
  predicate NoGame(u: User) {
    u.gameId.None? || u.gameId.value == ""
  }

  /** MAX_DISCONNECT_TIME, five minutes in milliseconds. */
  const MaxDisconnectTime: int := 5 * 60 * 1000

  /** Cleaned up at `now`: disconnected more than five minutes ago and in no game. */
  predicate Stale(u: User, now: int) {
    Disconnected(u) && now - u.disconnectedAt.value > MaxDisconnectTime && NoGame(u)
  }

  /** The fields callers pass to `updateUser`; an absent field is left as it is. */
  datatype Updates = Updates(lobbyId: Option<Option<string>>, gameId: Option<Option<string>>, isSpectator: Option<bool>)

  /** `Object.assign(user, updates)` */
  function Assign(u: User, up: Updates): (r: User)
    ensures r.socketId == u.socketId && r.username == u.username
    ensures r.lobbyId == (if up.lobbyId.Some? then up.lobbyId.value else u.lobbyId)
    ensures r.gameId == (if up.gameId.Some? then up.gameId.value else u.gameId)
    ensures r.isSpectator == (if up.isSpectator.Some? then up.isSpectator.value else u.isSpectator)
    ensures r.connectedAt == u.connectedAt && r.disconnectedAt == u.disconnectedAt
  {
    var a := if up.lobbyId.Some? then u.(lobbyId := up.lobbyId.value) else u;
    var b := if up.gameId.Some? then a.(gameId := up.gameId.value) else a;
    if up.isSpectator.Some? then b.(isSpectator := up.isSpectator.value) else b
  }

  /** The users under `keys`, in that order, that `keep` accepts. */
  function Listed(keys: seq<string>, users: map<string, User>, online: bool): (r: seq<User>)
    requires forall k <- keys :: k in users
    ensures forall u <- r :: (exists k <- keys :: users[k] == u) && (online ==> !Disconnected(u))
    ensures forall k <- keys :: (!online || !Disconnected(users[k])) ==> users[k] in r
  {
    if keys == [] then []
    else
      var init := keys[..|keys| - 1];
      var u := users[keys[|keys| - 1]];
      assert forall k <- keys :: k in init || k == keys[|keys| - 1];
      Listed(init, users, online) + (if !online || !Disconnected(u) then [u] else [])
  }

  /** The keys, in order, of the users cleaned up at `now`. */
  function StaleKeys(keys: seq<string>, users: map<string, User>, now: int): (r: seq<string>)
    requires forall k <- keys :: k in users
    ensures forall k <- r :: k in keys && Stale(users[k], now)
    ensures forall k <- keys :: Stale(users[k], now) ==> k in r
    ensures Distinct(keys) ==> Distinct(r)
  {
    if keys == [] then []
    else
      var init := keys[..|keys| - 1];
      var k := keys[|keys| - 1];
      assert forall j <- keys :: j in init || j == k;
      StaleKeys(init, users, now) + (if Stale(users[k], now) then [k] else [])
  }

  class UserStore {
    /** `users`: socket id to user. */
    var users: map<string, User>
    /** The keys of `users` in insertion order, the order the `Map` iterates in. */
    var order: seq<string>
    /** `usernameToSocketId`: lowercased username to socket id. */
    var index: map<string, string>

    ghost predicate Valid()
      reads this
    {
      Distinct(order) && (forall k :: k in order <==> k in users)
    }

    /** Every name in the index leads to a user of that name, under the socket id it is keyed by. */
    predicate Indexed()
      reads this
    {
      forall name <- index :: index[name] in users && Lower(users[index[name]].username) == name
                               && users[index[name]].socketId == index[name]
    }

    constructor()
      ensures Valid() && Indexed() && users == map[] && order == [] && index == map[]
    {
      users := map[];
      order := [];
      index := map[];
    }

    /** `users.set(socketId, user)`: a new key goes to the end of the iteration order. */
    method Put(socketId: string, u: User)
      requires Valid()
      modifies this
      ensures Valid() && index == old(index)
      ensures users == old(users)[socketId := u]
      ensures order == if socketId in old(users) then old(order) else old(order) + [socketId]
    {
      if socketId !in users {
        assert socketId !in order;
        order := order + [socketId];
      }
      users := users[socketId := u];
    }

    /** `users.delete(socketId)` */
    method Delete(socketId: string)
      requires Valid()
      modifies this
      ensures Valid() && index == old(index)
      ensures users == old(users) - {socketId}
      ensures order == Without(old(order), socketId)
    {
      WithoutDistinct(order, socketId);
      order := Without(order, socketId);
      users := users - {socketId};
    }

    /** addUser: stored under the socket and indexed under the lowercased name. */
    method AddUser(socketId: string, username: string, now: int) returns (u: User)
      requires Valid()
      modifies this
      ensures Valid()
      ensures u == User(socketId, username, None, None, false, now, None)
      ensures users == old(users)[socketId := u]
      ensures index == old(index)[Lower(username) := socketId]
      ensures order == if socketId in old(users) then old(order) else old(order) + [socketId]
      ensures socketId != "" ==> GetUserByUsername(username) == Some(u) && IsUsernameTaken(username)
    {
      u := User(socketId, username, None, None, false, now, None);
      Put(socketId, u);
      index := index[Lower(username) := socketId];
    }

    /** removeUser: the user and the index entry of its lowercased name go; the removed user is returned. */
    method RemoveUser(socketId: string) returns (r: Option<User>)
      requires Valid()
      modifies this
      ensures Valid()
      ensures r.None? <==> socketId !in old(users)
      ensures r.None? ==> users == old(users) && index == old(index) && order == old(order)
      ensures r.Some? ==> r.value == old(users)[socketId]
                          && users == old(users) - {socketId}
                          && index == old(index) - {Lower(r.value.username)}
                          && order == Without(old(order), socketId)
    {
      if socketId !in users {
        return None;
      }
      var u := users[socketId];
      index := index - {Lower(u.username)};
      Delete(socketId);
      r := Some(u);
    }

    /** getUser */
    function GetUser(socketId: string): (r: Option<User>)
      reads this
      ensures r.Some? <==> socketId in users
      ensures r.Some? ==> r.value == users[socketId]
    {
      if socketId in users then Some(users[socketId]) else None
    }

    /** getUserByUsername: through the index, whatever the case of the name; null for an unknown name. */
    function GetUserByUsername(username: string): (r: Option<User>)
      reads this
      ensures r.Some? <==> Lower(username) in index && index[Lower(username)] != "" && index[Lower(username)] in users
      ensures r.Some? ==> r.value == users[index[Lower(username)]]
    {
      var key := Lower(username);
      if key in index && index[key] != "" && index[key] in users then Some(users[index[key]]) else None
    }

    /** isUsernameTaken: only a connected user holds its name. */
    function IsUsernameTaken(username: string): (taken: bool)
      reads this
      ensures taken <==> GetUserByUsername(username).Some? && !Disconnected(GetUserByUsername(username).value)
    {
      var key := Lower(username);
      if key !in index || index[key] == "" then false
      else if index[key] !in users then false
      else !Disconnected(users[index[key]])
    }

    /** getDisconnectedUser: the user of that name when it is disconnected. */
    function GetDisconnectedUser(username: string): (r: Option<User>)
      reads this
      ensures r.Some? <==> GetUserByUsername(username).Some? && Disconnected(GetUserByUsername(username).value)
      ensures r.Some? ==> r == GetUserByUsername(username)
    {
      var key := Lower(username);
      if key !in index || index[key] == "" then None
      else if index[key] in users && Disconnected(users[index[key]]) then Some(users[index[key]])
      else None
    }

    /** Names that differ only in the case of ASCII letters find the same user and are taken together. */
    lemma NameIgnoresCase(a: string, b: string)
      requires SameIgnoringCase(a, b)
      ensures GetUserByUsername(a) == GetUserByUsername(b)
      ensures IsUsernameTaken(a) == IsUsernameTaken(b)
      ensures GetDisconnectedUser(a) == GetDisconnectedUser(b)
    {
      LowerKeyIff(a, b);
    }

    /** updateUser: the given fields are assigned; null for an unknown socket. */
    method UpdateUser(socketId: string, updates: Updates) returns (r: Option<User>)
      requires Valid()
      modifies this
      ensures Valid() && index == old(index) && order == old(order)
      ensures r.None? <==> socketId !in old(users)
      ensures r.None? ==> users == old(users)
      ensures r.Some? ==> r.value == Assign(old(users)[socketId], updates) && users == old(users)[socketId := r.value]
    {
      if socketId !in users {
        return None;
      }
      var u := Assign(users[socketId], updates);
      Put(socketId, u);
      r := Some(u);
    }

    /** getAllUsers, in insertion order. */
    method GetAllUsers() returns (r: seq<User>)
      requires Valid()
      ensures r == Listed(order, users, false)
      ensures forall k <- users :: users[k] in r
    {
      r := Listed(order, users, false);
    }

    /** getOnlineUsers: exactly the users not disconnected, in insertion order. */
    method GetOnlineUsers() returns (r: seq<User>)
      requires Valid()
      ensures r == Listed(order, users, true)
      ensures forall u <- r :: u in users.Values && !Disconnected(u)
      ensures forall k <- users :: !Disconnected(users[k]) ==> users[k] in r
    {
      r := Listed(order, users, true);
      forall u <- r ensures u in users.Values {
        var k :| k in order && users[k] == u;
      }
    }

    /** setUserDisconnected: the clock is recorded; null for an unknown socket. */
    method SetUserDisconnected(socketId: string, now: int) returns (r: Option<User>)
      requires Valid()
      modifies this
      ensures Valid() && index == old(index) && order == old(order)
      ensures r.None? <==> socketId !in old(users)
      ensures r.None? ==> users == old(users)
      ensures r.Some? ==> r.value == old(users)[socketId].(disconnectedAt := Some(now)) && users == old(users)[socketId := r.value]
      ensures r.Some? && now != 0 && GetUserByUsername(r.value.username) == r ==>
        !IsUsernameTaken(r.value.username) && GetDisconnectedUser(r.value.username) == r
    {
      if socketId !in users {
        return None;
      }
      var u := users[socketId].(disconnectedAt := Some(now));
      Put(socketId, u);
      r := Some(u);
    }

    /** setUserReconnected: the disconnection time is cleared; null for an unknown socket. */
    method SetUserReconnected(socketId: string) returns (r: Option<User>)
      requires Valid()
      modifies this
      ensures Valid() && index == old(index) && order == old(order)
      ensures r.None? <==> socketId !in old(users)
      ensures r.None? ==> users == old(users)
      ensures r.Some? ==> r.value == old(users)[socketId].(disconnectedAt := None) && users == old(users)[socketId := r.value]
    {
      if socketId !in users {
        return None;
      }
      var u := users[socketId].(disconnectedAt := None);
      Put(socketId, u);
      r := Some(u);
    }

    /**
     * transferUser: the record moves from the old socket to the new one (to the end of the
     * iteration order unless the new socket was already a key), is marked connected, and its
     * lowercased name now leads to the new socket. Null for an unknown old socket.
     */
    method TransferUser(oldSocketId: string, newSocketId: string) returns (r: Option<User>)
      requires Valid()
      modifies this
      ensures Valid()
      ensures r.None? <==> oldSocketId !in old(users)
      ensures r.None? ==> users == old(users) && index == old(index) && order == old(order)
      ensures r.Some? ==>
        && r.value == old(users)[oldSocketId].(socketId := newSocketId, disconnectedAt := None)
        && users == (old(users) - {oldSocketId})[newSocketId := r.value]
        && index == old(index)[Lower(r.value.username) := newSocketId]
        && order == if newSocketId in old(users) - {oldSocketId} then Without(old(order), oldSocketId)
                    else Without(old(order), oldSocketId) + [newSocketId]
      ensures r.Some? && newSocketId != "" ==>
        GetUserByUsername(r.value.username) == r && IsUsernameTaken(r.value.username)
    {
      if oldSocketId !in users {
        return None;
      }
      var u := users[oldSocketId];
      Delete(oldSocketId);
      u := u.(socketId := newSocketId, disconnectedAt := None);
      Put(newSocketId, u);
      index := index[Lower(u.username) := newSocketId];
      r := Some(u);
    }

    /** The first loop of cleanupDisconnectedUsers: the stale socket ids, in iteration order. */
    method CollectStale(now: int) returns (ids: seq<string>)
      requires Valid()
      ensures ids == StaleKeys(order, users, now)
    {
      ids := [];
      for i := 0 to |order|
        invariant ids == StaleKeys(order[..i], users, now)
      {
        assert order[..i + 1][..i] == order[..i];
        if Stale(users[order[i]], now) {
          ids := ids + [order[i]];
        }
      }
      assert order[..|order|] == order;
    }

    /** The second loop of cleanupDisconnectedUsers: `removeUser` on each id in turn. */
    method RemoveEach(ids: seq<string>)
      requires Valid() && Distinct(ids)
      modifies this
      ensures Valid()
      ensures users == RemovedUsers(old(users), ids)
      ensures index == RemovedNames(old(index), old(users), ids)
      ensures order == Excluding(old(order), ids)
    {
      ghost var users0, index0, order0 := users, index, order;
      ExcludingNone(order0);
      assert ids[..0] == [];
      for j := 0 to |ids|
        invariant Valid()
        invariant RemovedAfter(users0, index0, order0, ids[..j], users, index, order)
      {
        ghost var users1, index1, order1 := users, index, order;
        var r := RemoveUser(ids[j]);
        RemovalStep(users0, index0, order0, ids, j, users1, index1, order1, r, users, index, order);
      }
      assert ids[..|ids|] == ids;
    }

    /**
     * cleanupDisconnectedUsers: the users stale at `now` are collected in iteration order,
     * then removed one by one with their names; the count is returned.
     */
    method CleanupDisconnectedUsers(now: int) returns (count: nat)
      requires Valid()
      modifies this
      ensures Valid()
      ensures var gone := StaleKeys(old(order), old(users), now);
        && count == |gone|
        && users == RemovedUsers(old(users), gone)
        && index == RemovedNames(old(index), old(users), gone)
        && order == Excluding(old(order), gone)
    {
      var usersToRemove := CollectStale(now);
      StaleKeysDistinct(order, users, now);
      RemoveEach(usersToRemove);
      count := |usersToRemove|;
    }
  }

  /** The user map once `keys` were removed in turn. */
  function RemovedUsers(users: map<string, User>, keys: seq<string>): map<string, User> {
    if keys == [] then users else RemovedUsers(users, keys[..|keys| - 1]) - {keys[|keys| - 1]}
  }

  /** The index once the users under `keys` were removed in turn, each taking its lowercased name. */
  function RemovedNames(index: map<string, string>, users: map<string, User>, keys: seq<string>): map<string, string> {
    if keys == [] then index
    else
      var k := keys[|keys| - 1];
      var rest := RemovedNames(index, users, keys[..|keys| - 1]);
      if k in users then rest - {Lower(users[k].username)} else rest
  }

  /** `order` with the ids in `keys` left out, the others kept in their order. */
  function Excluding(order: seq<string>, keys: seq<string>): (r: seq<string>)
    ensures forall k <- r :: k in order && k !in keys
    ensures forall k <- order :: k !in keys ==> k in r
  {
    if order == [] then [] else (if order[0] in keys then [] else [order[0]]) + Excluding(order[1..], keys)
  }

  lemma {:induction false} ExcludingNone(order: seq<string>)
    ensures Excluding(order, []) == order
  {
    if order != [] {
      ExcludingNone(order[1..]);
      assert order == [order[0]] + order[1..];
    }
  }

  /** Deleting one more key from the Map drops it from what is left of the order. */
  lemma {:induction false} ExcludingStep(order: seq<string>, keys: seq<string>, x: string)
    ensures Without(Excluding(order, keys), x) == Excluding(order, keys + [x])
  {
    if order != [] {
      ExcludingStep(order[1..], keys, x);
      var head := if order[0] in keys then [] else [order[0]];
      var tail := Excluding(order[1..], keys);
      WithoutConcat(head, tail, x);
      assert Without(head, x) == if order[0] in keys + [x] then [] else [order[0]];
    }
  }

  lemma {:induction false} WithoutConcat(a: seq<string>, b: seq<string>, x: string)
    ensures Without(a + b, x) == Without(a, x) + Without(b, x)
  {
    if a == [] {
      assert a + b == b;
    } else {
      var h, t := a[0], a[1..];
      WithoutConcat(t, b, x);
      ConsSplit(a, b);
      WithoutCons(h, t, x);
      WithoutCons(h, t + b, x);
    }
  }

  lemma ConsSplit(a: seq<string>, b: seq<string>)
    requires a != []
    ensures a == [a[0]] + a[1..] && a + b == [a[0]] + (a[1..] + b)
  {
  }

  lemma {:induction false} WithoutAbsent(s: seq<string>, x: string)
    ensures x !in s ==> Without(s, x) == s
  {
    if s != [] && x !in s {
      WithoutAbsent(s[1..], x);
      WithoutCons(s[0], s[1..], x);
      assert s == [s[0]] + s[1..];
    }
  }

  /** The users, the name index and the iteration order once the users under `keys` were removed in turn. */
  predicate RemovedAfter(users0: map<string, User>, index0: map<string, string>, order0: seq<string>,
                         keys: seq<string>, users: map<string, User>, index: map<string, string>, order: seq<string>)
  {
    && users == RemovedUsers(users0, keys)
    && index == RemovedNames(index0, users0, keys)
    && order == Excluding(order0, keys)
  }

  /** One `removeUser(ids[j])`, as RemoveUser states it, moves the removal on by one id. */
  lemma RemovalStep(users0: map<string, User>, index0: map<string, string>, order0: seq<string>, ids: seq<string>,
                    j: nat, users1: map<string, User>, index1: map<string, string>, order1: seq<string>,
                    r: Option<User>, users: map<string, User>, index: map<string, string>, order: seq<string>)
    requires j < |ids| && Distinct(ids)
    requires RemovedAfter(users0, index0, order0, ids[..j], users1, index1, order1)
    requires forall k :: k in order1 <==> k in users1
    requires r.None? <==> ids[j] !in users1
    requires r.None? ==> users == users1 && index == index1 && order == order1
    requires r.Some? ==> (r.value == users1[ids[j]] && users == users1 - {ids[j]}
                          && index == index1 - {Lower(r.value.username)} && order == Without(order1, ids[j]))
    ensures RemovedAfter(users0, index0, order0, ids[..j + 1], users, index, order)
  {
    PrefixStep(ids, j);
    RemovedUsersSpec(users0, ids[..j]);
    assert ids[j] !in ids[..j];
    ExcludingStep(order0, ids[..j], ids[j]);
    WithoutAbsent(order1, ids[j]);
  }

  lemma PrefixStep(ids: seq<string>, j: nat)
    requires j < |ids|
    ensures ids[..j + 1] == ids[..j] + [ids[j]] && ids[..j + 1][..j] == ids[..j]
  {
  }

  lemma WithoutCons(h: string, t: seq<string>, x: string)
    ensures Without([h] + t, x) == (if h == x then [] else [h]) + Without(t, x)
  {
    assert ([h] + t)[0] == h && ([h] + t)[1..] == t;
  }

  lemma StaleKeysDistinct(keys: seq<string>, users: map<string, User>, now: int)
    requires forall k <- keys :: k in users
    requires Distinct(keys)
    ensures Distinct(StaleKeys(keys, users, now))
  {
  }

  /** Removing keys in turn removes exactly those keys. */
  lemma {:induction false} RemovedUsersSpec(users: map<string, User>, keys: seq<string>)
    ensures RemovedUsers(users, keys) == users - (set k | k in keys)
  {
    if keys != [] {
      var init := keys[..|keys| - 1];
      RemovedUsersSpec(users, init);
      assert (set k | k in keys) == (set k | k in init) + {keys[|keys| - 1]};
    }
  }

  /**
   * Cleanup removes exactly the users disconnected more than five minutes ago with no game,
   * counts them, and keeps every other user unchanged.
   */
  lemma CleanupRemovesStale(order: seq<string>, users: map<string, User>, now: int)
    requires Distinct(order) && forall k :: k in order <==> k in users
    ensures var gone := StaleKeys(order, users, now);
      var after := RemovedUsers(users, gone);
      && (forall k :: k in after <==> k in users && !Stale(users[k], now))
      && (forall k <- after :: after[k] == users[k])
      && |gone| == |set k | k in users && Stale(users[k], now)|
  {
    var gone := StaleKeys(order, users, now);
    RemovedUsersSpec(users, gone);
    StaleKeysDistinct(order, users, now);
    var s := set k | k in users && Stale(users[k], now);
    assert (set k | k in gone) == s;
    DistinctCard(gone);
  }

  lemma {:induction false} DistinctCard(s: seq<string>)
    requires Distinct(s)
    ensures |set k | k in s| == |s|
  {
    if s != [] {
      var init := s[..|s| - 1];
      assert Distinct(init);
      DistinctCard(init);
      assert (set k | k in s) == (set k | k in init) + {s[|s| - 1]};
      assert s[|s| - 1] !in (set k | k in init);
    }
  }
}
