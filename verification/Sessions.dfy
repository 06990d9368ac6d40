/** Login sessions and the per-user index over them. */
module Sessions {

  import opened Sorting
  import opened Wrappers

  datatype Session = Session(id: string, user: string, role: string, createdAt: int, expiresAt: int) {
    predicate IsExpired(now: int) {
      now > expiresAt
    }

    predicate IsValid(now: int) {
      id != "" && user != "" && !IsExpired(now)
    }
  }

  datatype SessionError = ErrInvalidSession | ErrSessionNotFound | ErrSessionExpired

  type SessionMap = map<string, Session>
  type UserIndex = map<string, set<string>>

  ghost predicate Stored(sessions: SessionMap) {
    forall id :: id in sessions ==> sessions[id].id == id && id != "" && sessions[id].user != ""
  }

  /** The ids a full scan finds for a user. */
  ghost function Scan(sessions: SessionMap, user: string): set<string> {
    set id | id in sessions && sessions[id].user == user
  }

  function Bucket(index: UserIndex, user: string): set<string> {
    if user in index then index[user] else {}
  }

  /** Each user's bucket is what a full scan finds, and there are no empty buckets. */
  ghost predicate Inverse(sessions: SessionMap, index: UserIndex) {
    (forall user :: user in index ==> index[user] != {})
    && forall user, id :: id in Bucket(index, user) <==> id in sessions && sessions[id].user == user
  }

  lemma BucketIsScan(sessions: SessionMap, index: UserIndex, user: string)
    requires Inverse(sessions, index)
    ensures Bucket(index, user) == Scan(sessions, user)
    ensures user in index <==> exists id :: id in sessions && sessions[id].user == user
  {
    assert user in index <==> Bucket(index, user) != {};
    if user in index {
      var id :| id in index[user];
      assert id in Bucket(index, user);
    }
  }

  lemma InverseIsUnique(sessions: SessionMap, a: UserIndex, b: UserIndex)
    requires Inverse(sessions, a) && Inverse(sessions, b)
    ensures a == b
  {
    forall user
      ensures (user in a <==> user in b) && (user in a ==> a[user] == b[user])
    {
      BucketIsScan(sessions, a, user);
      BucketIsScan(sessions, b, user);
    }
  }

  function IndexWithout(index: UserIndex, user: string, id: string): UserIndex {
    if user !in index then index
    else if index[user] - {id} == {} then index - {user}
    else index[user := index[user] - {id}]
  }

  lemma RemoveKeepsInverse(sessions: SessionMap, index: UserIndex, id: string)
    requires Inverse(sessions, index) && id in sessions
    ensures Inverse(sessions - {id}, IndexWithout(index, sessions[id].user, id))
  {
    var user := sessions[id].user;
    forall u
      ensures Bucket(IndexWithout(index, user, id), u) == Bucket(index, u) - if u == user then {id} else {}
    {
    }
  }

  lemma AddKeepsInverse(sessions: SessionMap, index: UserIndex, session: Session)
    requires Inverse(sessions, index) && session.id !in sessions
    ensures Inverse(sessions[session.id := session], index[session.user := Bucket(index, session.user) + {session.id}])
  {
    var bucket := Bucket(index, session.user) + {session.id};
    var after := index[session.user := bucket];
    assert session.id in bucket;
    assert after[session.user] != {};
    forall user, id
      ensures id in Bucket(after, user) <==>
              id in Bucket(index, user) || (user == session.user && id == session.id)
    {
    }
  }

  class MemorySessionStore {
    var sessions: SessionMap
    var userIndex: UserIndex

    constructor ()
      ensures Valid() && sessions == map[]
    {
      sessions, userIndex := map[], map[];
    }

    ghost predicate Valid()
      reads this
    {
      Stored(sessions) && Inverse(sessions, userIndex)
    }

    method Create(session: Session) returns (r: Result<(), SessionError>)
      requires Valid()
      modifies this
      ensures Valid()
      ensures r == if session.id != "" && session.user != "" && session.id !in old(sessions) then Ok(())
                   else Err(ErrInvalidSession)
      ensures sessions == if r.Ok? then old(sessions)[session.id := session] else old(sessions)
    {
      if session.id == "" || session.user == "" || session.id in sessions {
        return Err(ErrInvalidSession);
      }
      AddKeepsInverse(sessions, userIndex, session);
      sessions := sessions[session.id := session];
      userIndex := userIndex[session.user := Bucket(userIndex, session.user) + {session.id}];
      r := Ok(());
    }

    method Get(id: string, now: int) returns (r: Result<Option<Session>, SessionError>)
      ensures r == if id == "" || id !in sessions then Ok(None)
                   else if sessions[id].expiresAt < now then Err(ErrSessionExpired) else Ok(Some(sessions[id]))
    {
      if id == "" || id !in sessions {
        return Ok(None);
      }
      r := if sessions[id].IsExpired(now) then Err(ErrSessionExpired) else Ok(Some(sessions[id]));
    }

    method Delete(id: string) returns (r: Result<(), SessionError>)
      requires Valid()
      modifies this
      ensures Valid()
      ensures r == if id in old(sessions) then Ok(()) else Err(ErrSessionNotFound)
      ensures sessions == old(sessions) - {id}
    {
      if id == "" || id !in sessions {
        assert sessions == sessions - {id};
        return Err(ErrSessionNotFound);
      }
      Forget(id);
      r := Ok(());
    }

    /** Removes a session from its bucket, and the bucket when it empties. */
    method Forget(id: string)
      requires Valid() && id in sessions
      modifies this
      ensures Valid() && sessions == old(sessions) - {id}
    {
      RemoveKeepsInverse(sessions, userIndex, id);
      userIndex := IndexWithout(userIndex, sessions[id].user, id);
      sessions := sessions - {id};
    }

    /** Deletion through the index removes exactly what a full scan would. */
    method DeleteByUserID(user: string)
      requires Valid()
      modifies this
      ensures Valid()
      ensures sessions == map id | id in old(sessions) && old(sessions)[id].user != user :: old(sessions)[id]
    {
      BucketIsScan(sessions, userIndex, user);
      if user == "" || user !in userIndex {
        return;
      }
      var todo := userIndex[user];
      while todo != {}
        invariant todo <= Scan(old(sessions), user) && userIndex == old(userIndex)
        invariant sessions == old(sessions) - (Scan(old(sessions), user) - todo)
      {
        var id :| id in todo;
        sessions := sessions - {id};
        todo := todo - {id};
      }
      userIndex := userIndex - {user};
      forall u
        ensures Bucket(userIndex, u) == if u == user then {} else Bucket(old(userIndex), u)
      {
      }
    }

    /** The unexpired sessions of a user, in the order of a Go map: any order. */
    method ListByUserID(user: string, now: int) returns (list: seq<Session>)
      requires Valid()
      ensures Distinct(list)
      ensures forall s :: s in list <==> s.id in sessions && sessions[s.id] == s && s.user == user && now <= s.expiresAt
    {
      list := [];
      var todo := sessions.Keys;
      while todo != {}
        invariant todo <= sessions.Keys && Distinct(list)
        invariant forall s :: s in list <==>
          s.id in sessions && s.id !in todo && sessions[s.id] == s && s.user == user && s.IsValid(now)
      {
        var id :| id in todo;
        todo := todo - {id};
        if sessions[id].user == user && sessions[id].IsValid(now) {
          list := list + [sessions[id]];
        }
      }
    }

    method Cleanup(now: int) returns (count: nat)
      requires Valid()
      modifies this
      ensures Valid()
      ensures sessions == map id | id in old(sessions) && now <= old(sessions)[id].expiresAt :: old(sessions)[id]
      ensures count == |set id | id in old(sessions) && old(sessions)[id].expiresAt < now|
    {
      count := 0;
      var todo := sessions.Keys;
      ghost var gone: set<string> := {};
      while todo != {}
        invariant Valid() && todo <= sessions.Keys
        invariant sessions == old(sessions) - gone && count == |gone|
        invariant forall id :: id in gone ==> id in old(sessions) && id !in todo
        invariant forall id :: id in old(sessions) && id !in todo ==> (id in gone <==> old(sessions)[id].expiresAt < now)
      {
        var id :| id in todo;
        todo := todo - {id};
        if sessions[id].IsExpired(now) {
          Forget(id);
          count := count + 1;
          gone := gone + {id};
        }
      }
      assert gone == set id | id in old(sessions) && old(sessions)[id].expiresAt < now;
    }

    method CountByUser(user: string) returns (n: nat)
      requires Valid()
      ensures n == |Scan(sessions, user)|
    {
      BucketIsScan(sessions, userIndex, user);
      n := if user in userIndex then |userIndex[user]| else 0;
    }
  }

  // ---------------------------------------------------------------- the cap enforced at login

  predicate Older(a: Session, b: Session) {
    a.createdAt < b.createdAt
  }

  function Created(s: Session): int {
    s.createdAt
  }

  /** The ids of a user's unexpired sessions. */
  ghost function Unexpired(sessions: SessionMap, user: string, now: int): set<string> {
    set id | id in sessions && sessions[id].user == user && now <= sessions[id].expiresAt
  }

  /** `victims` are the unexpired sessions above the cap, and no survivor is older than one of them. */
  ghost predicate Excess(sessions: SessionMap, user: string, now: int, cap: nat, victims: set<string>) {
    var all := Unexpired(sessions, user, now);
    victims <= all
    && |victims| == (if |all| > cap then |all| - cap else 0)
    && forall v, s :: v in victims && s in all - victims ==> sessions[v].createdAt <= sessions[s].createdAt
  }

  ghost predicate Capped(was: SessionMap, sessions: SessionMap, user: string, now: int, cap: nat) {
    exists victims :: Excess(was, user, now, cap, victims) && sessions == was - victims
  }

  /** Sorts the unexpired sessions oldest first and deletes the excess. */
  method EvictOldest(store: MemorySessionStore, user: string, now: int, cap: nat)
    requires store.Valid()
    modifies store
    ensures store.Valid()
    ensures Capped(old(store.sessions), store.sessions, user, now, cap)
  {
    var list := store.ListByUserID(user, now);
    ListedCount(store.sessions, user, now, list);
    ghost var was := store.sessions;
    if |list| > cap {
      var sorted := StableSort(list, Older);
      SortedListing(was, user, now, list);
      OldestAreExcess(was, user, now, cap, sorted);
      DeleteAll(store, sorted[..|sorted| - cap]);
    } else {
      assert Excess(was, user, now, cap, {});
      assert was - {} == was;
    }
  }

  method DeleteAll(store: MemorySessionStore, list: seq<Session>)
    requires store.Valid()
    modifies store
    ensures store.Valid()
    ensures store.sessions == old(store.sessions) - Ids(list)
  {
    for i := 0 to |list|
      invariant store.Valid() && store.sessions == old(store.sessions) - Ids(list[..i])
    {
      var gone := store.Delete(list[i].id);
      assert Ids(list[..i + 1]) == Ids(list[..i]) + {list[i].id};
    }
    assert list[..|list|] == list;
  }

  lemma SortedListing(sessions: SessionMap, user: string, now: int, list: seq<Session>)
    requires ListsUnexpired(sessions, user, now, list)
    ensures ListsUnexpired(sessions, user, now, StableSort(list, Older)) && SortedBy(StableSort(list, Older), Created)
  {
    SortSorts(list, Older, Created);
    SameElements(list, StableSort(list, Older));
    DistinctRearranged(list, StableSort(list, Older));
  }

  ghost function Ids(list: seq<Session>): set<string> {
    set s | s in list :: s.id
  }

  ghost predicate ListsUnexpired(sessions: SessionMap, user: string, now: int, list: seq<Session>) {
    Distinct(list)
    && forall s :: s in list <==> s.id in sessions && sessions[s.id] == s && s.user == user && now <= s.expiresAt
  }

  lemma {:induction false} IdsSize(list: seq<Session>)
    requires forall i, j :: 0 <= i < j < |list| ==> list[i].id != list[j].id
    ensures |Ids(list)| == |list|
  {
    if list != [] {
      var n := |list| - 1;
      IdsSize(list[..n]);
      assert Ids(list) == Ids(list[..n]) + {list[n].id};
    }
  }

  lemma ListedIds(sessions: SessionMap, user: string, now: int, list: seq<Session>)
    requires Stored(sessions) && ListsUnexpired(sessions, user, now, list)
    ensures forall i, j :: 0 <= i < j < |list| ==> list[i].id != list[j].id
    ensures Ids(list) == Unexpired(sessions, user, now)
  {
    forall i, j | 0 <= i < j < |list|
      ensures list[i].id != list[j].id
    {
      assert list[i] in list && list[j] in list;
    }
    forall id
      ensures id in Ids(list) <==> id in Unexpired(sessions, user, now)
    {
      if id in Unexpired(sessions, user, now) {
        assert sessions[id] in list;
      }
    }
  }

  lemma ListedCount(sessions: SessionMap, user: string, now: int, list: seq<Session>)
    requires Stored(sessions) && ListsUnexpired(sessions, user, now, list)
    ensures |list| == |Unexpired(sessions, user, now)|
  {
    ListedIds(sessions, user, now, list);
    IdsSize(list);
  }

  lemma OldestAreExcess(sessions: SessionMap, user: string, now: int, cap: nat, sorted: seq<Session>)
    requires Stored(sessions) && ListsUnexpired(sessions, user, now, sorted) && SortedBy(sorted, Created)
    requires |sorted| > cap
    ensures Excess(sessions, user, now, cap, Ids(sorted[..|sorted| - cap]))
  {
    var excess := |sorted| - cap;
    ListedIds(sessions, user, now, sorted);
    IdsSize(sorted);
    IdsSize(sorted[..excess]);
    var all, victims := Unexpired(sessions, user, now), Ids(sorted[..excess]);
    forall v, s | v in victims && s in all - victims
      ensures sessions[v].createdAt <= sessions[s].createdAt
    {
      var i :| 0 <= i < excess && sorted[i].id == v;
      assert s in Ids(sorted);
      var j :| 0 <= j < |sorted| && sorted[j].id == s;
      assert forall k :: 0 <= k < excess ==> sorted[k] in sorted[..excess];
      assert sorted[i] in sorted && sorted[j] in sorted && j >= excess;
      assert Created(sorted[i]) <= Created(sorted[j]);
    }
  }

  /** At most `cap` unexpired sessions remain, the most recent ones; nothing else changes. */
  lemma CappedMeaning(was: SessionMap, sessions: SessionMap, user: string, now: int, cap: nat)
    requires Capped(was, sessions, user, now, cap)
    ensures var all, left := Unexpired(was, user, now), Unexpired(sessions, user, now);
      left <= all && |left| == (if |all| > cap then cap else |all|)
      && forall gone, kept :: gone in all - left && kept in left ==> was[gone].createdAt <= was[kept].createdAt
    ensures forall id :: id in was && !(was[id].user == user && now <= was[id].expiresAt) ==> id in sessions
    ensures forall id :: id in sessions ==> id in was && sessions[id] == was[id]
  {
    var victims :| Excess(was, user, now, cap, victims) && sessions == was - victims;
    var all, left := Unexpired(was, user, now), Unexpired(sessions, user, now);
    assert left == all - victims;
    assert all == left + victims;
  }

  /** A strictly newest session survives. */
  lemma NewestSurvives(was: SessionMap, sessions: SessionMap, user: string, now: int, cap: nat, id: string)
    requires Capped(was, sessions, user, now, cap) && cap >= 1 && id in Unexpired(was, user, now)
    requires forall other :: other in Unexpired(was, user, now) && other != id ==> was[other].createdAt < was[id].createdAt
    ensures id in sessions
  {
    CappedMeaning(was, sessions, user, now, cap);
    var left := Unexpired(sessions, user, now);
    assert left != {};
    var kept :| kept in left;
    assert kept == id || was[kept].createdAt < was[id].createdAt;
    assert id in Unexpired(was, user, now) - left <==> id !in left;
  }
}
