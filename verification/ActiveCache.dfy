/** The cache of account states behind session requests, with requests interleaved step by step. */
module ActiveCache {

  import opened UserStore
  import opened Wrappers

  /** `activeStatusCacheTTL`. */
  const TTL: nat := 30

  datatype Entry = Entry(active: bool, checkedAt: int)

  type Entries = map<string, Entry>

  /** The cached state, if it is young enough; a TTL of 0 always misses. */
  function Look(entries: Entries, user: string, ttl: nat, now: int): Option<bool> {
    if user !in entries || (ttl > 0 && now - entries[user].checkedAt > ttl) || ttl == 0 then None
    else Some(entries[user].active)
  }

  class UserActiveCache {
    var entries: Entries

    constructor ()
      ensures entries == map[]
    {
      entries := map[];
    }

    method Check(user: string, ttl: nat, now: int) returns (isActive: bool, hit: bool)
      ensures hit <==> Look(entries, user, ttl, now).Some?
      ensures hit ==> isActive == Look(entries, user, ttl, now).value
      ensures !hit ==> !isActive
    {
      if user !in entries {
        return false, false;
      }
      var entry := entries[user];
      if ttl > 0 && now - entry.checkedAt > ttl {
        return false, false;
      }
      if ttl == 0 {
        return false, false;
      }
      return entry.active, true;
    }

    method Set(user: string, isActive: bool, now: int)
      modifies this
      ensures entries == old(entries)[user := Entry(isActive, now)]
    {
      entries := entries[user := Entry(isActive, now)];
    }
  }

  /** The session branch of the middleware, uninterrupted: cached answers first, the user store on a miss. */
  method AdmitSession(cache: UserActiveCache, store: MemoryUserStore, user: string, now: int, later: int)
    returns (admitted: bool)
    modifies cache
    ensures match Look(old(cache.entries), user, TTL, now)
      case Some(active) => admitted == active && cache.entries == old(cache.entries)
      case None =>
        if user != "" && user in store.users then
          admitted == store.users[user].active && cache.entries == old(cache.entries)[user := Entry(admitted, later)]
        else !admitted && cache.entries == old(cache.entries)
  {
    var isActive, hit := cache.Check(user, TTL, now);
    if hit {
      return isActive;
    }
    var found := store.GetByID(user);
    if found.None? {
      return false;
    }
    cache.Set(user, found.value.active, later);
    admitted := found.value.active;
  }

  // ---------------------------------------------------------------- interleaved requests

  datatype Fetch = Fetch(user: string, active: bool, at: int)

  /** The user store said at this time that the user was active. */
  datatype Report = Report(user: string, at: int)

  datatype Admission = Admission(user: string, at: int)

  /** Requests that missed wait for a lookup; requests that looked up wait to store the answer. */
  datatype State = State(
    users: map<string, bool>, entries: Entries, missed: map<nat, string>, fetched: map<nat, Fetch>, now: int,
    ghost reports: set<Report>, ghost admitted: set<Admission>)

  datatype Event =
    | Change(user: string, active: bool, at: int)   // an account is created, enabled or disabled
    | Check(request: nat, user: string, at: int)
    | Lookup(request: nat, at: int)
    | Store(request: nat, at: int)

  /** Time does not run back, requests go through their stages, and a lookup is stored within `delay`. */
  predicate Enabled(s: State, e: Event, delay: nat) {
    s.now <= e.at
    && match e
       case Change(_, _, _) => true
       case Check(request, _, _) => request !in s.missed && request !in s.fetched
       case Lookup(request, _) => request in s.missed
       case Store(request, at) => request in s.fetched && at - s.fetched[request].at <= delay
  }

  ghost function Step(s: State, e: Event, ttl: nat, delay: nat): State
    requires Enabled(s, e, delay)
  {
    var t := s.(now := e.at);
    match e
    case Change(user, active, _) => t.(users := s.users[user := active])
    case Check(request, user, at) =>
      (match Look(s.entries, user, ttl, at)
       case None => t.(missed := s.missed[request := user])
       case Some(active) => if active then t.(admitted := s.admitted + {Admission(user, at)}) else t)
    case Lookup(request, at) =>
      var user := s.missed[request];
      var rest := t.(missed := s.missed - {request});
      if user !in s.users then rest
      else
        rest.(fetched := s.fetched[request := Fetch(user, s.users[user], at)],
              reports := if s.users[user] then s.reports + {Report(user, at)} else s.reports)
    case Store(request, at) =>
      var f := s.fetched[request];
      t.(fetched := s.fetched - {request},
         entries := s.entries[f.user := Entry(f.active, at)],
         admitted := if f.active then s.admitted + {Admission(f.user, at)} else s.admitted)
  }

  ghost predicate IsRun(s: State, es: seq<Event>, ttl: nat, delay: nat)
    decreases |es|
  {
    es == [] || (Enabled(s, es[0], delay) && IsRun(Step(s, es[0], ttl, delay), es[1..], ttl, delay))
  }

  ghost function Run(s: State, es: seq<Event>, ttl: nat, delay: nat): State
    requires IsRun(s, es, ttl, delay)
    decreases |es|
  {
    if es == [] then s else Run(Step(s, es[0], ttl, delay), es[1..], ttl, delay)
  }

  ghost const START := State(map[], map[], map[], map[], 0, {}, {})

  // ---------------------------------------------------------------- bounded staleness

  /** The store reported the user active at some time from `from` to `until`. */
  ghost predicate ReportedIn(s: State, user: string, from: int, until: int) {
    exists at :: Report(user, at) in s.reports && from <= at <= until
  }

  ghost predicate Inv(s: State, ttl: nat, delay: nat) {
    (forall r :: r in s.reports ==> r.at <= s.now)
    && (forall q :: q in s.fetched && s.fetched[q].active ==> Report(s.fetched[q].user, s.fetched[q].at) in s.reports)
    && (forall u :: u in s.entries && s.entries[u].active ==>
          s.entries[u].checkedAt <= s.now
          && ReportedIn(s, u, s.entries[u].checkedAt - delay, s.entries[u].checkedAt))
    && forall a :: a in s.admitted ==> a.at <= s.now && ReportedIn(s, a.user, a.at - ttl - delay, a.at)
  }

  lemma ReportsGrow(s: State, t: State, user: string, from: int, until: int)
    requires s.reports <= t.reports && ReportedIn(s, user, from, until)
    ensures ReportedIn(t, user, from, until)
  {
  }

  lemma StepKeepsInv(s: State, e: Event, ttl: nat, delay: nat)
    requires Inv(s, ttl, delay) && Enabled(s, e, delay)
    ensures Inv(Step(s, e, ttl, delay), ttl, delay)
  {
    var t := Step(s, e, ttl, delay);
    forall u | u in t.entries && t.entries[u].active
      ensures t.entries[u].checkedAt <= t.now
      ensures ReportedIn(t, u, t.entries[u].checkedAt - delay, t.entries[u].checkedAt)
    {
      if e.Store? && u == s.fetched[e.request].user {
        assert Report(u, s.fetched[e.request].at) in t.reports;
      } else {
        ReportsGrow(s, t, u, s.entries[u].checkedAt - delay, s.entries[u].checkedAt);
      }
    }
    forall a | a in t.admitted
      ensures a.at <= t.now && ReportedIn(t, a.user, a.at - ttl - delay, a.at)
    {
      if a in s.admitted {
        ReportsGrow(s, t, a.user, a.at - ttl - delay, a.at);
      } else if e.Check? {
        var entry := s.entries[a.user];
        ReportsGrow(s, t, a.user, entry.checkedAt - delay, entry.checkedAt);
      } else {
        assert Report(a.user, s.fetched[e.request].at) in t.reports;
      }
    }
  }

  /** A request admitted at `t` had its user reported active between `t - ttl - delay` and `t`. */
  lemma {:induction false} RunKeepsInv(s: State, es: seq<Event>, ttl: nat, delay: nat)
    requires Inv(s, ttl, delay) && IsRun(s, es, ttl, delay)
    ensures Inv(Run(s, es, ttl, delay), ttl, delay)
    decreases |es|
  {
    if es != [] {
      StepKeepsInv(s, es[0], ttl, delay);
      RunKeepsInv(Step(s, es[0], ttl, delay), es[1..], ttl, delay);
    }
  }

  lemma AdmittedWasActive(es: seq<Event>, ttl: nat, delay: nat, a: Admission)
    requires IsRun(START, es, ttl, delay) && a in Run(START, es, ttl, delay).admitted
    ensures ReportedIn(Run(START, es, ttl, delay), a.user, a.at - ttl - delay, a.at)
  {
    RunKeepsInv(START, es, ttl, delay);
  }

  // ---------------------------------------------------------------- after deactivation

  ghost predicate StaysOff(es: seq<Event>, user: string) {
    forall i :: 0 <= i < |es| && es[i].Change? && es[i].user == user ==> !es[i].active
  }

  ghost predicate Off(s: State, user: string, since: int) {
    (user in s.users ==> !s.users[user]) && since <= s.now
    && forall at :: Report(user, at) in s.reports ==> at <= since
  }

  lemma {:induction false} StaysUnreported(s: State, es: seq<Event>, ttl: nat, delay: nat, user: string, since: int)
    requires IsRun(s, es, ttl, delay) && StaysOff(es, user) && Off(s, user, since)
    ensures Off(Run(s, es, ttl, delay), user, since)
    decreases |es|
  {
    if es != [] {
      StaysUnreported(Step(s, es[0], ttl, delay), es[1..], ttl, delay, user, since);
    }
  }

  /** A user disabled at `d` and left so is not admitted after `d + ttl + delay`. */
  lemma NotAdmittedAfter(
      before: seq<Event>, after: seq<Event>, ttl: nat, delay: nat, user: string, d: int, a: Admission)
    requires IsRun(START, before, ttl, delay)
    requires Enabled(Run(START, before, ttl, delay), Change(user, false, d), delay)
    requires var s := Step(Run(START, before, ttl, delay), Change(user, false, d), ttl, delay);
      IsRun(s, after, ttl, delay) && StaysOff(after, user) && a in Run(s, after, ttl, delay).admitted && a.user == user
    ensures a.at <= d + ttl + delay
  {
    RunKeepsInv(START, before, ttl, delay);
    var s0 := Run(START, before, ttl, delay);
    var s := Step(s0, Change(user, false, d), ttl, delay);
    StepKeepsInv(s0, Change(user, false, d), ttl, delay);
    StaysUnreported(s, after, ttl, delay, user, d);
    RunKeepsInv(s, after, ttl, delay);
  }

  /** The bound is attained: a lookup answered before the change, stored `delay` later, admits for `ttl` more. */
  lemma BoundAttained(ttl: nat, delay: nat, user: string)
    requires ttl > 0
    ensures var s := START;
      var early := [Change(user, true, 0), Check(0, user, 0), Lookup(0, 0)];
      var late := [Store(0, delay), Check(1, user, delay + ttl)];
      IsRun(s, early, ttl, delay)
      && var t := Run(s, early, ttl, delay);
         Enabled(t, Change(user, false, 0), delay)
         && var u := Step(t, Change(user, false, 0), ttl, delay);
            IsRun(u, late, ttl, delay) && StaysOff(late, user)
            && Admission(user, 0 + ttl + delay) in Run(u, late, ttl, delay).admitted
  {
    var s1 := Step(START, Change(user, true, 0), ttl, delay);
    var s2 := Step(s1, Check(0, user, 0), ttl, delay);
    var s3 := Step(s2, Lookup(0, 0), ttl, delay);
    var s4 := Step(s3, Change(user, false, 0), ttl, delay);
    var s5 := Step(s4, Store(0, delay), ttl, delay);
    var early := [Change(user, true, 0), Check(0, user, 0), Lookup(0, 0)];
    var late := [Store(0, delay), Check(1, user, delay + ttl)];
    RunThree(START, early, ttl, delay);
    RunTwo(s4, late, ttl, delay);
  }

  lemma RunTwo(s: State, es: seq<Event>, ttl: nat, delay: nat)
    requires |es| == 2 && Enabled(s, es[0], delay) && Enabled(Step(s, es[0], ttl, delay), es[1], delay)
    ensures IsRun(s, es, ttl, delay)
    ensures Run(s, es, ttl, delay) == Step(Step(s, es[0], ttl, delay), es[1], ttl, delay)
  {
    var t := Step(s, es[0], ttl, delay);
    assert es[1..][0] == es[1] && es[1..][1..] == [];
    assert IsRun(t, es[1..], ttl, delay);
    assert Run(t, es[1..], ttl, delay) == Step(t, es[1], ttl, delay);
  }

  lemma RunThree(s: State, es: seq<Event>, ttl: nat, delay: nat)
    requires |es| == 3 && Enabled(s, es[0], delay)
    requires var t := Step(s, es[0], ttl, delay);
      Enabled(t, es[1], delay) && Enabled(Step(t, es[1], ttl, delay), es[2], delay)
    ensures IsRun(s, es, ttl, delay)
    ensures Run(s, es, ttl, delay) == Step(Step(Step(s, es[0], ttl, delay), es[1], ttl, delay), es[2], ttl, delay)
  {
    RunTwo(Step(s, es[0], ttl, delay), es[1..], ttl, delay);
  }
}
