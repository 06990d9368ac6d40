/** Account lockout: what each step does to a user record, and what whole runs guarantee. */
module Lockout {

  import opened UserStore
  import opened Wrappers

  /** `attempts` of 0 disables lockout; `cooldown` is in the clock's unit. */
  datatype Settings = Settings(localAuth: bool, attempts: nat, cooldown: nat, maxSessions: nat, duration: int)

  datatype Outcome =
    BadRequest | LocalAuthDisabled | UnknownUser | StillLocked | AccountDisabled
    | WrongPassword | NowLocked | SessionFailed | LoggedIn

  predicate IsLocked(u: User, now: int) {
    u.lockedAt.Some? && u.until.Some? && now < u.until.value
  }

  predicate Reaches(settings: Settings, failed: nat) {
    settings.attempts > 0 && failed >= settings.attempts
  }

  /** One more failure, and a lock when the limit is reached. */
  function Failed(settings: Settings, u: User, now: int): User {
    var counted := u.(failed := u.failed + 1, lastFailed := Some(now));
    if Reaches(settings, counted.failed)
    then counted.(lockedAt := Some(now), until := Some(now + settings.cooldown))
    else counted
  }

  datatype Attempt = Attempt(user: User, outcome: Outcome)

  /** A login by a known user: `start` is read before the lock test, `end` when a failure is recorded. */
  function TryLogin(settings: Settings, u: User, matches: bool, stored: bool, start: int, end: int): Attempt {
    if IsLocked(u, start) then Attempt(u, StillLocked)
    else
      var v := if u.lockedAt.Some? then Unlocked(u) else u;
      if !v.active then Attempt(v, AccountDisabled)
      else if !matches then
        var w := Failed(settings, v, end);
        Attempt(w, if Reaches(settings, w.failed) then NowLocked else WrongPassword)
      else if !stored then Attempt(v, SessionFailed)
      else Attempt(Unlocked(v).(lastLogin := Some(start)), LoggedIn)
  }

  // ---------------------------------------------------------------- what an attempt answers

  /** The password is compared: the user is active, and no lock is in force at `start`. */
  ghost predicate MayTry(u: User, start: int) {
    u.active && !(u.lockedAt.Some? && u.until.Some? && start < u.until.value)
  }

  /** Failures including one more; an expired lock starts the count again. */
  ghost function FailuresNow(u: User): nat {
    1 + if u.lockedAt.Some? then 0 else u.failed
  }

  ghost predicate SamePerson(u: User, w: User) {
    w.id == u.id && w.username == u.username && w.hash == u.hash && w.role == u.role && w.active == u.active
  }

  /** `w` is `u` without any trace of failures. */
  ghost predicate IsCleared(u: User, w: User) {
    SamePerson(u, w) && w.failed == 0 && w.lastFailed == None && w.lockedAt == None && w.until == None
  }

  /** `w` is `u` with a failure recorded at `end`, and locked from then for the cooldown when that reaches the limit. */
  ghost predicate IsFailed(settings: Settings, u: User, w: User, end: int) {
    SamePerson(u, w) && w.lastLogin == u.lastLogin && w.failed == FailuresNow(u) && w.lastFailed == Some(end)
    && (if settings.attempts > 0 && FailuresNow(u) >= settings.attempts
        then w.lockedAt == Some(end) && w.until == Some(end + settings.cooldown)
        else w.lockedAt == None && (u.lockedAt.None? ==> w.until == u.until) && (u.lockedAt.Some? ==> w.until == None))
  }

  /** The outcome of an attempt and the record it leaves, from the record, the password and the clock. */
  ghost predicate Answers(settings: Settings, u: User, matches: bool, stored: bool, start: int, end: int, w: User, o: Outcome) {
    var locked := u.lockedAt.Some? && u.until.Some? && start < u.until.value;
    (o == StillLocked <==> locked)
    && (o == AccountDisabled <==> !locked && !u.active)
    && (o == WrongPassword || o == NowLocked <==> MayTry(u, start) && !matches)
    && (o == NowLocked ==> settings.attempts > 0 && FailuresNow(u) >= settings.attempts)
    && (o == WrongPassword ==> !(settings.attempts > 0 && FailuresNow(u) >= settings.attempts))
    && (o == SessionFailed <==> MayTry(u, start) && matches && !stored)
    && (o == LoggedIn <==> MayTry(u, start) && matches && stored)
    && (locked ==> w == u)
    && (o == WrongPassword || o == NowLocked ==> IsFailed(settings, u, w, end))
    && (o == LoggedIn ==> IsCleared(u, w) && w.lastLogin == Some(start))
    && (o == AccountDisabled || o == SessionFailed ==>
          (if u.lockedAt.Some? then IsCleared(u, w) && w.lastLogin == u.lastLogin else w == u))
  }

  /** An attempt has exactly one answer, and this is it. */
  lemma TryLoginAnswers(settings: Settings, u: User, matches: bool, stored: bool, start: int, end: int)
    ensures var a := TryLogin(settings, u, matches, stored, start, end);
      Answers(settings, u, matches, stored, start, end, a.user, a.outcome)
    ensures var a := TryLogin(settings, u, matches, stored, start, end);
      forall w, o :: Answers(settings, u, matches, stored, start, end, w, o) ==> w == a.user && o == a.outcome
  {
  }

  // ---------------------------------------------------------------- runs

  datatype Event =
    | Login(id: string, matches: bool, stored: bool, start: int, end: int)
    | Unlock(id: string)                     // an admin's unlock, a password reset at start-up
    | SignOn(id: string, at: int)            // a login through the identity provider
    | Edit(id: string, active: bool, hash: string, role: string)
    | Join(id: string, username: string)

  ghost function Joined(id: string, username: string): User {
    User(id, username, "", "", true, 0, None, None, None, None)
  }

  ghost function StepUser(settings: Settings, u: User, e: Event): User {
    match e
    case Login(_, matches, stored, start, end) => TryLogin(settings, u, matches, stored, start, end).user
    case Unlock(_) => Unlocked(u)
    case SignOn(_, at) => if u.active then Unlocked(u).(lastLogin := Some(at)) else u
    case Edit(_, active, hash, role) => u.(active := active, hash := hash, role := role)
    case Join(_, _) => u
  }

  ghost function Step(settings: Settings, users: map<string, User>, e: Event): map<string, User> {
    if e.id in users then users[e.id := StepUser(settings, users[e.id], e)]
    else if e.Join? then users[e.id := Joined(e.id, e.username)]
    else users
  }

  ghost function Run(settings: Settings, users: map<string, User>, es: seq<Event>): map<string, User>
    decreases |es|
  {
    if es == [] then users else Run(settings, Step(settings, users, es[0]), es[1..])
  }

  /** What the first event means for user `id`. */
  ghost function OutcomeOf(settings: Settings, users: map<string, User>, e: Event): Outcome {
    if e.Login? && e.id in users
    then TryLogin(settings, users[e.id], e.matches, e.stored, e.start, e.end).outcome
    else UnknownUser
  }

  /** What a step leaves of the user records: only the user of the step changes, and as the step says. */
  lemma StepIs(settings: Settings, users: map<string, User>, e: Event, id: string)
    ensures var after := Step(settings, users, e);
      (id in after <==> id in users || (e.Join? && id == e.id))
      && (id in users && id != e.id ==> after[id] == users[id])
      && (id in users && id == e.id ==>
            match e
            case Login(_, matches, stored, start, end) =>
              Answers(settings, users[id], matches, stored, start, end, after[id], OutcomeOf(settings, users, e))
            case Unlock(_) => IsCleared(users[id], after[id]) && after[id].lastLogin == users[id].lastLogin
            case SignOn(_, at) =>
              if users[id].active then IsCleared(users[id], after[id]) && after[id].lastLogin == Some(at)
              else after[id] == users[id]
            case Edit(_, active, hash, role) =>
              after[id].active == active && after[id].hash == hash && after[id].role == role
              && after[id] == users[id].(active := after[id].active, hash := after[id].hash, role := after[id].role)
            case Join(_, _) => after[id] == users[id])
      && (id !in users && e.Join? && id == e.id ==>
            after[id].id == id && after[id].username == e.username && after[id].active && after[id].lastLogin == None
            && IsCleared(after[id], after[id]))
  {
    if id in users && e.Login? {
      TryLoginAnswers(settings, users[id], e.matches, e.stored, e.start, e.end);
    }
  }

  // ---------------------------------------------------------------- the lockout invariant

  /** Below the limit while unlocked, and locked for exactly the cooldown otherwise. */
  ghost predicate Sound(settings: Settings, u: User) {
    (u.lockedAt.None? ==> u.failed < settings.attempts && u.until.None?)
    && (u.lockedAt.Some? ==> u.until == Some(u.lockedAt.value + settings.cooldown))
  }

  ghost predicate AllSound(settings: Settings, users: map<string, User>) {
    forall id :: id in users ==> Sound(settings, users[id])
  }

  lemma {:induction false} RunKeepsSound(settings: Settings, users: map<string, User>, es: seq<Event>)
    requires settings.attempts > 0 && AllSound(settings, users)
    ensures AllSound(settings, Run(settings, users, es))
    decreases |es|
  {
    if es != [] {
      RunKeepsSound(settings, Step(settings, users, es[0]), es[1..]);
    }
  }

  /** Only these end a lock early. */
  ghost predicate Releases(e: Event, id: string) {
    e.id == id && (e.Unlock? || e.SignOn?)
  }

  ghost predicate Quiet(es: seq<Event>, id: string) {
    forall i :: 0 <= i < |es| ==> !Releases(es[i], id)
  }

  /** Until its time is over, a lock survives every other step and no password is compared. */
  lemma {:induction false} LockHolds(settings: Settings, users: map<string, User>, es: seq<Event>, id: string, k: nat)
    requires id in users && users[id].lockedAt.Some? && users[id].until.Some? && Quiet(es, id) && k < |es|
    requires forall i :: 0 <= i <= k && es[i].Login? ==> es[i].start < users[id].until.value
    ensures var before := Run(settings, users, es[..k]);
      id in before && before[id].lockedAt == users[id].lockedAt && before[id].until == users[id].until
      && (es[k].id == id ==> !Compared(before, es[k]))
    decreases k
  {
    assert !Releases(es[0], id);
    if k > 0 {
      LockHolds(settings, Step(settings, users, es[0]), es[1..], id, k - 1);
      assert es[..k][1..] == es[1..][..k - 1];
    }
  }

  // ---------------------------------------------------------------- the guessing rate

  /** The event is a login whose password is compared. */
  ghost predicate Compared(users: map<string, User>, e: Event) {
    e.Login? && e.id in users && MayTry(users[e.id], e.start)
  }

  /** Compared wrong passwords for `id` in logins that start in the window of length `cooldown` from `w`. */
  ghost function Guesses(settings: Settings, users: map<string, User>, es: seq<Event>, id: string, w: int): nat
    decreases |es|
  {
    if es == [] then 0
    else
      var e := es[0];
      (if e.id == id && Compared(users, e) && !e.matches && w <= e.start < w + settings.cooldown then 1 else 0)
      + Guesses(settings, Step(settings, users, e), es[1..], id, w)
  }

  /** Readings do not decrease from login to login. */
  ghost predicate Clocked(es: seq<Event>) {
    (forall i :: 0 <= i < |es| && es[i].Login? ==> es[i].start <= es[i].end)
    && forall i, j :: 0 <= i < j < |es| && es[i].Login? && es[j].Login? ==> es[i].start <= es[j].start
  }

  ghost predicate NoneLogsIn(settings: Settings, users: map<string, User>, es: seq<Event>, id: string)
    decreases |es|
  {
    es == []
    || (!(es[0].id == id && Compared(users, es[0]) && es[0].matches && es[0].stored)
        && NoneLogsIn(settings, Step(settings, users, es[0]), es[1..], id))
  }

  /** Guesses a user record still allows before the window ends. */
  ghost function Budget(settings: Settings, u: User, w: int): nat {
    if u.lockedAt.Some? then (if u.until.Some? && u.until.value >= w + settings.cooldown then 0 else settings.attempts)
    else if u.failed < settings.attempts then settings.attempts - u.failed else 0
  }

  ghost predicate StartsFrom(es: seq<Event>, w: int) {
    forall i :: 0 <= i < |es| && es[i].Login? ==> es[i].start >= w
  }

  lemma {:induction false} NoGuessesAfter(settings: Settings, users: map<string, User>, es: seq<Event>, id: string, w: int)
    requires StartsFrom(es, w + settings.cooldown)
    ensures Guesses(settings, users, es, id, w) == 0
    decreases |es|
  {
    if es != [] {
      NoGuessesAfter(settings, Step(settings, users, es[0]), es[1..], id, w);
    }
  }

  lemma {:induction false} BudgetBounds(settings: Settings, users: map<string, User>, es: seq<Event>, id: string, w: int)
    requires settings.attempts > 0 && id in users && Sound(settings, users[id])
    requires Clocked(es) && Quiet(es, id) && StartsFrom(es, w)
    requires NoneLogsIn(settings, users, es, id)
    ensures Guesses(settings, users, es, id, w) <= Budget(settings, users[id], w)
    decreases |es|
  {
    if es != [] {
      var e := es[0];
      assert !Releases(e, id);
      if e.Login? && e.start >= w + settings.cooldown {
        NoGuessesAfter(settings, users, es, id, w);
      } else {
        BudgetBounds(settings, Step(settings, users, e), es[1..], id, w);
      }
    }
  }

  /** With no unlock and no successful login, no window as long as the cooldown holds more wrong guesses than the limit. */
  lemma {:induction false} GuessesBounded(settings: Settings, users: map<string, User>, es: seq<Event>, id: string, w: int)
    requires settings.attempts > 0 && id in users && Sound(settings, users[id])
    requires Clocked(es) && Quiet(es, id)
    requires NoneLogsIn(settings, users, es, id)
    ensures Guesses(settings, users, es, id, w) <= settings.attempts
    decreases |es|
  {
    if es != [] {
      var e := es[0];
      assert !Releases(e, id);
      if e.Login? && e.start >= w {
        BudgetBounds(settings, users, es, id, w);
      } else {
        GuessesBounded(settings, Step(settings, users, e), es[1..], id, w);
      }
    }
  }
}
