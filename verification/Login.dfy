/** The login, unlock and sign-out handlers over the user and session stores. */
module Login {

  import opened Lockout
  import opened Sessions
  import opened Text
  import opened UserStore
  import opened Wrappers

  /** Compares a password with a stored hash. */
  type Verifier = (string, string) -> bool

  predicate Matches(verify: Verifier, password: string, hash: string) {
    verify(password, hash)
  }

  /** The clock readings of one request. */
  datatype Clock = Clock(start: int, failure: int, created: int, listed: int)

  function NewSession(id: string, u: User, settings: Settings, created: int): Session {
    Session(id, u.id, u.role, created, created + if settings.duration <= 0 then DAY else settings.duration)
  }

  /** The session carries the user's id and role and lasts for the configured time, or a day. */
  lemma NewSessionIs(id: string, u: User, settings: Settings, created: int)
    ensures var s := NewSession(id, u, settings, created);
      s.id == id && s.user == u.id && s.role == u.role && s.createdAt == created
      && (settings.duration > 0 ==> s.expiresAt == created + settings.duration)
      && (settings.duration <= 0 ==> s.expiresAt == created + 24 * 60 * 60)
  {
  }

  /** After a login: the new session was stored, then the oldest unexpired ones above the cap went. */
  ghost predicate SessionsAfterLogin(
    settings: Settings, was: SessionMap, sessions: SessionMap, s: Session, listed: int)
  {
    s.id !in was && Capped(was[s.id := s], sessions, s.user, listed, settings.maxSessions)
  }

  class UserServer {
    const verify: Verifier
    const userStore: MemoryUserStore
    const sessionStore: MemorySessionStore

    constructor (verify: Verifier, userStore: MemoryUserStore, sessionStore: MemorySessionStore)
      ensures this.verify == verify && this.userStore == userStore && this.sessionStore == sessionStore
    {
      this.verify, this.userStore, this.sessionStore := verify, userStore, sessionStore;
    }

    ghost predicate Valid()
      reads this, userStore, sessionStore
    {
      userStore.Valid() && sessionStore.Valid()
    }

    /** Records a failure and tells whether it locked the account. */
    method RecordFailedLogin(settings: Settings, user: User, now: int) returns (locked: bool)
      requires Valid() && user.id in userStore.users && user.id != ""
      requires userStore.users[user.id].username == user.username
      modifies userStore
      ensures Valid() && sessionStore.sessions == old(sessionStore.sessions)
      ensures userStore.users == old(userStore.users)[user.id := Failed(settings, user, now)]
      ensures locked == Reaches(settings, Failed(settings, user, now).failed)
    {
      var u := user.(failed := user.failed + 1, lastFailed := Some(now));
      locked := false;
      if settings.attempts > 0 && u.failed >= settings.attempts {
        u := u.(lockedAt := Some(now), until := Some(now + settings.cooldown));
        locked := true;
      }
      var stored := userStore.Update(u);
    }

    method ClearUserLockout(user: User)
      requires Valid() && user.id in userStore.users && user.id != ""
      requires userStore.users[user.id].username == user.username
      modifies userStore
      ensures Valid() && sessionStore.sessions == old(sessionStore.sessions)
      ensures userStore.users == old(userStore.users)[user.id := Unlocked(user)]
    {
      var stored := userStore.Update(Unlocked(user));
    }

    /** Creates the session of a login and enforces the cap. */
    method OpenSession(settings: Settings, user: User, sessionId: string, clock: Clock) returns (stored: bool)
      requires Valid()
      modifies sessionStore
      ensures Valid() && userStore.users == old(userStore.users)
      ensures stored <==> sessionId != "" && user.id != "" && sessionId !in old(sessionStore.sessions)
      ensures if stored
        then SessionsAfterLogin(settings, old(sessionStore.sessions), sessionStore.sessions,
                                NewSession(sessionId, user, settings, clock.created), clock.listed)
        else sessionStore.sessions == old(sessionStore.sessions)
    {
      var session := NewSession(sessionId, user, settings, clock.created);
      var r := sessionStore.Create(session);
      if r.Err? {
        return false;
      }
      EvictOldest(sessionStore, user.id, clock.listed, settings.maxSessions);
      stored := true;
    }

    ghost function LoginEvent(u: User, password: string, sessionId: string, clock: Clock): Event
      reads this, sessionStore
    {
      Event.Login(u.id, Matches(verify, password, u.hash),
                  sessionId != "" && sessionId !in sessionStore.sessions, clock.start, clock.failure)
    }

    method HandleLogin(settings: Settings, username: string, password: string, sessionId: string, clock: Clock)
      returns (outcome: Outcome, who: Option<User>)
      requires Valid()
      modifies userStore, sessionStore
      ensures Valid()
      ensures who.None? <==> outcome in {BadRequest, LocalAuthDisabled, UnknownUser}
      ensures outcome == BadRequest <==> TrimSpace(username) == "" || password == ""
      ensures outcome == LocalAuthDisabled <==> TrimSpace(username) != "" && password != "" && !settings.localAuth
      ensures outcome == UnknownUser <==>
        (TrimSpace(username) != "" && password != "" && settings.localAuth
         && forall id :: id in old(userStore.users) ==> old(userStore.users)[id].username != TrimSpace(username))
      ensures outcome == LoggedIn <==>
        (TrimSpace(username) != "" && password != "" && settings.localAuth
         && sessionId != "" && sessionId !in old(sessionStore.sessions)
         && exists id :: id in old(userStore.users)
              && var u := old(userStore.users)[id];
                 u.username == TrimSpace(username) && MayTry(u, clock.start) && verify(password, u.hash))
      ensures who.None? ==> userStore.users == old(userStore.users)
      ensures who.Some? ==>
        (var u := who.value;
         u.id in userStore.users && userStore.users == old(userStore.users)[u.id := userStore.users[u.id]]
         && Answers(settings, u, verify(password, u.hash),
                    sessionId != "" && sessionId !in old(sessionStore.sessions), clock.start, clock.failure,
                    userStore.users[u.id], outcome))
      ensures who.Some? ==>
        (var u := who.value;
         u.id in old(userStore.users) && u == old(userStore.users)[u.id] && u.username == TrimSpace(username)
         && var e := old(LoginEvent(u, password, sessionId, clock));
            userStore.users == Step(settings, old(userStore.users), e)
            && outcome == OutcomeOf(settings, old(userStore.users), e))
      ensures outcome == LoggedIn ==>
        SessionsAfterLogin(settings, old(sessionStore.sessions), sessionStore.sessions,
                           NewSession(sessionId, who.value, settings, clock.created), clock.listed)
      ensures outcome != LoggedIn ==> sessionStore.sessions == old(sessionStore.sessions)
    {
      var name := TrimSpace(username);
      if name == "" || password == "" {
        return BadRequest, None;
      }
      if !settings.localAuth {
        return LocalAuthDisabled, None;
      }
      who := userStore.GetByUsername(name);
      if who.None? {
        return UnknownUser, None;
      }
      ghost var u := who.value;
      ghost var stored := sessionId != "" && sessionId !in sessionStore.sessions;
      TryLoginAnswers(settings, u, Matches(verify, password, u.hash), stored, clock.start, clock.failure);
      outcome := LoginKnown(settings, who.value, password, sessionId, clock);
    }

    /** The part of a login that follows the lookup. */
    method LoginKnown(settings: Settings, known: User, password: string, sessionId: string, clock: Clock)
      returns (outcome: Outcome)
      requires Valid() && known.id != "" && known.id in userStore.users && userStore.users[known.id] == known
      modifies userStore, sessionStore
      ensures Valid()
      ensures userStore.users == Step(settings, old(userStore.users), old(LoginEvent(known, password, sessionId, clock)))
      ensures outcome == OutcomeOf(settings, old(userStore.users), old(LoginEvent(known, password, sessionId, clock)))
      ensures outcome !in {BadRequest, LocalAuthDisabled, UnknownUser}
      ensures outcome == LoggedIn ==>
        SessionsAfterLogin(settings, old(sessionStore.sessions), sessionStore.sessions,
                           NewSession(sessionId, known, settings, clock.created), clock.listed)
      ensures outcome != LoggedIn ==> sessionStore.sessions == old(sessionStore.sessions)
    {
      var user := known;
      assert userStore.users == old(userStore.users)[known.id := known];
      if user.lockedAt.Some? {
        if user.until.Some? && clock.start < user.until.value {
          return StillLocked;
        }
        ClearUserLockout(user);
        user := Unlocked(user);
      }
      assert userStore.users == old(userStore.users)[known.id := user];
      if !user.active {
        return AccountDisabled;
      }
      if !Matches(verify, password, user.hash) {
        var locked := RecordFailedLogin(settings, user, clock.failure);
        return if locked then NowLocked else WrongPassword;
      }
      var stored := OpenSession(settings, user, sessionId, clock);
      if !stored {
        return SessionFailed;
      }
      var updated := userStore.UpdateLastLogin(user.id, clock.start);
      outcome := LoggedIn;
    }

    method HandleUnlockUser(id: string) returns (found: bool)
      requires Valid()
      modifies userStore
      ensures Valid() && sessionStore.sessions == old(sessionStore.sessions)
      ensures found <==> id != "" && id in old(userStore.users)
      ensures userStore.users ==
        if found then old(userStore.users)[id := Unlocked(old(userStore.users)[id])] else old(userStore.users)
    {
      var user := userStore.GetByID(id);
      if user.None? {
        return false;
      }
      ClearUserLockout(user.value);
      found := true;
    }

    /** Deactivation disables the account and ends every session of the user. */
    method DeactivateUser(id: string) returns (found: bool)
      requires Valid()
      modifies userStore, sessionStore
      ensures Valid()
      ensures found <==> id != "" && id in old(userStore.users)
      ensures found ==>
        userStore.users == old(userStore.users)[id := old(userStore.users)[id].(active := false)]
        && Scan(sessionStore.sessions, id) == {}
        && forall s :: s in old(sessionStore.sessions) && old(sessionStore.sessions)[s].user != id ==>
             s in sessionStore.sessions && sessionStore.sessions[s] == old(sessionStore.sessions)[s]
    {
      var user := userStore.GetByID(id);
      if user.None? {
        return false;
      }
      var stored := userStore.Update(user.value.(active := false));
      sessionStore.DeleteByUserID(id);
      found := true;
    }
  }

  /** Right after a successful login the user has at most the cap of unexpired sessions, the most recent ones,
      and every other user's sessions are as before. */
  lemma LoginCapsSessions(settings: Settings, was: SessionMap, sessions: SessionMap, s: Session, listed: int)
    requires SessionsAfterLogin(settings, was, sessions, s, listed)
    ensures |Unexpired(sessions, s.user, listed)| <= settings.maxSessions
    ensures forall id :: id in was && was[id].user != s.user ==> id in sessions && sessions[id] == was[id]
    ensures forall id :: id in sessions && id != s.id ==> id in was && sessions[id] == was[id]
    ensures forall gone, kept ::
      (gone in Unexpired(was, s.user, listed) && gone !in sessions
       && kept in Unexpired(sessions, s.user, listed) && kept in was) ==> was[gone].createdAt <= was[kept].createdAt
    ensures
      (settings.maxSessions >= 1 && listed <= s.expiresAt
       && forall id :: id in Unexpired(was, s.user, listed) ==> was[id].createdAt < s.createdAt) ==> s.id in sessions
  {
    var mid := was[s.id := s];
    CappedMeaning(mid, sessions, s.user, listed, settings.maxSessions);
    if settings.maxSessions >= 1 && listed <= s.expiresAt
       && forall id :: id in Unexpired(was, s.user, listed) ==> was[id].createdAt < s.createdAt {
      forall other | other in Unexpired(mid, s.user, listed) && other != s.id
        ensures mid[other].createdAt < mid[s.id].createdAt
      {
        assert other in Unexpired(was, s.user, listed);
      }
      NewestSurvives(mid, sessions, s.user, listed, settings.maxSessions, s.id);
    }
  }
}
