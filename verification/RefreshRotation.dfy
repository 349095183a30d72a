/**
 Refresh-token rotation of internal/authentication/service.go with replay detection and
 the clean-up of rotated tokens in internal/datalifecycle/manager.go, the scheme of
 section 4.14.2 of RFC 9700.  Token digests are taken to be injective, so a token stands
 for its own digest; every method is one transaction.
 */
module RefreshRotation {
  import opened Earliest
  import opened Wrappers

  datatype Session = Session(user: string, current: string, previous: Option<string>, expires: nat, revoked: bool,
                             version: nat)

  /** A rotated token; clean-up soft-deletes it. */
  datatype Rotated = Rotated(session: string, expires: nat, live: bool)

  /** `active` are the users that may refresh. */
  datatype Store = Store(sessions: map<string, Session>, history: map<string, Rotated>, active: set<string>)

  datatype Outcome = Exchanged(session: string) | Reused(session: string) | Rejected

  /** The session is the one the first query may return for this token. */
  predicate Matches(s: Store, token: string, x: string) {
    x in s.sessions && s.sessions[x].user in s.active
    && (s.sessions[x].current == token || s.sessions[x].previous == Some(token))
  }

  /** The result of the first query: some matching row, or none. */
  ghost predicate Found(s: Store, token: string, x: Option<string>) {
    match x
    case None => forall y :: !Matches(s, token, y)
    case Some(y) => Matches(s, token, y)
  }

  predicate Usable(session: Session, now: nat) { !session.revoked && session.expires > now }

  function RevokeOne(s: Store, x: string): Store
    requires x in s.sessions
  {
    s.(sessions := s.sessions[x := s.sessions[x].(revoked := true, version := s.sessions[x].version + 1)])
  }

  /** A rotated token was presented: the whole family goes. */
  function Replay(s: Store, x: string, now: nat): (Store, Outcome)
    requires x in s.sessions
  {
    if Usable(s.sessions[x], now) then (RevokeOne(s, x), Reused(x)) else (s, Rejected)
  }

  function Rotate(s: Store, x: string, token: string, next: string): Store
    requires x in s.sessions
  {
    var session := s.sessions[x];
    s.(sessions := s.sessions[x :=
        session.(previous := Some(session.current), current := next, version := session.version + 1)],
       history := s.history[token := Rotated(x, session.expires, true)])
  }

  /** One refresh, given the row the first query returned. */
  function RefreshWith(s: Store, token: string, next: string, now: nat, found: Option<string>): (Store, Outcome)
    requires found.Some? ==> found.value in s.sessions
  {
    match found
    case Some(x) =>
      if s.sessions[x].previous == Some(token) then Replay(s, x, now)
      else if !Usable(s.sessions[x], now) || token in s.history then (s, Rejected)
      else (Rotate(s, x, token, next), Exchanged(x))
    case None =>
      if token !in s.history || !s.history[token].live || s.history[token].expires <= now then (s, Rejected)
      else
        var x := s.history[token].session;
        if x in s.sessions && s.sessions[x].user in s.active then Replay(s, x, now) else (s, Rejected)
  }

  function RevokeUser(s: Store, user: string): Store {
    s.(sessions := map x | x in s.sessions ::
         if s.sessions[x].user == user && !s.sessions[x].revoked
             then s.sessions[x].(revoked := true, version := s.sessions[x].version + 1)
         else s.sessions[x])
  }

  /** One batch of the clean-up: any of the rotated tokens that expired before `now`. */
  function CleanUp(s: Store, batch: set<string>, now: nat): Store {
    s.(history := map t | t in s.history ::
         if t in batch && s.history[t].live && s.history[t].expires < now then s.history[t].(live := false)
             else s.history[t])
  }

  // ---- The service ----------------------------------------------------------

  class Service {
    var sessions: map<string, Session>
    var history: map<string, Rotated>
    var active: set<string>

    function State(): Store
      reads this
    {
      Store(sessions, history, active)
    }

    constructor (active: set<string>)
      ensures State() == Store(map[], map[], active)
    {
      sessions, history, this.active := map[], map[], active;
    }

    /** The reuse branch: guarded by the version and the missing revocation. */
    method RevokeReplayed(x: string, now: nat) returns (outcome: Outcome)
      requires x in sessions
      modifies this
      ensures (State(), outcome) == Replay(old(State()), x, now)
    {
      var current := sessions[x];
      if current.revoked || current.expires <= now { return Rejected; }
      sessions := sessions[x := current.(revoked := true, version := current.version + 1)];
      outcome := Reused(x);
    }

    /** `next` is the generated token. */
    method Refresh(raw: string, next: string, now: nat) returns (outcome: Outcome)
      modifies this
      ensures exists found ::
          Found(old(State()), raw, found) && (State(), outcome) == RefreshWith(old(State()), raw, next, now, found)
      ensures outcome.Exchanged? ==>
                var x := outcome.session;
                && x in old(sessions) && old(sessions)[x].current == raw && !old(sessions)[x].revoked
                && old(sessions)[x].expires > now && old(sessions)[x].user in active
                && sessions == old(sessions)[x :=
                     old(sessions)[x].(current := next, previous := Some(raw), version := old(sessions)[x].version + 1)]
      ensures outcome.Reused? ==> outcome.session in sessions && sessions[outcome.session].revoked
    {
      ghost var before := State();
      if x :| x in sessions && Matches(State(), raw, x) {
        var current := sessions[x];
        assert Found(before, raw, Some(x));
        if current.previous == Some(raw) {
          outcome := RevokeReplayed(x, now);
          return;
        }
        if current.revoked || current.expires <= now || raw in history { return Rejected; }
        sessions := sessions[x :=
            current.(previous := Some(current.current), current := next, version := current.version + 1)];
        history := history[raw := Rotated(x, current.expires, true)];
        return Exchanged(x);
      }
      assert Found(before, raw, None);
      if raw !in history || !history[raw].live || history[raw].expires <= now { return Rejected; }
      var x := history[raw].session;
      if x !in sessions || sessions[x].user !in active { return Rejected; }
      outcome := RevokeReplayed(x, now);
    }

    method Logout(raw: string) returns (ok: bool)
      modifies this
      ensures if ok
              then exists x ::
                  x in old(sessions) && old(sessions)[x].current == raw && !old(sessions)[x].revoked
                  && State() == RevokeOne(old(State()), x)
              else State() == old(State()) && forall x | x in sessions ::
                  sessions[x].current != raw || sessions[x].revoked
    {
      if x :| x in sessions && sessions[x].current == raw && !sessions[x].revoked {
        sessions := sessions[x := sessions[x].(revoked := true, version := sessions[x].version + 1)];
        return true;
      }
      ok := false;
    }

    method RevokeSession(user: string, x: string, version: nat) returns (ok: bool)
      modifies this
      ensures ok <==>
          x in old(sessions) && old(sessions)[x].user == user && old(sessions)[x].version == version
          && !old(sessions)[x].revoked
      ensures State() == if ok then RevokeOne(old(State()), x) else old(State())
    {
      if x !in sessions || sessions[x].user != user || sessions[x].version != version || sessions[x].revoked {
        return false;
      }
      sessions := sessions[x := sessions[x].(revoked := true, version := sessions[x].version + 1)];
      ok := true;
    }

    /**
     Logging out everywhere, by the user or by force, and every password change.  `known`:
     the user exists and is not closed, which only a forced logout asks for.
     */
    method RevokeAll(user: string, forced: bool, known: bool) returns (ok: bool)
      modifies this
      ensures ok <==> forced ==> known
      ensures State() == if ok then RevokeUser(old(State()), user) else old(State())
      ensures sessions.Keys == old(sessions).Keys && history == old(history)
      ensures ok ==> forall x | x in sessions && sessions[x].user == user :: sessions[x].revoked
      ensures forall x | x in sessions && (old(sessions)[x].user != user || old(sessions)[x].revoked) ::
          sessions[x] == old(sessions)[x]
    {
      if forced && !known { return false; }
      sessions := map x | x in sessions ::
        if sessions[x].user == user && !sessions[x].revoked
            then sessions[x].(revoked := true, version := sessions[x].version + 1) else sessions[x];
      ok := true;
    }
  }

  /** Rotated tokens due for clean-up. */
  function Expired(s: Store, now: nat): set<string> {
    set t | t in s.history && s.history[t].live && s.history[t].expires < now
  }

  /** Those of them that no other transaction has locked. */
  function Due(s: Store, busy: set<string>, now: nat): set<string> { Expired(s, now) - busy }

  function ExpiryOf(s: Store): Times { map t | t in s.history :: s.history[t].expires }

  lemma CleanUpMore(s: Store, done: set<string>, batch: set<string>, now: nat)
    requires batch <= Expired(CleanUp(s, done, now), now) && done <= Expired(s, now)
    ensures CleanUp(CleanUp(s, done, now), batch, now) == CleanUp(s, done + batch, now)
    ensures Expired(CleanUp(s, done, now), now) == Expired(s, now) - done
    ensures ExpiryOf(CleanUp(s, done, now)) == ExpiryOf(s)
  {}

  /** So far exactly `done` was removed, the earliest of what is due. */
  ghost predicate Cleaned(s: Store, t: Store, done: set<string>, busy: set<string>, now: nat, count: nat) {
    && done <= Due(s, busy, now) && t == CleanUp(s, done, now) && |done| == count
    && AreFirst(ExpiryOf(s), Due(s, busy, now), done)
  }

  lemma CleanStart(s: Store, busy: set<string>, now: nat)
    ensures Cleaned(s, s, {}, busy, now, 0)
  {}

  lemma FirstOfRest(at: Times, rows: set<string>, done: set<string>, batch: set<string>)
    requires AreFirst(at, rows, done) && AreFirst(at, rows - done, batch)
    ensures AreFirst(at, rows, done + batch) && done !! batch
  {
    forall a, b | a in done + batch && b in rows && b !in done + batch
      ensures Before(at, a, b)
    {
      assert b in rows - done;
    }
  }

  lemma CleanStep(s: Store, t: Store, done: set<string>, busy: set<string>, now: nat, count: nat,
          batch: set<string>, size: nat)
    requires Cleaned(s, t, done, busy, now, count) && AreFirst(ExpiryOf(t), Due(t, busy, now), batch)
    requires |batch| == if |Due(t, busy, now)| < size then |Due(t, busy, now)| else size
    ensures Cleaned(s, CleanUp(t, batch, now), done + batch, busy, now, count + |batch|)
    ensures |batch| < size ==> count + |batch| == |Due(s, busy, now)|
    ensures count + |batch| <= |Due(s, busy, now)|
  {
    var due := Due(s, busy, now);
    DueLeft(s, busy, done, now);
    FirstOfRest(ExpiryOf(s), due, done, batch);
    CountMore(due, done, batch, size);
    CleanUpMore(s, done, batch, now);
  }

  lemma DueLeft(s: Store, busy: set<string>, done: set<string>, now: nat)
    requires done <= Due(s, busy, now)
    ensures Due(CleanUp(s, done, now), busy, now) == Due(s, busy, now) - done
    ensures ExpiryOf(CleanUp(s, done, now)) == ExpiryOf(s)
  {
    CleanUpMore(s, done, {}, now);
  }

  /** Taking `batch` from what is left: all of it if it is less than a full batch. */
  lemma CountMore(due: set<string>, done: set<string>, batch: set<string>, size: nat)
    requires done <= due && batch <= due - done
    requires |batch| == if |due - done| < size then |due - done| else size
    ensures |done + batch| == |done| + |batch| <= |due|
    ensures |batch| < size ==> |done + batch| == |due|
  {
    PartCard(done + batch, done);
    assert done + batch - done == batch;
    PartCard(due, done);
    PartCard(due, done + batch);
  }

  lemma PartCard(all: set<string>, part: set<string>)
    requires part <= all
    ensures |all| == |part| + |all - part|
  {
    assert all == part + (all - part);
  }

  lemma CleanedLeft(s: Store, t: Store, done: set<string>, busy: set<string>, now: nat, count: nat)
    requires Cleaned(s, t, done, busy, now, count)
    ensures |Expired(t, now)| == |Expired(s, now)| - count
  {
    CleanUpMore(s, done, {}, now);
    assert |Expired(s, now)| == |done| + |Expired(s, now) - done|;
  }

  /** What a finished clean-up with room for `quota` rows has done. */
  ghost predicate CleanedAll(s: Store, t: Store, done: set<string>, busy: set<string>, now: nat, quota: nat) {
    && t == CleanUp(s, done, now) && AreFirst(ExpiryOf(s), Due(s, busy, now), done)
    && |done| == (if |Due(s, busy, now)| < quota then |Due(s, busy, now)| else quota)
    && |Expired(t, now)| == |Expired(s, now)| - |done|
  }

  ghost predicate Unfolded(t: Store) { true }

  /** `Cleaned` for the `due` rows there were, folded: it only comes into play where the store is `Unfolded`. */
  ghost predicate Cleaning(s: Store, t: Store, done: set<string>, busy: set<string>, now: nat, count: nat, due: nat) {
    forall x {:trigger Unfolded(x)} | Unfolded(x) && x == t ::
      Cleaned(s, x, done, busy, now, count) && due == |Due(s, busy, now)|
  }

  lemma CleaningStart(s: Store, busy: set<string>, now: nat)
    ensures Cleaning(s, s, {}, busy, now, 0, |Due(s, busy, now)|)
  {
    CleanStart(s, busy, now);
  }

  lemma CleanedEnough(s: Store, t: Store, done: set<string>, busy: set<string>, now: nat, count: nat, due: nat,
          quota: nat)
    requires Cleaning(s, t, done, busy, now, count, due) && count == if due < quota then due else quota
    ensures CleanedAll(s, t, done, busy, now, quota)
  {
    assert Unfolded(t);
    CleanedLeft(s, t, done, busy, now, count);
  }

  /** The rows that this many statements may take. */
  ghost function Rooms(size: nat, statements: nat): nat {
    if statements == 0 then 0 else size + Rooms(size, statements - 1)
  }

  lemma {:induction false} RoomsIs(size: nat, statements: nat)
    ensures Rooms(size, statements) == size * statements
    decreases statements
  {
    if statements == 0 {
    } else {
      RoomsIs(size, statements - 1);
      assert size * statements == size * (statements - 1) + size;
    }
  }

  /** One statement of the clean-up: the earliest rows due, at most `size` of them. */
  method CleanBatch(ghost s: Store, t: Store, ghost done: set<string>, busy: set<string>, size: nat, now: nat,
          ghost count: nat, ghost due: nat)
    returns (next: Store, rows: nat, ghost done': set<string>)
    requires Cleaning(s, t, done, busy, now, count, due)
    ensures Cleaning(s, next, done', busy, now, count + rows, due)
    ensures rows <= size && count + rows <= due && (rows < size ==> count + rows == due)
  {
    assert Unfolded(t);
    var batch := TakeFirst(ExpiryOf(t), Due(t, busy, now), size);
    CleanStep(s, t, done, busy, now, count, batch, size);
    next, rows, done' := CleanUp(t, batch, now), |batch|, done + batch;
  }

  /** The clean-up loop: at most `maxBatches` statements of `size` rows, stopping at a short one. */
  method CleanHistory(s: Store, busy: set<string>, size: nat, maxBatches: nat, now: nat)
    returns (t: Store, ghost done: set<string>)
    ensures CleanedAll(s, t, done, busy, now, size * maxBatches)
    ensures t.sessions == s.sessions && |Expired(t, now)| <= |Expired(s, now)|
  {
    t, done := s, {};
    ghost var count: nat, due, quota: nat := 0, |Due(s, busy, now)|, Rooms(size, maxBatches);
    RoomsIs(size, maxBatches);
    CleaningStart(s, busy, now);
    if size == 0 || maxBatches == 0 {
      CleanedEnough(s, t, done, busy, now, count, due, quota);
      return;
    }
    for batches := 0 to maxBatches
      invariant Cleaning(s, t, done, busy, now, count, due)
      invariant count <= due && count + Rooms(size, maxBatches - batches) == quota
    {
      var rows;
      t, rows, done := CleanBatch(s, t, done, busy, size, now, count, due);
      count := count + rows;
      if rows < size {
        CleanedEnough(s, t, done, busy, now, count, due, quota);
        return;
      }
    }
    CleanedEnough(s, t, done, busy, now, count, due, quota);
  }

  // ---- Runs -----------------------------------------------------------------

  /** The store, its clock, and for the proofs: which session each token was issued for, and all exchanges so far. */
  datatype System = System(store: Store, now: nat, family: map<string, string>, exchanged: seq<string>)

  datatype Step =
    | Open(session: string, user: string, token: string, expires: nat)
    | Refresh(token: string, next: string, found: Option<string>)
    | Revoke(session: string)
    | RevokeAll(user: string)
    | Clean(batch: set<string>)
    | SetActive(users: set<string>)
    | Wait(until: nat)

  /** A generated token is a new one. */
  predicate IsFresh(s: System, token: string) {
    token !in s.family && token !in s.store.history
  }

  ghost predicate Enabled(s: System, step: Step) {
    match step
    case Open(x, _, token, _) => x !in s.store.sessions && IsFresh(s, token)
    case Refresh(token, next, found) => IsFresh(s, next) && next != token && Found(s.store, token, found)
    case Revoke(x) => x in s.store.sessions
    case RevokeAll(_) => true
    case Clean(_) => true
    case SetActive(_) => true
    case Wait(until) => until >= s.now
  }

  ghost function Applied(s: System, step: Step): System
    requires Enabled(s, step)
  {
    match step
    case Open(x, user, token, expires) =>
      s.(store := s.store.(sessions := s.store.sessions[x := Session(user, token, None, expires, false, 1)]),
          family := s.family[token := x])
    case Refresh(token, next, found) =>
      var (store, outcome) := RefreshWith(s.store, token, next, s.now, found);
      if outcome.Exchanged?
          then s.(store := store, family := s.family[next := outcome.session], exchanged := s.exchanged + [token])
      else s.(store := store)
    case Revoke(x) => s.(store := RevokeOne(s.store, x))
    case RevokeAll(user) => s.(store := RevokeUser(s.store, user))
    case Clean(batch) => s.(store := CleanUp(s.store, batch, s.now))
    case SetActive(users) => s.(store := s.store.(active := users))
    case Wait(until) => s.(now := until)
  }

  ghost predicate Next(s: System, step: Step, t: System) {
    Enabled(s, step) && t == Applied(s, step)
  }

  /** What a step tells its caller. */
  ghost function Told(s: System, step: Step): seq<Outcome>
    requires Enabled(s, step)
  {
    if step.Refresh? then [RefreshWith(s.store, step.token, step.next, s.now, step.found).1] else []
  }

  /** A session's own tokens were issued for it; the current one has not been exchanged. */
  ghost predicate SessionSound(s: System, x: string)
    requires x in s.store.sessions
  {
    var session := s.store.sessions[x];
    && session.current in s.family && s.family[session.current] == x && session.current !in s.exchanged
    && session.current !in s.store.history
    && (session.previous.Some? ==>
          session.previous.value in s.exchanged && session.previous.value in s.family
              && s.family[session.previous.value] == x)
  }

  /** An exchanged token is remembered with its session and that session's expiry until both have expired. */
  ghost predicate TokenSound(s: System, token: string) {
    && token in s.family && token in s.store.history
    && s.store.history[token].session == s.family[token] && s.family[token] in s.store.sessions
    && s.store.history[token].expires == s.store.sessions[s.family[token]].expires
    && (!s.store.history[token].live ==> s.store.history[token].expires < s.now)
  }

  predicate NoRepeats(tokens: seq<string>) {
    forall i, j | 0 <= i < j < |tokens| :: tokens[i] != tokens[j]
  }

  ghost predicate Inv(s: System) {
    && (forall x {:trigger SessionSound(s, x)} | x in s.store.sessions :: SessionSound(s, x))
    && (forall token {:trigger TokenSound(s, token)} | token in s.exchanged :: TokenSound(s, token))
    && (forall token {:trigger token in s.exchanged} | token in s.exchanged :: token in s.family)
    && (forall token {:trigger token in s.store.history} | token in s.store.history :: token in s.exchanged)
    && NoRepeats(s.exchanged)
  }

  lemma ExchangeKeeps(s: System, token: string, next: string, found: Option<string>, t: System)
    requires Inv(s) && Next(s, Refresh(token, next, found), t) && found.Some?
    requires RefreshWith(s.store, token, next, s.now, found).1.Exchanged?
    ensures Inv(t) && token !in s.exchanged
  {
    var x := found.value;
    assert SessionSound(s, x);
    forall y | y in t.store.sessions
      ensures SessionSound(t, y)
    {
      assert SessionSound(s, y);
    }
    forall other | other in t.exchanged
      ensures TokenSound(t, other)
    {
      if other != token { assert TokenSound(s, other); }
    }
  }

  lemma RevokedKeeps(s: System, t: System)
    requires Inv(s) && t.family == s.family && t.exchanged == s.exchanged && t.now == s.now
        && t.store.history == s.store.history
    requires t.store.sessions.Keys == s.store.sessions.Keys
    requires forall x | x in s.store.sessions ::
               && t.store.sessions[x].current == s.store.sessions[x].current
               && t.store.sessions[x].previous == s.store.sessions[x].previous
               && t.store.sessions[x].expires == s.store.sessions[x].expires
    ensures Inv(t)
  {
    forall x | x in t.store.sessions ensures SessionSound(t, x) { assert SessionSound(s, x); }
    forall token | token in t.exchanged ensures TokenSound(t, token) { assert TokenSound(s, token); }
  }

  lemma OpenKeeps(s: System, x: string, user: string, token: string, expires: nat, t: System)
    requires Inv(s) && Next(s, Open(x, user, token, expires), t)
    ensures Inv(t)
  {
    forall other | other in t.exchanged ensures TokenSound(t, other) { assert TokenSound(s, other); }
    forall y | y in t.store.sessions
      ensures SessionSound(t, y)
    {
      if y != x { assert SessionSound(s, y); }
    }
  }

  lemma CleanKeeps(s: System, batch: set<string>, t: System)
    requires Inv(s) && Next(s, Clean(batch), t)
    ensures Inv(t)
  {
    forall x | x in t.store.sessions ensures SessionSound(t, x) { assert SessionSound(s, x); }
    forall token | token in t.exchanged ensures TokenSound(t, token) { assert TokenSound(s, token); }
  }

  lemma TimeKeeps(s: System, t: System)
    requires Inv(s) && t == s.(now := t.now) && t.now >= s.now
    ensures Inv(t)
  {
    forall x | x in t.store.sessions ensures SessionSound(t, x) { assert SessionSound(s, x); }
    forall token | token in t.exchanged ensures TokenSound(t, token) { assert TokenSound(s, token); }
  }

  lemma StepKeeps(s: System, step: Step, t: System)
    requires Inv(s) && Next(s, step, t)
    ensures Inv(t)
  {
    match step
    case Open(x, user, token, expires) => OpenKeeps(s, x, user, token, expires, t);
    case Refresh(token, next, found) =>
      if RefreshWith(s.store, token, next, s.now, found).1.Exchanged? {
        ExchangeKeeps(s, token, next, found, t);
      } else {
        RevokedKeeps(s, t);
      }
    case Revoke(x) => RevokedKeeps(s, t);
    case RevokeAll(user) => RevokedKeeps(s, t);
    case Clean(batch) => CleanKeeps(s, batch, t);
    case SetActive(users) => RevokedKeeps(s, t);
    case Wait(until) => TimeKeeps(s, t);
  }

  ghost predicate Run(states: seq<System>, steps: seq<Step>) {
    && |states| == |steps| + 1 && Inv(states[0])
    && forall i | 0 <= i < |steps| :: Next(states[i], steps[i], states[i + 1])
  }

  lemma EmptyIsSound(active: set<string>)
    ensures Inv(System(Store(map[], map[], active), 0, map[], []))
  {}

  /**
   A run from the empty store in which a session is opened, its token exchanged, and the
   rotated token presented again: the replay is noticed and the session revoked.
   */
  lemma ReplayedRun(user: string) returns (states: seq<System>, steps: seq<Step>)
    ensures Run(states, steps) && states[0] == System(Store(map[], map[], {user}), 0, map[], [])
    ensures |steps| == 3 && steps[1].Refresh? && steps[2].Refresh? && steps[1].token == steps[2].token
    ensures Enabled(states[1], steps[1]) && Enabled(states[2], steps[2])
    ensures Told(states[1], steps[1]) == [Exchanged("session")] && Told(states[2], steps[2]) == [Reused("session")]
    ensures "session" in states[3].store.sessions && states[3].store.sessions["session"].revoked
  {
    EmptyIsSound({user});
    var s0 := System(Store(map[], map[], {user}), 0, map[], []);
    var open := Open("session", user, "first", 10);
    var s1 := Applied(s0, open);
    var exchange := Refresh("first", "second", Some("session"));
    assert Matches(s1.store, "first", "session");
    var s2 := Applied(s1, exchange);
    var replay := Refresh("first", "third", Some("session"));
    assert Matches(s2.store, "first", "session");
    var s3 := Applied(s2, replay);
    states, steps := [s0, s1, s2, s3], [open, exchange, replay];
  }

  lemma {:induction false} RunKeeps(states: seq<System>, steps: seq<Step>, n: nat)
    requires Run(states, steps) && n < |states|
    ensures Inv(states[n])
    decreases n
  {
    if n == 0 {
    } else {
      RunKeeps(states, steps, n - 1);
      assert Next(states[n - 1], steps[n - 1], states[n - 1 + 1]);
      StepKeeps(states[n - 1], steps[n - 1], states[n]);
    }
  }

  /** Over every run with fresh tokens, no token is exchanged twice. */
  lemma ExchangedAtMostOnce(states: seq<System>, steps: seq<Step>, n: nat)
    requires Run(states, steps) && n < |states|
    ensures NoRepeats(states[n].exchanged)
  {
    RunKeeps(states, steps, n);
  }

  // ---- What a refresh answers -----------------------------------------------

  /** The token is the current one of a session that is not revoked, not over, and of an active user. */
  predicate Exchangeable(s: System, token: string, x: string) {
    && x in s.store.sessions && s.store.sessions[x].current == token
    && !s.store.sessions[x].revoked && s.store.sessions[x].expires > s.now && s.store.sessions[x].user in s.store.active
  }

  /** The token was exchanged before, and its session is not revoked, not over, and of an active user. */
  predicate Replays(s: System, token: string, x: string) {
    && token in s.exchanged && token in s.family && s.family[token] == x && x in s.store.sessions
    && !s.store.sessions[x].revoked && s.store.sessions[x].expires > s.now && s.store.sessions[x].user in s.store.active
  }

  /** A token has one use only. */
  lemma OneUse(s: System, token: string, x: string, y: string)
    requires Inv(s) && Exchangeable(s, token, x)
    ensures Matches(s.store, token, y) <==> y == x
    ensures s.store.sessions[x].previous != Some(token) && token !in s.store.history && !Replays(s, token, y)
  {
    assert SessionSound(s, x);
    if y in s.store.sessions { assert SessionSound(s, y); }
  }

  /**
   In every state of a run: exactly the current token of a session that may go on is
   exchanged, whatever row the query returns first.  The session then has the new token,
   remembers the old one, and ends when it did; nothing else changes.
   */
  lemma ExchangedExactly(s: System, token: string, next: string, found: Option<string>, x: string)
    requires Inv(s) && Enabled(s, Refresh(token, next, found))
    ensures Told(s, Refresh(token, next, found)) == [Exchanged(x)] <==> Exchangeable(s, token, x)
    ensures Exchangeable(s, token, x) ==>
              var r := s.store.sessions[x];
              Applied(s, Refresh(token, next, found)).store
              == Store(s.store.sessions[x := Session(r.user, next, Some(token), r.expires, false, r.version + 1)],
                       s.store.history[token := Rotated(x, r.expires, true)], s.store.active)
  {
    if Exchangeable(s, token, x) {
      OneUse(s, token, x, x);
      if found.Some? { OneUse(s, token, x, found.value); }
    }
  }

  /** And exactly an exchanged token of such a session is reported as reuse. */
  lemma ReusedExactly(s: System, token: string, next: string, found: Option<string>, x: string)
    requires Inv(s) && Enabled(s, Refresh(token, next, found))
    ensures Told(s, Refresh(token, next, found)) == [Reused(x)] <==> Replays(s, token, x)
    ensures Replays(s, token, x) ==>
              Applied(s, Refresh(token, next, found)).store
              == s.store.(sessions := s.store.sessions[x :=
                   s.store.sessions[x].(revoked := true, version := s.store.sessions[x].version + 1)])
    ensures Told(s, Refresh(token, next, found)) == [Rejected] ==>
              Applied(s, Refresh(token, next, found)).store == s.store
  {
    if Replays(s, token, x) {
      ReplayRevokes(s, token, next, found);
    } else if found.Some? {
      assert SessionSound(s, found.value);
    } else if token in s.store.history {
      assert TokenSound(s, token);
    }
  }

  ghost predicate ExchangedAt(states: seq<System>, steps: seq<Step>, k: nat, token: string)
    requires k < |steps| && k < |states|
  {
    steps[k].Refresh? && steps[k].token == token && exists x :: Exchangeable(states[k], token, x)
  }

  lemma StepExchanges(s: System, step: Step, t: System, token: string)
    requires Inv(s) && Next(s, step, t) && token in t.exchanged && token !in s.exchanged
    ensures step.Refresh? && step.token == token && exists x :: Exchangeable(s, token, x)
  {
    var outcome := RefreshWith(s.store, token, step.next, s.now, step.found).1;
    assert Told(s, step) == [Exchanged(outcome.session)];
    ExchangedExactly(s, token, step.next, step.found, outcome.session);
  }

  /** Along every run, whatever token was exchanged was exchanged at a step at which it could be. */
  lemma {:induction false} ExchangesWereDue(states: seq<System>, steps: seq<Step>, n: nat, token: string)
    requires Run(states, steps) && n < |states| && token in states[n].exchanged && token !in states[0].exchanged
    ensures exists k: nat | k < n :: ExchangedAt(states, steps, k, token)
    decreases n
  {
    var m := n - 1;
    if token in states[m].exchanged {
      ExchangesWereDue(states, steps, m, token);
    } else {
      RunKeeps(states, steps, m);
      assert Next(states[m], steps[m], states[m + 1]);
      StepExchanges(states[m], steps[m], states[n], token);
      assert ExchangedAt(states, steps, m, token);
    }
  }

  /** Presenting a rotated token of a live session of an active user revokes that session. */
  lemma ReplayRevokes(s: System, token: string, next: string, found: Option<string>)
    requires Inv(s) && token in s.exchanged && Found(s.store, token, found)
        && (found.Some? ==> found.value in s.store.sessions)
    requires token in s.family && s.family[token] in s.store.sessions
    requires Usable(s.store.sessions[s.family[token]], s.now)
        && s.store.sessions[s.family[token]].user in s.store.active
    ensures RefreshWith(s.store, token, next, s.now, found)
        == (RevokeOne(s.store, s.family[token]), Reused(s.family[token]))
  {
    assert TokenSound(s, token);
    match found
    case Some(x) =>
      assert SessionSound(s, x);
    case None =>
  }

  /** Once revoked, a session accepts no token again, whatever happens next. */
  lemma RevokedAcceptsNothing(s: System, token: string, next: string, found: Option<string>)
    requires Inv(s) && token in s.family && s.family[token] in s.store.sessions
        && s.store.sessions[s.family[token]].revoked
    requires Found(s.store, token, found) && (found.Some? ==> found.value in s.store.sessions)
    ensures RefreshWith(s.store, token, next, s.now, found) == (s.store, Rejected)
  {
    match found
    case Some(x) => assert SessionSound(s, x);
    case None => if token in s.store.history { assert TokenSound(s, token); }
  }

  ghost predicate Ended(s: System, x: string) { x in s.store.sessions && s.store.sessions[x].revoked }

  lemma RevokedStays(s: System, step: Step, t: System, x: string)
    requires Inv(s) && Next(s, step, t) && Ended(s, x)
    ensures Ended(t, x)
  {}

  lemma RevokedNext(states: seq<System>, steps: seq<Step>, k: nat, x: string)
    requires Run(states, steps) && k < |steps| && Ended(states[k], x)
    ensures Ended(states[k + 1], x)
  {
    RunKeeps(states, steps, k);
    assert Next(states[k], steps[k], states[k + 1]);
    RevokedStays(states[k], steps[k], states[k + 1], x);
  }

  /** A session revoked at some point of a run is revoked at every later point. */
  lemma {:induction false} RevokedStaysAlongRun(states: seq<System>, steps: seq<Step>, m: nat, n: nat, x: string)
    requires Run(states, steps) && m <= n < |states| && Ended(states[m], x)
    ensures Ended(states[n], x)
    decreases n - m
  {
    if m < n {
      RevokedNext(states, steps, m, x);
      RevokedStaysAlongRun(states, steps, m + 1, n, x);
    }
  }

  /** After a replay, no token of that family is accepted at any later point of the run. */
  lemma ReplayEndsFamily(states: seq<System>, steps: seq<Step>, m: nat, n: nat, token: string, other: string,
          next: string, found: Option<string>)
    requires Run(states, steps) && m < |steps| && m < n < |states|
    requires steps[m].Refresh? && steps[m].token == token && token in states[m].exchanged
    requires token in states[m].family && states[m].family[token] in states[m].store.sessions
    requires Usable(states[m].store.sessions[states[m].family[token]], states[m].now)
    requires states[m].store.sessions[states[m].family[token]].user in states[m].store.active
    requires other in states[n].family && states[n].family[other] == states[m].family[token]
    requires Found(states[n].store, other, found) && (found.Some? ==> found.value in states[n].store.sessions)
    ensures RefreshWith(states[n].store, other, next, states[n].now, found) == (states[n].store, Rejected)
  {
    var x := states[m].family[token];
    RunKeeps(states, steps, m);
    assert Next(states[m], steps[m], states[m + 1]);
    ReplayRevokes(states[m], token, steps[m].next, steps[m].found);
    RevokedStaysAlongRun(states, steps, m + 1, n, x);
    RunKeeps(states, steps, n);
    RevokedAcceptsNothing(states[n], other, next, found);
  }

  // ---- Clean-up makes no difference -----------------------------------------

  /** The same except that `a` has forgotten some rotated tokens that have expired. */
  ghost predicate Alike(a: System, b: System) {
    && a.now == b.now && a.family == b.family && a.exchanged == b.exchanged
    && a.store.sessions == b.store.sessions && a.store.active == b.store.active
    && a.store.history.Keys == b.store.history.Keys
    && forall token | token in a.store.history :: AlikeToken(a.store.history[token], b.store.history[token], a.now)
  }

  predicate AlikeToken(a: Rotated, b: Rotated, now: nat) {
    a == b || (a == b.(live := false) && b.expires < now)
  }

  lemma CleanedAlike(a: System, b: System, batch: set<string>)
    requires Alike(a, b)
    ensures Alike(Applied(a, Clean(batch)), b)
  {}

  lemma RefreshedAlike(a: System, b: System, token: string, next: string, found: Option<string>)
    requires Alike(a, b) && Enabled(a, Refresh(token, next, found))
    ensures Enabled(b, Refresh(token, next, found))
    ensures RefreshWith(a.store, token, next, a.now, found).1 == RefreshWith(b.store, token, next, b.now, found).1
    ensures Alike(Applied(a, Refresh(token, next, found)), Applied(b, Refresh(token, next, found)))
  {
    assert forall y :: Matches(a.store, token, y) == Matches(b.store, token, y);
    if token in a.store.history { assert AlikeToken(a.store.history[token], b.store.history[token], a.now); }
  }

  lemma SteppedAlike(a: System, b: System, step: Step)
    requires Alike(a, b) && Enabled(a, step) && !step.Clean?
    ensures Enabled(b, step) && Told(a, step) == Told(b, step)
    ensures Alike(Applied(a, step), Applied(b, step))
  {
    match step
    case Open(_, _, _, _) =>
    case Refresh(token, next, found) => RefreshedAlike(a, b, token, next, found);
    case Revoke(_) =>
    case RevokeAll(_) =>
    case SetActive(_) =>
    case Wait(_) =>
  }

  function WithoutCleaning(steps: seq<Step>): seq<Step> {
    if steps == [] then []
    else WithoutCleaning(steps[..|steps| - 1]) + if steps[|steps| - 1].Clean? then [] else [steps[|steps| - 1]]
  }

  /** Everything the callers were told along a run, in order. */
  ghost function AllTold(states: seq<System>, steps: seq<Step>): seq<Outcome>
    requires Run(states, steps)
    decreases |steps|
  {
    if steps == [] then []
    else
      var n := |steps| - 1;
      RunPrefix(states, steps, n);
      assert Next(states[n], steps[n], states[n + 1]);
      AllTold(states[..n + 1], steps[..n]) + Told(states[n], steps[n])
  }

  lemma RunPrefix(states: seq<System>, steps: seq<Step>, n: nat)
    requires Run(states, steps) && n <= |steps|
    ensures Run(states[..n + 1], steps[..n])
  {
    forall i | 0 <= i < n
      ensures Next(states[..n + 1][i], steps[..n][i], states[..n + 1][i + 1])
    {
      assert Next(states[i], steps[i], states[i + 1]);
    }
  }

  lemma RunLonger(states: seq<System>, steps: seq<Step>, step: Step)
    requires Run(states, steps) && Enabled(states[|steps|], step)
    ensures var longer := states + [Applied(states[|steps|], step)];
            && Run(longer, steps + [step])
            && AllTold(longer, steps + [step]) == AllTold(states, steps) + Told(states[|steps|], step)
  {
    var longer, more := states + [Applied(states[|steps|], step)], steps + [step];
    forall i | 0 <= i < |more|
      ensures Next(longer[i], more[i], longer[i + 1])
    {
      if i < |steps| { assert Next(states[i], steps[i], states[i + 1]); }
    }
    assert longer[..|steps| + 1] == states && more[..|steps|] == steps;
  }

  /**
   Clean-up makes no difference.  Leaving every clean-up out of a run gives a run too, in
   which every caller is told the same and which ends in the same sessions.
   */
  lemma {:induction false} CleanUpInvisible(states: seq<System>, steps: seq<Step>) returns (others: seq<System>)
    requires Run(states, steps)
    ensures Run(others, WithoutCleaning(steps)) && others[0] == states[0]
    ensures AllTold(others, WithoutCleaning(steps)) == AllTold(states, steps)
    ensures Alike(states[|states| - 1], others[|others| - 1])
    decreases |steps|
  {
    if steps == [] {
      others := states;
    } else {
      var n := |steps| - 1;
      var step := steps[n];
      RunPrefix(states, steps, n);
      assert Next(states[n], step, states[n + 1]);
      others := CleanUpInvisible(states[..n + 1], steps[..n]);
      var kept := WithoutCleaning(steps[..n]);
      var last := others[|others| - 1];
      assert AllTold(states, steps) == AllTold(states[..n + 1], steps[..n]) + Told(states[n], step);
      if step.Clean? {
        CleanedAlike(states[n], last, step.batch);
        assert kept + [] == kept;
      } else {
        SteppedAlike(states[n], last, step);
        RunLonger(others, kept, step);
        others := others + [Applied(last, step)];
      }
    }
  }
}
