/**
 Login and lockout of internal/authentication/service.go for one credential: attempts
 read the credential, verify the password outside any transaction, and commit a reset
 guarded by the version or a counted failure guarded by hash and lock.  Attempts and
 password changes interleave freely; the clocks of different attempts need not agree.
 */
module LoginLockout {
  import opened Wrappers
  import Rotation = RefreshRotation

  datatype Policy = Policy(maxFailedAttempts: nat, lockDuration: nat, verify: (string, string) -> bool)

  datatype Credential = Credential(hash: string, failed: nat, lockedUntil: Option<nat>, version: nat)

  predicate Locked(c: Credential, now: nat) {
    c.lockedUntil.Some? && c.lockedUntil.value > now
  }

  /** The guarded increment of recordFailure: fenced by the hash, the lock and an active user. */
  predicate Counts(c: Credential, hash: string, active: bool, now: nat) {
    c.hash == hash && !Locked(c, now) && active
  }

  function Failed(p: Policy, c: Credential, now: nat): Credential {
    Credential(c.hash, c.failed + 1,
               if c.failed + 1 >= p.maxFailedAttempts then Some(now + p.lockDuration) else c.lockedUntil, c.version + 1)
  }

  function ResetTo(c: Credential, hash: string): Credential { Credential(hash, 0, None, c.version + 1) }

  /** The stored credential row of one user and the statements that change it, next to the user's sessions. */
  class CredentialRow {
    const policy: Policy
    const user: string
    const sessions: Rotation.Service
    var hash: string
    var failed: nat
    var lockedUntil: Option<nat>
    var version: nat

    function State(): Credential
      reads this
    {
      Credential(hash, failed, lockedUntil, version)
    }

    constructor (policy: Policy, user: string, sessions: Rotation.Service, hash: string)
      ensures this.policy == policy && this.user == user && this.sessions == sessions
          && State() == Credential(hash, 0, None, 1)
    {
      this.policy, this.user, this.sessions := policy, user, sessions;
      this.hash, failed, lockedUntil, version := hash, 0, None, 1;
    }

    /** A counted failure at or past the threshold locks the credential until the lock has run out. */
    method RecordFailure(expected: string, active: bool, now: nat) returns (counted: bool)
      modifies this
      ensures counted == Counts(old(State()), expected, active, now)
      ensures State() == if counted then Failed(policy, old(State()), now) else old(State())
      ensures counted <==>
          && old(hash) == expected && active
          && !(old(lockedUntil).Some? && old(lockedUntil).value > now)
      ensures counted ==> hash == expected && failed == old(failed) + 1 && version == old(version) + 1
      ensures counted ==>
                forall at: nat | at >= now :: Locked(State(), at) <==>
                    failed >= policy.maxFailedAttempts && at < now + policy.lockDuration
      ensures counted && failed >= policy.maxFailedAttempts ==>
                forall at: nat | at < now + policy.lockDuration :: !Counts(State(), hash, active, at)
    {
      if hash != expected || !active { return false; }
      if lockedUntil.Some? && lockedUntil.value > now { return false; }
      lockedUntil := if failed + 1 >= policy.maxFailedAttempts then Some(now + policy.lockDuration) else lockedUntil;
      failed := failed + 1;
      version := version + 1;
      counted := true;
    }

    /** A login that commits unlocks the credential and fences every other login that read it before. */
    method CommitLogin(expected: nat) returns (ok: bool)
      modifies this
      ensures ok == (old(version) == expected)
      ensures State() == if ok then ResetTo(old(State()), old(hash)) else old(State())
      ensures ok ==> hash == old(hash) && failed == 0 && version == expected + 1 && forall now :: !Locked(State(), now)
    {
      if version != expected { return false; }
      failed, lockedUntil, version := 0, None, version + 1;
      ok := true;
    }

    /** A password change also ends every session of the user, in the same transaction. */
    method UpdatePassword(next: string, expected: nat) returns (ok: bool)
      modifies this, sessions
      ensures ok == (old(version) == expected)
      ensures State() == if ok then ResetTo(old(State()), next) else old(State())
      ensures ok ==> hash == next && failed == 0 && version == expected + 1 && forall now :: !Locked(State(), now)
      ensures sessions.State() == if ok then Rotation.RevokeUser(old(sessions.State()), user) else old(sessions.State())
      ensures ok ==> forall x | x in sessions.sessions && sessions.sessions[x].user == user ::
          sessions.sessions[x].revoked
    {
      if version != expected { return false; }
      hash, failed, lockedUntil, version := next, 0, None, version + 1;
      var revoked := sessions.RevokeAll(user, false, true);
      ok := true;
    }
  }

  // ---- Runs -----------------------------------------------------------------

  /** An attempt after its read: what it saw and when. */
  datatype Attempt = Attempt(password: string, seen: Credential, readAt: nat)

  /** A committed login: the credential it committed against, the hash it had verified, and when. */
  datatype Login = Login(password: string, verified: string, against: Credential, at: nat)

  /** `failures` are the times of the counted failures since the last reset. */
  datatype System = System(credential: Credential, attempts: map<nat, Attempt>, logins: seq<Login>, failures: seq<nat>)

  datatype Step =
    | Read(id: nat, password: string, now: nat)
    | Fail(id: nat, active: bool, now: nat)
    | Commit(id: nat, now: nat)
    | SetPassword(hash: string)

  ghost predicate Next(p: Policy, s: System, step: Step, t: System) {
    match step
    case Read(id, password, now) =>
      t == if Locked(s.credential, now) then s
          else s.(attempts := s.attempts[id := Attempt(password, s.credential, now)])
    case Fail(id, active, now) =>
      && id in s.attempts
      && var a := s.attempts[id];
      && !p.verify(a.password, a.seen.hash)
      && t == if Counts(s.credential, a.seen.hash, active, now)
              then s.(credential := Failed(p, s.credential, now), attempts := s.attempts - {id},
                  failures := s.failures + [now])
              else s.(attempts := s.attempts - {id})
    case Commit(id, now) =>
      && id in s.attempts
      && var a := s.attempts[id];
      && p.verify(a.password, a.seen.hash) && now >= a.readAt
      && t == if s.credential.version == a.seen.version
              then s.(credential := ResetTo(s.credential, s.credential.hash), attempts := s.attempts - {id},
                      logins := s.logins + [Login(a.password, a.seen.hash, s.credential, now)], failures := [])
              else s.(attempts := s.attempts - {id})
    case SetPassword(hash) => t == s.(credential := ResetTo(s.credential, hash), failures := [])
  }

  /** A snapshot is the current row as long as the version has not moved, and was not locked when read. */
  ghost predicate AttemptSound(s: System, a: Attempt) {
    && a.seen.version <= s.credential.version && (a.seen.version == s.credential.version ==> a.seen == s.credential)
    && !Locked(a.seen, a.readAt)
  }

  predicate LoginSound(p: Policy, l: Login) {
    l.against.hash == l.verified && p.verify(l.password, l.against.hash) && !Locked(l.against, l.at)
  }

  /** From the threshold on, each counted failure comes a lock duration after the one before. */
  predicate Spaced(p: Policy, failures: seq<nat>) {
    forall i | p.maxFailedAttempts <= i < |failures| && i > 0 :: failures[i] >= failures[i - 1] + p.lockDuration
  }

  ghost predicate Inv(p: Policy, s: System) {
    && (forall id | id in s.attempts :: AttemptSound(s, s.attempts[id]))
    && (forall i | 0 <= i < |s.logins| :: LoginSound(p, s.logins[i]))
    && |s.failures| == s.credential.failed && Spaced(p, s.failures)
    && (s.failures != [] && |s.failures| >= p.maxFailedAttempts ==>
          s.credential.lockedUntil == Some(s.failures[|s.failures| - 1] + p.lockDuration))
  }

  lemma StepKeeps(p: Policy, s: System, step: Step, t: System)
    requires Inv(p, s) && Next(p, s, step, t)
    ensures Inv(p, t)
  {
    match step
    case Read(id, password, now) =>
    case Fail(id, active, now) => FailKeeps(p, s, id, active, now, t);
    case Commit(id, now) => CommitKeeps(p, s, id, now, t);
    case SetPassword(hash) =>
  }

  lemma FailKeeps(p: Policy, s: System, id: nat, active: bool, now: nat, t: System)
    requires Inv(p, s) && Next(p, s, Fail(id, active, now), t)
    ensures Inv(p, t)
  {
    if Counts(s.credential, s.attempts[id].seen.hash, active, now) {
      forall i | p.maxFailedAttempts <= i < |t.failures| && i > 0
        ensures t.failures[i] >= t.failures[i - 1] + p.lockDuration
      {
        if i == |s.failures| { assert s.credential.lockedUntil == Some(s.failures[i - 1] + p.lockDuration); }
      }
    }
  }

  lemma CommitKeeps(p: Policy, s: System, id: nat, now: nat, t: System)
    requires Inv(p, s) && Next(p, s, Commit(id, now), t)
    ensures Inv(p, t)
  {
    assert AttemptSound(s, s.attempts[id]);
  }

  ghost predicate Run(p: Policy, states: seq<System>, steps: seq<Step>) {
    && |states| == |steps| + 1
    && states[0].credential.failed == 0 && states[0].attempts == map[] && states[0].logins == []
    && states[0].failures == []
    && forall i | 0 <= i < |steps| :: Next(p, states[i], steps[i], states[i + 1])
  }

  lemma {:induction false} RunKeeps(p: Policy, states: seq<System>, steps: seq<Step>, n: nat)
    requires Run(p, states, steps) && n < |states|
    ensures Inv(p, states[n])
    decreases n
  {
    if n == 0 {
    } else {
      RunKeeps(p, states, steps, n - 1);
      assert Next(p, states[n - 1], steps[n - 1], states[n - 1 + 1]);
      StepKeeps(p, states[n - 1], steps[n - 1], states[n]);
    }
  }

  /** Every committed login found the credential unlocked and the hash it had verified still current. */
  lemma LoginsAreSound(p: Policy, states: seq<System>, steps: seq<Step>, n: nat, i: nat)
    requires Run(p, states, steps) && n < |states| && i < |states[n].logins|
    ensures var l := states[n].logins[i];
            l.against.hash == l.verified && p.verify(l.password, l.against.hash) && !Locked(l.against, l.at)
  {
    RunKeeps(p, states, steps, n);
    assert LoginSound(p, states[n].logins[i]);
  }

  lemma {:induction false} SpacedFrom(p: Policy, failures: seq<nat>, first: nat, n: nat)
    requires Spaced(p, failures) && p.maxFailedAttempts <= first + 1 && first <= n < |failures|
    ensures failures[n] >= failures[first] + (n - first) * p.lockDuration
    decreases n - first
  {
    if first < n {
      SpacedFrom(p, failures, first, n - 1);
      assert failures[n] >= failures[n - 1] + p.lockDuration;
      assert (n - first) * p.lockDuration == (n - 1 - first) * p.lockDuration + p.lockDuration;
    }
  }

  /**
   Since the last reset, the n-th counted failure (n at least the threshold, counted from
   1) comes no earlier than the threshold's plus one lock duration for each further one.
   */
  lemma FailuresAreSpaced(p: Policy, states: seq<System>, steps: seq<Step>, k: nat, n: nat)
    requires Run(p, states, steps) && k < |states| && 1 <= p.maxFailedAttempts <= n <= |states[k].failures|
    ensures var failures := states[k].failures;
            failures[n - 1] >= failures[p.maxFailedAttempts - 1] + (n - p.maxFailedAttempts) * p.lockDuration
  {
    RunKeeps(p, states, steps, k);
    SpacedFrom(p, states[k].failures, p.maxFailedAttempts - 1, n - 1);
  }
}
