/**
 The transactional outbox: claim, dispatch and update of internal/eventbus/outbox.go,
 operator replay of internal/eventbus/repair.go and retention clean-up of
 internal/datalifecycle/manager.go, for any number of workers.  Every transaction is one
 step; a worker may stop or lose its answer between any two of them.
 */
module Outbox {
  import opened Earliest
  import opened Wrappers

  const MAX_ENVELOPE_BYTES: nat := 1048576

  type Bytes = seq<bv8>

  /**
   `decodes` says that these bytes hold a valid envelope for this id and subject, `remarshal`
   what marshalling the decoded envelope makes of them.
   */
  datatype Config = Config(decodes: (string, string, Bytes) -> bool, remarshal: Bytes -> Bytes, maxDeliver: int,
                           lease: nat)

  datatype Row = Row(subject: string, envelope: Bytes, created: nat, available: nat, attempts: nat,
                     lockedBy: string, lockedUntil: Option<nat>, published: Option<nat>,
                     dead: Option<nat>, deleted: bool, version: nat)

  /** decodeClaimedEnvelope. */
  predicate Decodable(c: Config, id: string, subject: string, bytes: Bytes) {
    |bytes| <= MAX_ENVELOPE_BYTES && c.decodes(id, subject, bytes)
  }

  predicate DecodableRow(c: Config, id: string, r: Row) { Decodable(c, id, r.subject, r.envelope) }

  // ---- The statements -------------------------------------------------------

  predicate Claimable(r: Row, now: nat) {
    && r.published.None? && r.dead.None? && !r.deleted && r.available <= now
    && (r.lockedUntil.None? || r.lockedUntil.value < now)
  }

  /** Neither published, dead nor removed, due by now, and under no lease that still runs. */
  predicate Waits(r: Row, now: nat) {
    && !(r.published.Some? || r.dead.Some? || r.deleted) && now >= r.available
    && match r.lockedUntil
       case None => true
       case Some(until) => now > until
  }

  lemma ClaimableWaits(r: Row, now: nat)
    ensures Claimable(r, now) <==> Waits(r, now)
  {}

  function Claimed(c: Config, r: Row, worker: string, now: nat): Row {
    r.(lockedBy := worker, lockedUntil := Some(now + c.lease), version := r.version + 1)
  }

  /** What the claiming query returns of the envelope: nothing when it is oversized. */
  function View(bytes: Bytes): Bytes { if |bytes| <= MAX_ENVELOPE_BYTES then bytes else [] }

  predicate Held(r: Row, worker: string) {
    r.lockedBy == worker && r.published.None? && !r.deleted
  }

  function Unlocked(r: Row): Row { r.(lockedBy := "", lockedUntil := None, version := r.version + 1) }

  datatype Update = Published | Retry(delay: nat) | DeadLetter

  /** updateClaim, when the row is still held. */
  function Updated(r: Row, update: Update, now: nat): Row {
    match update
    case Published => Unlocked(r).(published := Some(now))
    case Retry(delay) => Unlocked(r).(attempts := r.attempts + 1, available := now + delay)
    case DeadLetter => Unlocked(r).(attempts := r.attempts + 1, dead := Some(now))
  }

  predicate Replayable(r: Row, version: nat) {
    r.version == version && r.dead.Some? && r.published.None? && !r.deleted
  }

  function Replayed(r: Row, replacement: Option<Bytes>, now: nat): Row {
    Unlocked(r).(attempts := 0, available := now, dead := None,
                 envelope := if replacement.Some? then replacement.value else r.envelope)
  }

  /** Past retention: published or dead before the cutoff. */
  predicate Expired(r: Row, cutoff: nat) {
    !r.deleted && ((r.published.Some? && r.published.value < cutoff) || (r.dead.Some? && r.dead.value < cutoff))
  }

  function Removed(r: Row): Row { r.(envelope := [], deleted := true, version := r.version + 1) }

  /** What a claim chooses from. */
  function ClaimableRows(rows: map<string, Row>, busy: set<string>, now: nat): set<string> {
    set id | id in rows && id !in busy && Claimable(rows[id], now)
  }

  function CreatedAt(rows: map<string, Row>): Times { map id | id in rows :: rows[id].created }

  /** The table and the transactions on it. */
  class Table {
    const config: Config
    var rows: map<string, Row>

    constructor (config: Config)
      ensures this.config == config && rows == map[]
    {
      this.config, rows := config, map[];
    }

    /**
     The earliest claimable row that no other transaction has locked, leased to the worker;
     returned as the query shows it.
     */
    method Claim(worker: string, busy: set<string>, now: nat) returns (r: Option<(string, Row)>)
      modifies this
      ensures r.None? ==> rows == old(rows) && ClaimableRows(rows, busy, now) == {}
      ensures r.Some? ==>
                && IsFirst(CreatedAt(old(rows)), ClaimableRows(old(rows), busy, now), r.value.0)
                && rows == old(rows)[r.value.0 := Claimed(config, old(rows)[r.value.0], worker, now)]
                && r.value.1 == old(rows)[r.value.0].(envelope := View(old(rows)[r.value.0].envelope))
                && Waits(old(rows)[r.value.0], now)
                && forall at: nat | at <= now + config.lease :: !Waits(rows[r.value.0], at)
      ensures r.None? ==> forall id | id in rows && id !in busy :: !Waits(rows[id], now)
    {
      var candidates := ClaimableRows(rows, busy, now);
      forall id | id in rows && id !in busy
        ensures id in candidates <==> Waits(rows[id], now)
      {
        ClaimableWaits(rows[id], now);
      }
      if candidates == {} { return None; }
      var id := First(CreatedAt(rows), candidates);
      var record := rows[id];
      rows := rows[id :=
          record.(lockedBy := worker, lockedUntil := Some(now + config.lease), version := record.version + 1)];
      r := Some((id, record.(envelope := View(record.envelope))));
    }

    /** Guarded by `locked_by`: a lost lease changes nothing. */
    method UpdateClaim(worker: string, id: string, update: Update, now: nat) returns (ok: bool)
      modifies this
      ensures ok <==> id in old(rows) && Held(old(rows)[id], worker)
      ensures rows == if ok then old(rows)[id := Updated(old(rows)[id], update, now)] else old(rows)
      ensures ok && worker != "" ==> !Held(rows[id], worker)
      ensures ok && !update.Retry? ==> forall at: nat :: !Claimable(rows[id], at)
      ensures ok && update.Retry? ==>
                forall at: nat :: Claimable(rows[id], at) <==> old(rows)[id].dead.None? && at >= now + update.delay
    {
      if id !in rows || !Held(rows[id], worker) { return false; }
      var record := rows[id].(lockedBy := "", lockedUntil := None, version := rows[id].version + 1);
      match update {
        case Published => record := record.(published := Some(now));
        case Retry(delay) => record := record.(attempts := record.attempts + 1, available := now + delay);
        case DeadLetter => record := record.(attempts := record.attempts + 1, dead := Some(now));
      }
      rows := rows[id := record];
      ok := true;
    }

    /** Replay and ReplaceAndReplay: only a dead row of this version whose new bytes decode. */
    method Replay(id: string, version: nat, replacement: Option<Bytes>, now: nat) returns (ok: bool)
      modifies this
      ensures ok <==> && (replacement.Some? ==> 0 < |replacement.value| <= MAX_ENVELOPE_BYTES)
                      && id in old(rows) && Replayable(old(rows)[id], version)
                      && DecodableRow(config, id, Replayed(old(rows)[id], replacement, now))
      ensures rows == if ok then old(rows)[id := Replayed(old(rows)[id], replacement, now)] else old(rows)
      ensures ok ==> rows[id].attempts == 0 && forall at: nat :: Waits(rows[id], at) <==> at >= now
      ensures ok ==> rows[id].envelope == if replacement.Some? then replacement.value else old(rows)[id].envelope
    {
      if replacement.Some? && (replacement.value == [] || |replacement.value| > MAX_ENVELOPE_BYTES) { return false; }
      if id !in rows || !Replayable(rows[id], version) { return false; }
      var record := rows[id];
      if replacement.None? && |record.envelope| > MAX_ENVELOPE_BYTES { return false; }
      var envelope := if replacement.Some? then replacement.value else record.envelope;
      if !Decodable(config, id, record.subject, envelope) { return false; }
      rows := rows[id := record.(envelope := envelope, attempts := 0, available := now, dead := None,
                                 lockedBy := "", lockedUntil := None, version := record.version + 1)];
      ok := true;
    }
  }

  // ---- The workers ----------------------------------------------------------

  /** What a worker holds after a claim; `sent` once the bus has accepted it. */
  datatype Hand = Hand(id: string, subject: string, envelope: Bytes, attempts: nat, sent: bool)

  /** `delivered` are the (id, subject, bytes) that the bus was given. */
  datatype System = System(rows: map<string, Row>, hands: map<string, Hand>, delivered: set<(string, string, Bytes)>)

  datatype Step =
    | Store(id: string, subject: string, envelope: Bytes, now: nat)
    | Claim(worker: string, id: string, now: nat, answered: bool)
    | Send(worker: string, acknowledged: bool)
    | MarkPublished(worker: string, now: nat)
    | Release(worker: string, now: nat, delay: nat)
    | Stop(worker: string)
    | Replay(id: string, version: nat, replacement: Option<Bytes>, now: nat)
    | Clean(batch: set<string>, cutoff: nat)

  /** The update a worker asks for when it did not publish. */
  function ReleaseOf(c: Config, h: Hand, delay: nat): Update {
    if !Decodable(c, h.id, h.subject, h.envelope) && h.attempts + 1 >= c.maxDeliver then DeadLetter else Retry(delay)
  }

  function UpdateRow(s: System, worker: string, id: string, update: Update, now: nat): map<string, Row> {
    if id in s.rows && Held(s.rows[id], worker) then s.rows[id := Updated(s.rows[id], update, now)] else s.rows
  }

  ghost predicate Next(c: Config, s: System, step: Step, t: System) {
    match step
    case Store(id, subject, envelope, now) =>
      id !in s.rows
      && t == s.(rows := s.rows[id := Row(subject, envelope, now, now, 0, "", None, None, None, false, 1)])
    case Claim(worker, id, now, answered) =>
      && worker != "" && worker !in s.hands && id in s.rows && Claimable(s.rows[id], now)
      && var r := s.rows[id];
      && t == s.(rows := s.rows[id := Claimed(c, r, worker, now)],
                 hands := if answered then s.hands[worker := Hand(id, r.subject, View(r.envelope), r.attempts, false)]
                     else s.hands)
    case Send(worker, acknowledged) =>
      && worker in s.hands
      && var h := s.hands[worker];
      && Decodable(c, h.id, h.subject, h.envelope)
      && t == s.(delivered := s.delivered + {(h.id, h.subject, c.remarshal(h.envelope))},
                 hands := s.hands[worker := h.(sent := h.sent || acknowledged)])
    case MarkPublished(worker, now) =>
      && worker in s.hands && s.hands[worker].sent
      && t == s.(rows := UpdateRow(s, worker, s.hands[worker].id, Published, now), hands := s.hands - {worker})
    case Release(worker, now, delay) =>
      && worker in s.hands && !s.hands[worker].sent
      && t == s.(rows := UpdateRow(s, worker, s.hands[worker].id, ReleaseOf(c, s.hands[worker], delay), now),
             hands := s.hands - {worker})
    case Stop(worker) => t == s.(hands := s.hands - {worker})
    case Replay(id, version, replacement, now) =>
      && id in s.rows && Replayable(s.rows[id], version) && DecodableRow(c, id, Replayed(s.rows[id], replacement, now))
      && t == s.(rows := s.rows[id := Replayed(s.rows[id], replacement, now)])
    case Clean(batch, cutoff) =>
      t == s.(rows := map id | id in s.rows ::
          if id in batch && Expired(s.rows[id], cutoff) then Removed(s.rows[id]) else s.rows[id])
  }

  // ---- Safety ---------------------------------------------------------------

  /**
    Published and dead exclude each other, dead or removed rows are not leased, and a published row was
    handed over as it stands.
    */
  ghost predicate RowSound(c: Config, s: System, id: string)
    requires id in s.rows
  {
    var r := s.rows[id];
    && !(r.published.Some? && r.dead.Some?)
    && (r.published.Some? || r.dead.Some? ==> r.lockedBy == "")
    && (r.deleted ==> r.published.Some? || r.dead.Some?)
    && (r.published.Some? && !r.deleted ==> (id, r.subject, c.remarshal(r.envelope)) in s.delivered)
  }

  /** As long as the lease is the worker's, what it holds is what the row says. */
  ghost predicate HandSound(c: Config, s: System, worker: string)
    requires worker in s.hands
  {
    var h := s.hands[worker];
    && worker != "" && h.id in s.rows && h.subject == s.rows[h.id].subject
    && (s.rows[h.id].lockedBy == worker ==>
          h.attempts == s.rows[h.id].attempts && h.envelope == View(s.rows[h.id].envelope))
    && (h.sent ==>
          Decodable(c, h.id, h.subject, h.envelope) && (h.id, h.subject, c.remarshal(h.envelope)) in s.delivered)
  }

  /** Empty bytes name no event. */
  ghost predicate Proper(c: Config) {
    forall id, subject :: !c.decodes(id, subject, [])
  }

  ghost predicate Inv(c: Config, s: System) {
    && (forall id {:trigger RowSound(c, s, id)} | id in s.rows :: RowSound(c, s, id))
    && (forall worker {:trigger HandSound(c, s, worker)} | worker in s.hands :: HandSound(c, s, worker))
  }

  /** A step that touches one row and drops or keeps hands: what remains to check is that row and the hands on it. */
  lemma OneRow(c: Config, s: System, t: System, id: string)
    requires Inv(c, s) && s.delivered <= t.delivered && s.rows.Keys <= t.rows.Keys
    requires forall other | other in t.rows && other != id :: other in s.rows && t.rows[other] == s.rows[other]
    requires id in t.rows && RowSound(c, t, id)
    requires forall worker {:trigger t.hands[worker]} | worker in t.hands ::
               HandSound(c, t, worker)
                   || (worker in s.hands && t.hands[worker] == s.hands[worker] && t.hands[worker].id != id)
    ensures Inv(c, t)
  {
    forall other | other in t.rows ensures RowSound(c, t, other) {
      if other != id { assert RowSound(c, s, other); }
    }
    forall worker | worker in t.hands ensures HandSound(c, t, worker) {
      assert t.hands[worker] == t.hands[worker];
      if worker in s.hands { assert HandSound(c, s, worker); }
    }
  }

  lemma ClaimKeeps(c: Config, s: System, worker: string, id: string, now: nat, answered: bool, t: System)
    requires Inv(c, s) && Next(c, s, Claim(worker, id, now, answered), t)
    ensures Inv(c, t)
  {
    assert RowSound(c, s, id);
    forall other | other in t.hands ensures HandSound(c, t, other) {
      if other in s.hands { assert HandSound(c, s, other); }
    }
    OneRow(c, s, t, id);
  }

  lemma SendKeeps(c: Config, s: System, worker: string, acknowledged: bool, t: System)
    requires Inv(c, s) && Next(c, s, Send(worker, acknowledged), t)
    ensures Inv(c, t)
  {
    forall id | id in t.rows ensures RowSound(c, t, id) { assert RowSound(c, s, id); }
    forall other | other in t.hands ensures HandSound(c, t, other) { assert HandSound(c, s, other); }
  }

  /** An update succeeds only for the holder, whose copy is then current. */
  lemma UpdateKeeps(c: Config, s: System, worker: string, update: Update, now: nat, t: System)
    requires Proper(c) && Inv(c, s) && worker in s.hands && (update == Published ==> s.hands[worker].sent)
    requires t == s.(rows := UpdateRow(s, worker, s.hands[worker].id, update, now), hands := s.hands - {worker})
    ensures Inv(c, t)
  {
    var id := s.hands[worker].id;
    assert HandSound(c, s, worker);
    assert RowSound(c, s, id);
    forall other | other in t.hands ensures HandSound(c, t, other) { assert HandSound(c, s, other); }
    OneRow(c, s, t, id);
  }

  lemma ReplayKeeps(c: Config, s: System, id: string, version: nat, replacement: Option<Bytes>, now: nat, t: System)
    requires Inv(c, s) && Next(c, s, Replay(id, version, replacement, now), t)
    ensures Inv(c, t)
  {
    assert RowSound(c, s, id);
    forall other | other in t.hands ensures HandSound(c, t, other) { assert HandSound(c, s, other); }
    OneRow(c, s, t, id);
  }

  lemma StoreKeeps(c: Config, s: System, id: string, subject: string, envelope: Bytes, now: nat, t: System)
    requires Inv(c, s) && Next(c, s, Store(id, subject, envelope, now), t)
    ensures Inv(c, t)
  {
    forall other | other in t.hands ensures HandSound(c, t, other) { assert HandSound(c, s, other); }
    OneRow(c, s, t, id);
  }

  lemma CleanKeeps(c: Config, s: System, batch: set<string>, cutoff: nat, t: System)
    requires Inv(c, s) && Next(c, s, Clean(batch, cutoff), t)
    ensures Inv(c, t)
  {
    forall id | id in t.rows ensures RowSound(c, t, id) { assert RowSound(c, s, id); }
    forall worker | worker in t.hands ensures HandSound(c, t, worker) {
      assert HandSound(c, s, worker);
      assert RowSound(c, s, s.hands[worker].id);
    }
  }

  lemma StopKeeps(c: Config, s: System, worker: string, t: System)
    requires Inv(c, s) && t == s.(hands := s.hands - {worker})
    ensures Inv(c, t)
  {
    forall id | id in t.rows ensures RowSound(c, t, id) { assert RowSound(c, s, id); }
    forall other | other in t.hands ensures HandSound(c, t, other) { assert HandSound(c, s, other); }
  }

  lemma StepKeeps(c: Config, s: System, step: Step, t: System)
    requires Proper(c) && Inv(c, s) && Next(c, s, step, t)
    ensures Inv(c, t)
  {
    match step
    case Store(id, subject, envelope, now) => StoreKeeps(c, s, id, subject, envelope, now, t);
    case Claim(worker, id, now, answered) => ClaimKeeps(c, s, worker, id, now, answered, t);
    case Send(worker, acknowledged) => SendKeeps(c, s, worker, acknowledged, t);
    case MarkPublished(worker, now) => UpdateKeeps(c, s, worker, Published, now, t);
    case Release(worker, now, delay) => UpdateKeeps(c, s, worker, ReleaseOf(c, s.hands[worker], delay), now, t);
    case Stop(worker) => StopKeeps(c, s, worker, t);
    case Replay(id, version, replacement, now) => ReplayKeeps(c, s, id, version, replacement, now, t);
    case Clean(batch, cutoff) => CleanKeeps(c, s, batch, cutoff, t);
  }

  ghost predicate Initial(s: System) { s.rows == map[] && s.hands == map[] && s.delivered == {} }

  ghost predicate Run(c: Config, states: seq<System>, steps: seq<Step>) {
    && Proper(c) && |states| == |steps| + 1 && Initial(states[0])
    && forall i | 0 <= i < |steps| :: Next(c, states[i], steps[i], states[i + 1])
  }

  lemma {:induction false} RunKeeps(c: Config, states: seq<System>, steps: seq<Step>, n: nat)
    requires Run(c, states, steps) && n < |states|
    ensures Inv(c, states[n])
    decreases n
  {
    if n == 0 {
    } else {
      RunKeeps(c, states, steps, n - 1);
      assert Next(c, states[n - 1], steps[n - 1], states[n - 1 + 1]);
      StepKeeps(c, states[n - 1], steps[n - 1], states[n]);
    }
  }

  /**
   In every interleaving: no row is both published and dead, a published row was handed to
   the bus under its own id and with its own envelope, marshalled again, and only published
   or dead rows are removed.
   */
  lemma PublishedWasDelivered(c: Config, states: seq<System>, steps: seq<Step>, n: nat, id: string)
    requires Run(c, states, steps) && n < |states| && id in states[n].rows
    ensures var r := states[n].rows[id];
            && !(r.published.Some? && r.dead.Some?)
            && (r.published.Some? && !r.deleted ==> (id, r.subject, c.remarshal(r.envelope)) in states[n].delivered)
            && (r.deleted ==> r.published.Some? || r.dead.Some?)
  {
    RunKeeps(c, states, steps, n);
    assert RowSound(c, states[n], id);
  }

  /** A worker whose update would succeed holds the row's current attempts and bytes. */
  lemma HolderIsCurrent(c: Config, states: seq<System>, steps: seq<Step>, n: nat, worker: string)
    requires Run(c, states, steps) && n < |states| && worker in states[n].hands
    ensures var h := states[n].hands[worker];
            && h.id in states[n].rows
            && (Held(states[n].rows[h.id], worker) ==>
                  h.attempts == states[n].rows[h.id].attempts && h.envelope == View(states[n].rows[h.id].envelope)
                  && states[n].rows[h.id].dead.None?)
  {
    RunKeeps(c, states, steps, n);
    assert HandSound(c, states[n], worker);
    assert RowSound(c, states[n], states[n].hands[worker].id);
  }

  /** Not dead, and either published or with bytes that decode. */
  predicate Healthy(c: Config, s: System, id: string) {
    id in s.rows && s.rows[id].dead.None? && (s.rows[id].published.Some? || DecodableRow(c, id, s.rows[id]))
  }

  lemma HealthyStays(c: Config, s: System, step: Step, t: System, id: string)
    requires Proper(c) && Inv(c, s) && Next(c, s, step, t) && Healthy(c, s, id)
    ensures Healthy(c, t, id)
  {
    match step
    case Release(worker, now, delay) => assert HandSound(c, s, worker);
    case _ =>
  }

  /** A row whose bytes decode is never dead-lettered. */
  lemma {:induction false} DecodableNeverDies(c: Config, states: seq<System>, steps: seq<Step>, m: nat, n: nat,
          id: string)
    requires Run(c, states, steps) && m <= n < |states| && Healthy(c, states[m], id)
    ensures Healthy(c, states[n], id)
    decreases n - m
  {
    if m < n {
      DecodableNeverDies(c, states, steps, m, n - 1, id);
      RunKeeps(c, states, steps, n - 1);
      assert Next(c, states[n - 1], steps[n - 1], states[n - 1 + 1]);
      HealthyStays(c, states[n - 1], steps[n - 1], states[n], id);
    }
  }

  /** So a successfully replayed row never becomes dead again. */
  lemma ReplayedNeverDies(c: Config, states: seq<System>, steps: seq<Step>, m: nat, n: nat, id: string)
    requires Run(c, states, steps) && m < n < |states| && steps[m].Replay? && steps[m].id == id
    ensures id in states[n].rows && states[n].rows[id].dead.None?
  {
    assert Next(c, states[m], steps[m], states[m + 1]);
    DecodableNeverDies(c, states, steps, m + 1, n, id);
  }

  // ---- Leases ---------------------------------------------------------------

  /** The row is waiting for nobody before this time. */
  predicate LeasedUntil(s: System, id: string, until: nat) {
    id in s.rows && s.rows[id].lockedUntil.Some? && s.rows[id].lockedUntil.value >= until
  }

  /** The step ends a lease of the row: an update by its holder, or a replay. */
  predicate LetsGo(s: System, step: Step, id: string) {
    match step
    case MarkPublished(worker, _) => worker in s.hands && s.hands[worker].id == id && HeldBy(s, id, worker)
    case Release(worker, _, _) => worker in s.hands && s.hands[worker].id == id && HeldBy(s, id, worker)
    case Replay(other, _, _, _) => other == id
    case _ => false
  }

  predicate HeldBy(s: System, id: string, worker: string) { id in s.rows && s.rows[id].lockedBy == worker }

  lemma LeaseStays(c: Config, s: System, step: Step, t: System, id: string, until: nat)
    requires Next(c, s, step, t) && LeasedUntil(s, id, until) && !LetsGo(s, step, id)
    ensures LeasedUntil(t, id, until)
  {}

  lemma {:induction false} LeaseStaysAlongRun(c: Config, states: seq<System>, steps: seq<Step>, m: nat, n: nat,
          id: string, until: nat)
    requires Run(c, states, steps) && m <= n < |states| && LeasedUntil(states[m], id, until)
    requires forall k: nat | m <= k < n :: !LetsGo(states[k], steps[k], id)
    ensures LeasedUntil(states[n], id, until)
    decreases n - m
  {
    if m < n {
      assert Next(c, states[m], steps[m], states[m + 1]);
      LeaseStays(c, states[m], steps[m], states[m + 1], id, until);
      LeaseStaysAlongRun(c, states, steps, m + 1, n, id, until);
    }
  }

  /**
   A lease excludes everybody.  Along every run, whoever claims a row after another claim of
   it, with no update by a holder and no replay in between, claims it after that lease.
   */
  lemma LeaseExcludes(c: Config, states: seq<System>, steps: seq<Step>, m: nat, n: nat, id: string)
    requires Run(c, states, steps) && m < n < |steps|
    requires steps[m].Claim? && steps[m].id == id && steps[n].Claim? && steps[n].id == id
    requires forall k: nat | m < k < n :: !LetsGo(states[k], steps[k], id)
    ensures steps[n].now > steps[m].now + c.lease
  {
    assert Next(c, states[m], steps[m], states[m + 1]);
    LeaseStaysAlongRun(c, states, steps, m + 1, n, id, steps[m].now + c.lease);
    assert Next(c, states[n], steps[n], states[n + 1]);
    ClaimableWaits(states[n].rows[id], steps[n].now);
  }

  /** A lease ends by itself: if its holder never answers, the row can be claimed as soon as it has passed. */
  lemma LeaseEnds(c: Config, s: System, worker: string, id: string, now: nat, answered: bool, t: System, at: nat)
    requires Next(c, s, Claim(worker, id, now, answered), t)
    ensures Claimable(t.rows[id], at) <==> at > now + c.lease
  {
    ClaimableWaits(s.rows[id], now);
    ClaimableWaits(t.rows[id], at);
  }

  /**
   A holder that could not publish counts one more attempt.  The row dies exactly if its
   bytes do not decode and the attempts are used up; otherwise it can be claimed exactly
   from the end of the delay.
   */
  lemma ReleaseDecides(c: Config, s: System, worker: string, now: nat, delay: nat, t: System, at: nat)
    requires Proper(c) && Inv(c, s) && Next(c, s, Release(worker, now, delay), t)
    requires s.hands[worker].id in s.rows && Held(s.rows[s.hands[worker].id], worker)
    ensures var id := s.hands[worker].id;
            var r := s.rows[id];
            && id in t.rows && t.rows[id].attempts == r.attempts + 1
            && (t.rows[id].dead.Some? <==> !DecodableRow(c, id, r) && r.attempts + 1 >= c.maxDeliver)
            && (Claimable(t.rows[id], at) <==> t.rows[id].dead.None? && at >= now + delay)
  {
    assert HandSound(c, s, worker);
    assert RowSound(c, s, s.hands[worker].id);
  }
}
