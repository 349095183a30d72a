/**
 Cached queries against concurrent writers: Query of internal/dictionary/service.go as a
 state machine.  A reader reads the definition's version, then the cache; on a miss it
 reads the items and, later, may store what it found.  Each of these is a step of its own,
 writers commit and other readers run in between, and cache entries may be lost.
 */
module QueryCache {
  import opened Wrappers
  import opened TreeItems
  import opened TreeQuery

  /**
   What the machine needs: the uncached answer at a committed state, the query part of the
   cache key (whose digest is taken to be injective), the check on a cached result, the
   definition's version, the invariant of committed states and their transactions.
   */
  datatype Queries<!S> = Queries(answer: (Query, S) -> Outcome, key: Query -> Query, trusted: (Query, Answer) -> bool,
                                 version: S -> nat, sound: S -> bool, commits: (S, S) -> bool)

  /** Queries with one key have one answer. */
  ghost predicate KeyDecides<S(!new)>(w: Queries<S>) {
    forall a, b, s {:trigger w.answer(a, s), w.answer(b, s)} | w.key(a) == w.key(b) :: w.answer(a, s) == w.answer(b, s)
  }

  ghost predicate SameAnswers<S(!new)>(w: Queries<S>, s: S, t: S) {
    forall q :: w.answer(q, s) == w.answer(q, t)
  }

  /** A transaction keeps the state sound, and it either raises the version or leaves every answer as it was. */
  ghost predicate VersionDecides<S(!new)>(w: Queries<S>) {
    forall s, t | w.sound(s) && w.commits(s, t) ::
      w.sound(t) && w.version(s) <= w.version(t) && (w.version(s) == w.version(t) ==> SameAnswers(w, s, t))
  }

  /** Along the committed states versions never fall, and equal versions mean equal answers. */
  ghost predicate Growing<S(!new)>(w: Queries<S>, history: seq<S>) {
    && history != []
    && (forall i | 0 <= i < |history| :: w.sound(history[i]))
    && forall i, j | 0 <= i < j < |history| ::
         && w.version(history[i]) <= w.version(history[j])
         && (w.version(history[i]) == w.version(history[j]) ==> SameAnswers(w, history[i], history[j]))
  }

  datatype Key = Key(version: nat, query: Query)

  /** A request under way: when it read the version, and what it found if it has read the items. */
  datatype Reader = Reader(q: Query, begun: nat, version: nat, found: Option<Outcome>)

  /** A finished request: what it asked, when it read the version, when it returned, what it returned. */
  datatype Reply = Reply(q: Query, begun: nat, ended: nat, outcome: Outcome)

  datatype System<S> = System(history: seq<S>, cache: map<Key, Answer>, readers: map<nat, Reader>, replies: seq<Reply>)

  datatype Step<S> =
    | Commit(next: S)
    | Begin(reader: nat, q: Query)
    | Hit(reader: nat)
    | Read(reader: nat)
    | Finish(reader: nat, stored: bool)
    | Forget(key: Key)

  ghost function KeyOf<S>(w: Queries<S>, r: Reader): Key { Key(r.version, w.key(r.q)) }

  /** The reader returns `outcome`. */
  function Replied<S>(s: System<S>, reader: nat, outcome: Outcome): System<S>
    requires reader in s.readers && s.history != []
  {
    var r := s.readers[reader];
    s.(readers := s.readers - {reader}, replies := s.replies + [Reply(r.q, r.begun, |s.history| - 1, outcome)])
  }

  ghost predicate Next<S(!new)>(w: Queries<S>, s: System<S>, step: Step<S>, t: System<S>) {
    s.history != []
    && var now := |s.history| - 1;
    match step
    case Commit(next) =>
      w.commits(s.history[now], next) && t == s.(history := s.history + [next])
    case Begin(reader, q) =>
      reader !in s.readers && t == s.(readers := s.readers[reader := Reader(q, now, w.version(s.history[now]), None)])
    case Hit(reader) =>
      && reader in s.readers && s.readers[reader].found.None?
      && var r := s.readers[reader];
      && KeyOf(w, r) in s.cache && w.trusted(r.q, s.cache[KeyOf(w, r)])
      && t == Replied(s, reader, Answered(s.cache[KeyOf(w, r)]))
    case Read(reader) =>
      && reader in s.readers && s.readers[reader].found.None?
      && var r := s.readers[reader];
      t == s.(readers := s.readers[reader := r.(found := Some(w.answer(r.q, s.history[now])))])
    case Finish(reader, stored) =>
      && reader in s.readers && s.readers[reader].found.Some?
      && var r := s.readers[reader];
      && var outcome := r.found.value;
      t == Replied(s, reader, outcome).(
        cache := if stored && outcome.Answered? then s.cache[KeyOf(w, r) := outcome.result] else s.cache)
    case Forget(key) =>
      t == s.(cache := s.cache - {key})
  }

  /** `outcome` is the uncached answer at some committed state from `from` to `to`. */
  ghost predicate AnsweredWithin<S(!new)>(w: Queries<S>, history: seq<S>, q: Query, from: nat, to: nat,
      outcome: Outcome) {
    exists j :: from <= j <= to < |history| && w.answer(q, history[j]) == outcome
  }

  /** An entry under a version is an answer at that version's state or a later one. */
  ghost predicate EntrySound<S(!new)>(w: Queries<S>, history: seq<S>, key: Key, result: Answer) {
    exists q, i: nat, j: nat ::
      && i <= j < |history| && w.version(history[i]) == key.version
      && w.key(q) == key.query && w.answer(q, history[j]) == Answered(result)
  }

  ghost predicate ReaderSound<S(!new)>(w: Queries<S>, history: seq<S>, r: Reader) {
    && r.begun < |history| && w.version(history[r.begun]) == r.version
    && (r.found.Some? ==> AnsweredWithin(w, history, r.q, r.begun, |history| - 1, r.found.value))
  }

  ghost predicate ReplySound<S(!new)>(w: Queries<S>, history: seq<S>, r: Reply) {
    AnsweredWithin(w, history, r.q, r.begun, r.ended, r.outcome)
  }

  ghost predicate Inv<S(!new)>(w: Queries<S>, s: System<S>) {
    && Growing(w, s.history)
    && (forall key | key in s.cache :: EntrySound(w, s.history, key, s.cache[key]))
    && (forall r | r in s.readers :: ReaderSound(w, s.history, s.readers[r]))
    && (forall i | 0 <= i < |s.replies| :: ReplySound(w, s.history, s.replies[i]))
  }

  // ---- A longer history -----------------------------------------------------

  lemma GrowingLonger<S(!new)>(w: Queries<S>, history: seq<S>, next: S)
    requires VersionDecides(w) && Growing(w, history) && w.commits(history[|history| - 1], next)
    ensures Growing(w, history + [next])
  {
    var last, longer := history[|history| - 1], history + [next];
    assert w.sound(last);
    forall i, j | 0 <= i < j < |longer|
      ensures w.version(longer[i]) <= w.version(longer[j])
      ensures w.version(longer[i]) == w.version(longer[j]) ==> SameAnswers(w, longer[i], longer[j])
    {
      if j == |history| {
        assert longer[i] == history[i];
        if i < |history| - 1 { assert w.version(history[i]) <= w.version(last); }
      }
    }
  }

  lemma WithinLonger<S(!new)>(w: Queries<S>, history: seq<S>, next: S, q: Query, from: nat, to: nat, later: nat,
          outcome: Outcome)
    requires AnsweredWithin(w, history, q, from, to, outcome) && to <= later <= |history|
    ensures AnsweredWithin(w, history + [next], q, from, later, outcome)
  {
    var j :| from <= j <= to < |history| && w.answer(q, history[j]) == outcome;
    assert (history + [next])[j] == history[j];
  }

  lemma EntryLonger<S(!new)>(w: Queries<S>, history: seq<S>, next: S, key: Key, result: Answer)
    requires EntrySound(w, history, key, result)
    ensures EntrySound(w, history + [next], key, result)
  {
    var q, i: nat, j: nat :|
      && i <= j < |history| && w.version(history[i]) == key.version
      && w.key(q) == key.query && w.answer(q, history[j]) == Answered(result);
    assert (history + [next])[i] == history[i] && (history + [next])[j] == history[j];
  }

  lemma ReaderLonger<S(!new)>(w: Queries<S>, history: seq<S>, next: S, r: Reader)
    requires ReaderSound(w, history, r)
    ensures ReaderSound(w, history + [next], r)
  {
    if r.found.Some? { WithinLonger(w, history, next, r.q, r.begun, |history| - 1, |history|, r.found.value); }
  }

  lemma CommitKeeps<S(!new)>(w: Queries<S>, s: System<S>, next: S)
    requires VersionDecides(w) && Inv(w, s) && w.commits(s.history[|s.history| - 1], next)
    ensures Inv(w, s.(history := s.history + [next]))
  {
    var t := s.(history := s.history + [next]);
    GrowingLonger(w, s.history, next);
    forall key | key in t.cache
      ensures EntrySound(w, t.history, key, t.cache[key])
    {
      EntryLonger(w, s.history, next, key, s.cache[key]);
    }
    forall r | r in t.readers
      ensures ReaderSound(w, t.history, t.readers[r])
    {
      ReaderLonger(w, s.history, next, s.readers[r]);
    }
    forall i | 0 <= i < |t.replies|
      ensures ReplySound(w, t.history, t.replies[i])
    {
      var r := s.replies[i];
      WithinLonger(w, s.history, next, r.q, r.begun, r.ended, r.ended, r.outcome);
    }
  }

  // ---- The readers ----------------------------------------------------------

  /** A reader that finds an entry under its version gets an answer no older than its version read. */
  lemma HitIsFresh<S(!new)>(w: Queries<S>, history: seq<S>, r: Reader, result: Answer)
    requires KeyDecides(w) && Growing(w, history) && ReaderSound(w, history, r)
    requires EntrySound(w, history, KeyOf(w, r), result)
    ensures AnsweredWithin(w, history, r.q, r.begun, |history| - 1, Answered(result))
  {
    var q, i: nat, j: nat :|
      && i <= j < |history| && w.version(history[i]) == r.version
      && w.key(q) == w.key(r.q) && w.answer(q, history[j]) == Answered(result);
    assert w.answer(r.q, history[j]) == w.answer(q, history[j]);
    if j < r.begun {
      assert w.version(history[j]) == r.version;
      assert SameAnswers(w, history[j], history[r.begun]);
    }
  }

  lemma FoundEntry<S(!new)>(w: Queries<S>, history: seq<S>, r: Reader, result: Answer)
    requires ReaderSound(w, history, r) && r.found == Some(Answered(result))
    ensures EntrySound(w, history, KeyOf(w, r), result)
  {
    var j :| r.begun <= j < |history| && w.answer(r.q, history[j]) == Answered(result);
  }

  lemma ReplyKeeps<S(!new)>(w: Queries<S>, s: System<S>, reader: nat, outcome: Outcome)
    requires Inv(w, s) && reader in s.readers
    requires AnsweredWithin(w, s.history, s.readers[reader].q, s.readers[reader].begun, |s.history| - 1, outcome)
    ensures Inv(w, Replied(s, reader, outcome))
  {
    var r, t := s.readers[reader], Replied(s, reader, outcome);
    forall i | 0 <= i < |t.replies|
      ensures ReplySound(w, t.history, t.replies[i])
    {
      if i < |s.replies| { assert t.replies[i] == s.replies[i]; }
    }
  }

  lemma HitKeeps<S(!new)>(w: Queries<S>, s: System<S>, reader: nat, t: System<S>)
    requires KeyDecides(w) && Inv(w, s) && Next(w, s, Hit(reader), t)
    ensures Inv(w, t)
  {
    var r := s.readers[reader];
    var result := s.cache[KeyOf(w, r)];
    HitIsFresh(w, s.history, r, result);
    ReplyKeeps(w, s, reader, Answered(result));
  }

  lemma ReadKeeps<S(!new)>(w: Queries<S>, s: System<S>, reader: nat, t: System<S>)
    requires Inv(w, s) && Next(w, s, Read(reader), t)
    ensures Inv(w, t)
  {
    var r := t.readers[reader];
    assert w.answer(r.q, s.history[|s.history| - 1]) == r.found.value;
    assert ReaderSound(w, s.history, r);
  }

  lemma StoreKeeps<S(!new)>(w: Queries<S>, s: System<S>, key: Key, result: Answer)
    requires Inv(w, s) && EntrySound(w, s.history, key, result)
    ensures Inv(w, s.(cache := s.cache[key := result]))
  {}

  lemma FinishKeeps<S(!new)>(w: Queries<S>, s: System<S>, reader: nat, stored: bool, t: System<S>)
    requires Inv(w, s) && Next(w, s, Finish(reader, stored), t)
    ensures Inv(w, t)
  {
    var r := s.readers[reader];
    var outcome := r.found.value;
    assert ReaderSound(w, s.history, r);
    ReplyKeeps(w, s, reader, outcome);
    if stored && outcome.Answered? {
      FoundEntry(w, s.history, r, outcome.result);
      StoreKeeps(w, Replied(s, reader, outcome), KeyOf(w, r), outcome.result);
    }
  }

  lemma BeginKeeps<S(!new)>(w: Queries<S>, s: System<S>, reader: nat, q: Query, t: System<S>)
    requires Inv(w, s) && Next(w, s, Begin(reader, q), t)
    ensures Inv(w, t)
  {}

  lemma ForgetKeeps<S(!new)>(w: Queries<S>, s: System<S>, key: Key, t: System<S>)
    requires Inv(w, s) && Next(w, s, Forget(key), t)
    ensures Inv(w, t)
  {}

  lemma StepKeeps<S(!new)>(w: Queries<S>, s: System<S>, step: Step<S>, t: System<S>)
    requires KeyDecides(w) && VersionDecides(w) && Inv(w, s) && Next(w, s, step, t)
    ensures Inv(w, t)
  {
    match step
    case Commit(next) => CommitKeeps(w, s, next);
    case Begin(reader, q) => BeginKeeps(w, s, reader, q, t);
    case Hit(reader) => HitKeeps(w, s, reader, t);
    case Read(reader) => ReadKeeps(w, s, reader, t);
    case Finish(reader, stored) => FinishKeeps(w, s, reader, stored, t);
    case Forget(key) => ForgetKeeps(w, s, key, t);
  }

  // ---- Whole runs -----------------------------------------------------------

  ghost predicate Initial<S(!new)>(w: Queries<S>, s: System<S>) {
    |s.history| == 1 && w.sound(s.history[0]) && s.cache == map[] && s.readers == map[] && s.replies == []
  }

  /** A run: each state follows from the one before by its step. */
  ghost predicate Run<S(!new)>(w: Queries<S>, states: seq<System<S>>, steps: seq<Step<S>>) {
    && |states| == |steps| + 1 && Initial(w, states[0])
    && forall i | 0 <= i < |steps| :: Next(w, states[i], steps[i], states[i + 1])
  }

  lemma {:induction false} RunKeeps<S(!new)>(w: Queries<S>, states: seq<System<S>>, steps: seq<Step<S>>, n: nat)
    requires KeyDecides(w) && VersionDecides(w) && Run(w, states, steps) && n < |states|
    ensures Inv(w, states[n])
    decreases n
  {
    if n == 0 {
    } else {
      RunKeeps(w, states, steps, n - 1);
      assert Next(w, states[n - 1], steps[n - 1], states[n - 1 + 1]);
      StepKeeps(w, states[n - 1], steps[n - 1], states[n]);
    }
  }
}
