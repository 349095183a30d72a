/**
 Uploads, deletions and repair of internal/files/service.go.  A file is a row, a durable
 upload intent and a stored object under one generated id; every transaction and every
 call to the object store is one step, any process may stop after any step, and a commit
 or a store call may have taken effect although its answer was lost.
 */
module FileProtocol {
  datatype Status = Pending(attempts: nat) | Completed | Abandoned

  /** A file row: soft-deleted or not, whether its object is known to be gone, and the failed object deletions. */
  datatype File = File(deleted: bool, objectGone: bool, attempts: nat, version: nat)

  datatype Store = Store(files: map<string, File>, intents: map<string, Status>, objects: set<string>)

  predicate Live(s: Store, id: string) { id in s.files && !s.files[id].deleted }

  predicate PendingIntent(s: Store, id: string) { id in s.intents && s.intents[id].Pending? }

  /** Deleted, and still in the queue for object deletion. */
  predicate Queued(s: Store, id: string) { id in s.files && s.files[id].deleted && !s.files[id].objectGone }

  /** Live rows have their object; objects have a live row, a pending intent or a queued deletion. */
  ghost predicate Safe(s: Store) {
    && (forall id | id in s.files && !s.files[id].deleted :: id in s.objects)
    && (forall id | id in s.objects :: Live(s, id) || PendingIntent(s, id) || Queued(s, id))
  }

  /** Moreover a row and its completed intent come together. */
  ghost predicate Consistent(s: Store) {
    Safe(s) && forall id | id in s.files :: id in s.intents && s.intents[id] == Completed
  }

  // ---- The statements -------------------------------------------------------

  function WithIntent(s: Store, id: string): Store { s.(intents := s.intents[id := Pending(0)]) }

  /** The second upload transaction: the row, and the intent if still pending; otherwise it rolls back. */
  function WithFile(s: Store, id: string): Store {
    if PendingIntent(s, id) && id !in s.files
        then s.(files := s.files[id := File(false, false, 0, 1)], intents := s.intents[id := Completed]) else s
  }

  function Finished(s: Store, id: string, status: Status): Store {
    if PendingIntent(s, id) then s.(intents := s.intents[id := status]) else s
  }

  /** The object could not be removed: the intent is tried again later. */
  function IntentPostponed(s: Store, id: string): Store {
    if PendingIntent(s, id) then s.(intents := s.intents[id := Pending(s.intents[id].attempts + 1)]) else s
  }

  function SoftDeleted(s: Store, id: string, version: nat): Store {
    if Live(s, id) && s.files[id].version == version then
      s.(files := s.files[id := s.files[id].(deleted := true, objectGone := false, version := version + 1)])
    else s
  }

  function ObjectGone(s: Store, id: string): Store {
    if Queued(s, id)
        then s.(files := s.files[id := s.files[id].(objectGone := true, version := s.files[id].version + 1)]) else s
  }

  /** The object of a deleted file could not be removed: the deletion is tried again later. */
  function DeletionPostponed(s: Store, id: string): Store {
    if Queued(s, id) then
      var file := s.files[id];
      s.(files := s.files[id := file.(attempts := file.attempts + 1, version := file.version + 1)])
    else s
  }

  function WithObject(s: Store, id: string): Store { s.(objects := s.objects + {id}) }

  function WithoutObject(s: Store, id: string): Store { s.(objects := s.objects - {id}) }

  // ---- Interleaved processes ------------------------------------------------

  /** The result of an external call: whether it took effect, and whether its answer said so. */
  datatype Effect = Effect(applied: bool, answered: bool)

  predicate Truthful(e: Effect) { e.answered ==> e.applied }

  datatype Phase =
    | Starting(id: string)          // upload lock held, intent not yet written
    | Intended(id: string)          // intent committed
    | Stored(id: string)            // object stored
    | Repairing(id: string)         // upload lock held, intent not yet read
    | Unclaimed(id: string)         // intent pending
    | Reclaiming(id: string)        // intent pending, no live row
    | Closing(id: string, status: Status)
    | Postponing(id: string)        // intent pending, object perhaps still there
    | Deleting(id: string)          // row seen deleted; no upload lock
    | Marking(id: string)           // object deleted, row not yet marked
    | Requeuing(id: string)         // object perhaps still there

  predicate HoldsLock(p: Phase) { !p.Deleting? && !p.Marking? && !p.Requeuing? }

  datatype System = System(store: Store, processes: map<nat, Phase>)

  datatype Step =
    | BeginUpload(p: nat, id: string)
    | CommitIntent(p: nat, e: Effect)
    | PutObject(p: nat, e: Effect)
    | CommitFile(p: nat, applied: bool)
    | BeginRepair(p: nat, id: string)
    | ReadIntent(p: nat)
    | ReadFile(p: nat)
    | RemoveObject(p: nat, e: Effect)
    | CloseIntent(p: nat, applied: bool)
    | PostponeIntent(p: nat, applied: bool)
    | SoftDelete(id: string, version: nat)
    | BeginDeletion(p: nat, id: string)
    | DeleteObject(p: nat, e: Effect)
    | MarkGone(p: nat, applied: bool)
    | PostponeDeletion(p: nat, applied: bool)
    | Stop(p: nat)

  predicate LockFree(s: System, id: string) {
    forall p | p in s.processes :: HoldsLock(s.processes[p]) ==> s.processes[p].id != id
  }

  function Move(s: System, p: nat, store: Store, go: bool, phase: Phase): System {
    System(store, if go then s.processes[p := phase] else s.processes - {p})
  }

  predicate Enabled(s: System, step: Step) {
    match step
    case BeginUpload(p, id) =>
      p !in s.processes && LockFree(s, id) && id !in s.store.files && id !in s.store.intents && id !in s.store.objects
    case CommitIntent(p, e) => Truthful(e) && p in s.processes && s.processes[p].Starting?
    case PutObject(p, e) => Truthful(e) && p in s.processes && s.processes[p].Intended?
    case CommitFile(p, _) => p in s.processes && s.processes[p].Stored?
    case BeginRepair(p, id) => p !in s.processes && LockFree(s, id)
    case ReadIntent(p) => p in s.processes && s.processes[p].Repairing?
    case ReadFile(p) => p in s.processes && s.processes[p].Unclaimed?
    case RemoveObject(p, e) => Truthful(e) && p in s.processes && s.processes[p].Reclaiming?
    case CloseIntent(p, _) => p in s.processes && s.processes[p].Closing?
    case PostponeIntent(p, _) => p in s.processes && s.processes[p].Postponing?
    case SoftDelete(_, _) => true
    case BeginDeletion(p, id) => p !in s.processes && id in s.store.files && s.store.files[id].deleted
    case DeleteObject(p, e) => Truthful(e) && p in s.processes && s.processes[p].Deleting?
    case MarkGone(p, _) => p in s.processes && s.processes[p].Marking?
    case PostponeDeletion(p, _) => p in s.processes && s.processes[p].Requeuing?
    case Stop(_) => true
  }

  function Applied(s: System, step: Step): System
    requires Enabled(s, step)
  {
    match step
    case BeginUpload(p, id) => Move(s, p, s.store, true, Starting(id))
    case CommitIntent(p, e) =>
      var id := s.processes[p].id;
      Move(s, p, if e.applied then WithIntent(s.store, id) else s.store, e.answered, Intended(id))
    case PutObject(p, e) =>
      var id := s.processes[p].id;
      Move(s, p, if e.applied then WithObject(s.store, id) else s.store, e.answered, Stored(id))
    case CommitFile(p, applied) =>
      Move(s, p, if applied then WithFile(s.store, s.processes[p].id) else s.store, false, s.processes[p])
    case BeginRepair(p, id) => Move(s, p, s.store, true, Repairing(id))
    case ReadIntent(p) => Move(s, p, s.store, PendingIntent(s.store, s.processes[p].id), Unclaimed(s.processes[p].id))
    case ReadFile(p) =>
      var id := s.processes[p].id;
      Move(s, p, s.store, true, if Live(s.store, id) then Closing(id, Completed) else Reclaiming(id))
    case RemoveObject(p, e) =>
      var id := s.processes[p].id;
      Move(s, p, if e.applied then WithoutObject(s.store, id) else s.store, true,
           if e.answered then Closing(id, Abandoned) else Postponing(id))
    case CloseIntent(p, applied) =>
      Move(s, p, if applied then Finished(s.store, s.processes[p].id, s.processes[p].status) else s.store, false,
          s.processes[p])
    case PostponeIntent(p, applied) =>
      Move(s, p, if applied then IntentPostponed(s.store, s.processes[p].id) else s.store, false, s.processes[p])
    case SoftDelete(id, version) => s.(store := SoftDeleted(s.store, id, version))
    case BeginDeletion(p, id) => Move(s, p, s.store, true, Deleting(id))
    case DeleteObject(p, e) =>
      var id := s.processes[p].id;
      Move(s, p, if e.applied then WithoutObject(s.store, id) else s.store, true,
           if e.answered then Marking(id) else Requeuing(id))
    case MarkGone(p, applied) =>
      Move(s, p, if applied then ObjectGone(s.store, s.processes[p].id) else s.store, false, s.processes[p])
    case PostponeDeletion(p, applied) =>
      Move(s, p, if applied then DeletionPostponed(s.store, s.processes[p].id) else s.store, false, s.processes[p])
    case Stop(p) => s.(processes := s.processes - {p})
  }

  ghost predicate Next(s: System, step: Step, t: System) {
    Enabled(s, step) && t == Applied(s, step)
  }

  /** What the phase of a process says about its file. */
  ghost predicate PhaseSound(s: Store, phase: Phase) {
    match phase
    case Starting(id) => id !in s.files && id !in s.intents && id !in s.objects
    case Intended(id) => PendingIntent(s, id) && id !in s.files && id !in s.objects
    case Stored(id) => PendingIntent(s, id) && id !in s.files && id in s.objects
    case Repairing(id) => true
    case Unclaimed(id) => PendingIntent(s, id) && id !in s.files
    case Reclaiming(id) => PendingIntent(s, id) && id !in s.files
    case Closing(id, status) => PendingIntent(s, id) && id !in s.files && id !in s.objects
    case Postponing(id) => PendingIntent(s, id) && id !in s.files
    case Deleting(id) => id in s.files && s.files[id].deleted
    case Marking(id) => id in s.files && s.files[id].deleted && id !in s.objects
    case Requeuing(id) => id in s.files && s.files[id].deleted
  }

  ghost predicate Inv(s: System) {
    && Consistent(s.store)
    && (forall p {:trigger s.processes[p]} | p in s.processes :: PhaseSound(s.store, s.processes[p]))
    && forall p, q {:trigger s.processes[p], s.processes[q]} | p in s.processes && q in s.processes && p != q &&
         HoldsLock(s.processes[p]) && HoldsLock(s.processes[q]) :: s.processes[p].id != s.processes[q].id
  }

  /** A step of the lock holder on its own file: the phases of the others still hold. */
  lemma OthersKeep(s: System, p: nat, store: Store, id: string)
    requires Inv(s) && p in s.processes && s.processes[p].id == id && HoldsLock(s.processes[p])
    requires forall other | other != id ::
               && (other in store.files <==> other in s.store.files)
               && (other in s.store.files ==> store.files[other] == s.store.files[other])
               && (other in store.intents <==> other in s.store.intents)
               && (other in s.store.intents ==> store.intents[other] == s.store.intents[other])
               && (other in store.objects <==> other in s.store.objects)
    requires id !in s.store.files
    ensures forall q | q in s.processes && q != p :: PhaseSound(store, s.processes[q])
  {
    forall q | q in s.processes && q != p
      ensures PhaseSound(store, s.processes[q])
    {
      var phase := s.processes[q];
      assert PhaseSound(s.store, phase);
      assert s.processes[p] == s.processes[p];
    }
  }

  lemma UploadKeeps(s: System, step: Step, t: System)
    requires Inv(s) && Next(s, step, t) && (step.CommitIntent? || step.PutObject? || step.CommitFile?)
    ensures Inv(t)
  {
    var p := step.p;
    var id := s.processes[p].id;
    assert PhaseSound(s.store, s.processes[p]);
    OthersKeep(s, p, t.store, id);
    ProcessesKept(s, t, p);
  }

  lemma RepairKeeps(s: System, step: Step, t: System)
    requires Inv(s) && Next(s, step, t)
        && (step.ReadIntent? || step.ReadFile? || step.RemoveObject? || step.CloseIntent? || step.PostponeIntent?)
    ensures Inv(t)
  {
    var p := step.p;
    var id := s.processes[p].id;
    assert PhaseSound(s.store, s.processes[p]);
    if !step.ReadIntent? && !step.ReadFile? { OthersKeep(s, p, t.store, id); }
    ProcessesKept(s, t, p);
  }

  /** Locks stay exclusive when one process moves on with its file or ends. */
  lemma ProcessesKept(s: System, t: System, p: nat)
    requires Inv(s) && p in s.processes && Consistent(t.store)
    requires t.processes == s.processes - {p} || (p in t.processes && t.processes[p].id == s.processes[p].id
               && (HoldsLock(t.processes[p]) ==> HoldsLock(s.processes[p]))
               && t.processes == s.processes[p := t.processes[p]])
    requires p in t.processes ==> PhaseSound(t.store, t.processes[p])
    requires forall q {:trigger s.processes[q]} | q in s.processes && q != p :: PhaseSound(t.store, s.processes[q])
    ensures Inv(t)
  {
    forall q | q in t.processes ensures PhaseSound(t.store, t.processes[q]) {
      if q != p { assert t.processes[q] == s.processes[q]; }
    }
    forall q, r | q in t.processes && r in t.processes && q != r
        && HoldsLock(t.processes[q]) && HoldsLock(t.processes[r])
      ensures t.processes[q].id != t.processes[r].id
    {
      assert s.processes[q] == s.processes[q] && s.processes[r] == s.processes[r];
    }
  }

  lemma BeginKeeps(s: System, p: nat, phase: Phase, t: System)
    requires Inv(s) && p !in s.processes && t == Move(s, p, s.store, true, phase)
    requires PhaseSound(s.store, phase) && (HoldsLock(phase) ==> LockFree(s, phase.id))
    ensures Inv(t)
  {
    forall q, r | q in t.processes && r in t.processes && q != r
        && HoldsLock(t.processes[q]) && HoldsLock(t.processes[r])
      ensures t.processes[q].id != t.processes[r].id
    {
      if q in s.processes { assert s.processes[q] == t.processes[q]; }
      if r in s.processes { assert s.processes[r] == t.processes[r]; }
    }
    forall q | q in t.processes ensures PhaseSound(t.store, t.processes[q]) {
      if q != p { assert t.processes[q] == s.processes[q]; }
    }
  }

  lemma SoftDeleteKeeps(s: System, id: string, version: nat, t: System)
    requires Inv(s) && Next(s, SoftDelete(id, version), t)
    ensures Inv(t)
  {
    forall p | p in t.processes
        ensures PhaseSound(t.store, t.processes[p]) { assert PhaseSound(s.store, s.processes[p]); }
    assert forall p | p in t.processes :: t.processes[p] == s.processes[p];
  }

  /** Deleting an object whose row is deleted disturbs nobody. */
  lemma DeletionKeeps(s: System, step: Step, t: System)
    requires Inv(s) && Next(s, step, t) && (step.DeleteObject? || step.MarkGone? || step.PostponeDeletion?)
    ensures Inv(t)
  {
    var p := step.p;
    var id := s.processes[p].id;
    assert PhaseSound(s.store, s.processes[p]);
    forall q | q in s.processes && q != p
      ensures PhaseSound(t.store, s.processes[q])
    {
      assert PhaseSound(s.store, s.processes[q]);
    }
    ProcessesKept(s, t, p);
  }

  lemma StopKeeps(s: System, p: nat, t: System)
    requires Inv(s) && Next(s, Stop(p), t)
    ensures Inv(t)
  {
    if p in s.processes {
      forall q | q in s.processes && q != p ensures PhaseSound(t.store, s.processes[q]) {}
      ProcessesKept(s, t, p);
    } else {
      assert t.processes == s.processes;
    }
  }

  lemma StepKeeps(s: System, step: Step, t: System)
    requires Inv(s) && Next(s, step, t)
    ensures Inv(t)
  {
    match step
    case BeginUpload(p, id) => BeginKeeps(s, p, Starting(id), t);
    case BeginRepair(p, id) => BeginKeeps(s, p, Repairing(id), t);
    case BeginDeletion(p, id) => BeginKeeps(s, p, Deleting(id), t);
    case SoftDelete(id, version) => SoftDeleteKeeps(s, id, version, t);
    case Stop(p) => StopKeeps(s, p, t);
    case CommitIntent(_, _) => UploadKeeps(s, step, t);
    case PutObject(_, _) => UploadKeeps(s, step, t);
    case CommitFile(_, _) => UploadKeeps(s, step, t);
    case ReadIntent(_) => RepairKeeps(s, step, t);
    case ReadFile(_) => RepairKeeps(s, step, t);
    case RemoveObject(_, _) => RepairKeeps(s, step, t);
    case CloseIntent(_, _) => RepairKeeps(s, step, t);
    case PostponeIntent(_, _) => RepairKeeps(s, step, t);
    case DeleteObject(_, _) => DeletionKeeps(s, step, t);
    case MarkGone(_, _) => DeletionKeeps(s, step, t);
    case PostponeDeletion(_, _) => DeletionKeeps(s, step, t);
  }

  ghost predicate Run(states: seq<System>, steps: seq<Step>) {
    && |states| == |steps| + 1 && states[0] == System(Store(map[], map[], {}), map[])
    && forall i | 0 <= i < |steps| :: Next(states[i], steps[i], states[i + 1])
  }

  lemma {:induction false} RunKeeps(states: seq<System>, steps: seq<Step>, n: nat)
    requires Run(states, steps) && n < |states|
    ensures Inv(states[n])
    decreases n
  {
    if n == 0 {
    } else {
      RunKeeps(states, steps, n - 1);
      assert Next(states[n - 1], steps[n - 1], states[n - 1 + 1]);
      StepKeeps(states[n - 1], steps[n - 1], states[n]);
    }
  }

  /**
   Along every run, with stops and lost answers anywhere: a live file has its object, and
   a stored object has a live file, a pending intent or a queued deletion.
   */
  lemma NothingLostNothingOrphaned(states: seq<System>, steps: seq<Step>, n: nat, id: string)
    requires Run(states, steps) && n < |states|
    ensures Live(states[n].store, id) ==> id in states[n].store.objects
    ensures id in states[n].store.objects ==>
              Live(states[n].store, id) || PendingIntent(states[n].store, id) || Queued(states[n].store, id)
  {
    RunKeeps(states, steps, n);
  }

  /** A step that removes an object never hits a live file: repair only ever removes objects without any row. */
  lemma RepairSparesCompleted(states: seq<System>, steps: seq<Step>, n: nat, id: string)
    requires Run(states, steps) && n < |steps| && id in states[n].store.objects && id !in states[n + 1].store.objects
    ensures !Live(states[n].store, id) && (steps[n].RemoveObject? ==> id !in states[n].store.files)
  {
    RunKeeps(states, steps, n);
    assert Next(states[n], steps[n], states[n + 1]);
    match steps[n]
    case RemoveObject(p, e) => assert PhaseSound(states[n].store, states[n].processes[p]);
    case DeleteObject(p, e) => assert PhaseSound(states[n].store, states[n].processes[p]);
    case _ =>
  }

  // ---- One call as steps among others ---------------------------------------

  /** The steps lead from s to t, one after the other. */
  predicate Leads(s: System, steps: seq<Step>, t: System)
    decreases |steps|
  {
    if steps == [] then s == t else Enabled(s, steps[0]) && Leads(Applied(s, steps[0]), steps[1..], t)
  }

  lemma {:induction false} LeadsThen(s: System, a: seq<Step>, u: System, b: seq<Step>, t: System)
    requires Leads(s, a, u) && Leads(u, b, t)
    ensures Leads(s, a + b, t)
    decreases |a|
  {
    if a == [] {
      assert a + b == b;
    } else {
      LeadsThen(Applied(s, a[0]), a[1..], u, b, t);
      assert (a + b)[1..] == a[1..] + b;
    }
  }

  lemma LeadsOn(s: System, a: seq<Step>, u: System, step: Step)
    requires Leads(s, a, u) && Enabled(u, step)
    ensures Leads(s, a + [step], Applied(u, step))
  {
    assert [step][1..] == [];
    LeadsThen(s, a, u, [step], Applied(u, step));
  }

  /** Whatever steps a call takes, with whatever others are doing, the protocol's invariant is kept. */
  lemma {:induction false} LeadsKeeps(s: System, steps: seq<Step>, t: System)
    requires Inv(s) && Leads(s, steps, t)
    ensures Inv(t)
    decreases |steps|
  {
    if steps == [] {
    } else {
      StepKeeps(s, steps[0], Applied(s, steps[0]));
      LeadsKeeps(Applied(s, steps[0]), steps[1..], t);
    }
  }

  /** A process that came anew, moved on and then moves again or ends. */
  lemma MovedAgain(s: System, p: nat, a: Store, phase: Phase, b: Store, go: bool, next: Phase)
    requires p !in s.processes
    ensures Move(Move(s, p, a, true, phase), p, b, go, next) == if go then Move(s, p, b, true, next) else s.(store := b)
  {
    assert s.processes[p := phase][p := next] == s.processes[p := next];
    assert s.processes[p := phase] - {p} == s.processes;
  }

  /** What processUploadIntent does: an existing live row wins, otherwise the object goes first. */
  function Repaired(s: Store, id: string, deletion: Effect, finish: Effect): Store {
    if !PendingIntent(s, id) then s
    else if Live(s, id) then if finish.applied then Finished(s, id, Completed) else s
    else
      var u := if deletion.applied then WithoutObject(s, id) else s;
      if !finish.applied then u else if deletion.answered then Finished(u, id, Abandoned) else IntentPostponed(u, id)
  }

  function RepairSteps(s: Store, p: nat, id: string, deletion: Effect, finish: Effect): seq<Step> {
    [BeginRepair(p, id), ReadIntent(p)]
    + if !PendingIntent(s, id) then []
      else if Live(s, id) then [ReadFile(p), CloseIntent(p, finish.applied)]
      else [ReadFile(p), RemoveObject(p, deletion),
            if deletion.answered then CloseIntent(p, finish.applied) else PostponeIntent(p, finish.applied)]
  }

  lemma RepairClosing(s: System, p: nat, id: string, store: Store, status: Status, finish: Effect)
    requires p !in s.processes
    ensures Leads(Move(s, p, store, true, Closing(id, status)), [CloseIntent(p, finish.applied)],
                  s.(store := if finish.applied then Finished(store, id, status) else store))
  {
    var u := Move(s, p, store, true, Closing(id, status));
    var next := if finish.applied then Finished(store, id, status) else store;
    MovedAgain(s, p, store, Closing(id, status), next, false, Closing(id, status));
    LeadsOn(u, [], u, CloseIntent(p, finish.applied));
    assert [] + [CloseIntent(p, finish.applied)] == [CloseIntent(p, finish.applied)];
  }

  lemma RepairPostponing(s: System, p: nat, id: string, store: Store, finish: Effect)
    requires p !in s.processes
    ensures Leads(Move(s, p, store, true, Postponing(id)), [PostponeIntent(p, finish.applied)],
                  s.(store := if finish.applied then IntentPostponed(store, id) else store))
  {
    var u := Move(s, p, store, true, Postponing(id));
    var next := if finish.applied then IntentPostponed(store, id) else store;
    MovedAgain(s, p, store, Postponing(id), next, false, Postponing(id));
    LeadsOn(u, [], u, PostponeIntent(p, finish.applied));
    assert [] + [PostponeIntent(p, finish.applied)] == [PostponeIntent(p, finish.applied)];
  }

  lemma RepairReclaiming(s: System, p: nat, id: string, deletion: Effect, finish: Effect)
    requires p !in s.processes && Truthful(deletion)
    ensures var u := if deletion.applied then WithoutObject(s.store, id) else s.store;
            Leads(Move(s, p, s.store, true, Reclaiming(id)),
                  [RemoveObject(p, deletion),
                      if deletion.answered then CloseIntent(p, finish.applied) else PostponeIntent(p, finish.applied)],
                  s.(store := if !finish.applied then u
                      else if deletion.answered then Finished(u, id, Abandoned) else IntentPostponed(u, id)))
  {
    var from := Move(s, p, s.store, true, Reclaiming(id));
    var u := if deletion.applied then WithoutObject(s.store, id) else s.store;
    var next := if deletion.answered then Closing(id, Abandoned) else Postponing(id);
    MovedAgain(s, p, s.store, Reclaiming(id), u, true, next);
    LeadsOn(from, [], from, RemoveObject(p, deletion));
    assert [] + [RemoveObject(p, deletion)] == [RemoveObject(p, deletion)];
    var mid := Move(s, p, u, true, next);
    if deletion.answered {
      RepairClosing(s, p, id, u, Abandoned, finish);
      LeadsThen(from, [RemoveObject(p, deletion)], mid, [CloseIntent(p, finish.applied)],
                s.(store := if finish.applied then Finished(u, id, Abandoned) else u));
      assert [RemoveObject(p, deletion)] + [CloseIntent(p, finish.applied)]
          == [RemoveObject(p, deletion), CloseIntent(p, finish.applied)];
    } else {
      RepairPostponing(s, p, id, u, finish);
      LeadsThen(from, [RemoveObject(p, deletion)], mid, [PostponeIntent(p, finish.applied)],
                s.(store := if finish.applied then IntentPostponed(u, id) else u));
      assert [RemoveObject(p, deletion)] + [PostponeIntent(p, finish.applied)]
          == [RemoveObject(p, deletion), PostponeIntent(p, finish.applied)];
    }
  }

  lemma RepairBegins(s: System, p: nat, id: string)
    requires p !in s.processes && LockFree(s, id)
    ensures PendingIntent(s.store, id) ==>
        Leads(s, [BeginRepair(p, id), ReadIntent(p)], Move(s, p, s.store, true, Unclaimed(id)))
    ensures !PendingIntent(s.store, id) ==> Leads(s, [BeginRepair(p, id), ReadIntent(p)], s)
  {
    var u := Move(s, p, s.store, true, Repairing(id));
    MovedAgain(s, p, s.store, Repairing(id), s.store, PendingIntent(s.store, id), Unclaimed(id));
    LeadsOn(s, [], s, BeginRepair(p, id));
    assert [] + [BeginRepair(p, id)] == [BeginRepair(p, id)];
    LeadsOn(s, [BeginRepair(p, id)], u, ReadIntent(p));
    assert [BeginRepair(p, id)] + [ReadIntent(p)] == [BeginRepair(p, id), ReadIntent(p)];
  }

  lemma RepairReads(s: System, p: nat, id: string)
    requires p !in s.processes && LockFree(s, id) && PendingIntent(s.store, id)
    ensures Leads(s, [BeginRepair(p, id), ReadIntent(p), ReadFile(p)],
                  Move(s, p, s.store, true, if Live(s.store, id) then Closing(id, Completed) else Reclaiming(id)))
  {
    RepairBegins(s, p, id);
    var u := Move(s, p, s.store, true, Unclaimed(id));
    MovedAgain(s, p, s.store, Unclaimed(id), s.store, true,
        if Live(s.store, id) then Closing(id, Completed) else Reclaiming(id));
    LeadsOn(s, [BeginRepair(p, id), ReadIntent(p)], u, ReadFile(p));
    assert [BeginRepair(p, id), ReadIntent(p)] + [ReadFile(p)] == [BeginRepair(p, id), ReadIntent(p), ReadFile(p)];
  }

  /** A repair is a sequence of the machine's steps, amid any other processes without this file's lock. */
  lemma RepairIsSteps(s: System, p: nat, id: string, deletion: Effect, finish: Effect)
    requires p !in s.processes && LockFree(s, id) && Truthful(deletion)
    ensures Leads(s, RepairSteps(s.store, p, id, deletion, finish),
        s.(store := Repaired(s.store, id, deletion, finish)))
  {
    RepairBegins(s, p, id);
    if PendingIntent(s.store, id) {
      RepairReads(s, p, id);
      var begun := [BeginRepair(p, id), ReadIntent(p), ReadFile(p)];
      var t := s.(store := Repaired(s.store, id, deletion, finish));
      if Live(s.store, id) {
        RepairClosing(s, p, id, s.store, Completed, finish);
        LeadsThen(s, begun, Move(s, p, s.store, true, Closing(id, Completed)), [CloseIntent(p, finish.applied)], t);
        assert begun + [CloseIntent(p, finish.applied)] == RepairSteps(s.store, p, id, deletion, finish);
      } else {
        var rest := [RemoveObject(p, deletion),
            if deletion.answered then CloseIntent(p, finish.applied) else PostponeIntent(p, finish.applied)];
        RepairReclaiming(s, p, id, deletion, finish);
        LeadsThen(s, begun, Move(s, p, s.store, true, Reclaiming(id)), rest, t);
        assert begun + rest == RepairSteps(s.store, p, id, deletion, finish);
      }
    } else {
      assert RepairSteps(s.store, p, id, deletion, finish) == [BeginRepair(p, id), ReadIntent(p)];
    }
  }

  /** An upload up to the point where it succeeds or is repaired. */
  function Sent(s: Store, id: string, put: Effect, commit: Effect): Store {
    var u := if put.applied then WithObject(WithIntent(s, id), id) else WithIntent(s, id);
    if put.answered && commit.applied then WithFile(u, id) else u
  }

  /** What Upload does: intent, object, then row and intent together; a failure is repaired at once where that works. */
  function Uploaded(s: Store, id: string, intent: Effect, put: Effect, commit: Effect, deletion: Effect,
          finish: Effect): Store
  {
    if !intent.answered then if intent.applied then WithIntent(s, id) else s
    else if put.answered && commit.answered then Sent(s, id, put, commit)
    else Repaired(Sent(s, id, put, commit), id, deletion, finish)
  }

  function SendSteps(p: nat, id: string, intent: Effect, put: Effect, commit: Effect): seq<Step> {
    [BeginUpload(p, id), CommitIntent(p, intent), PutObject(p, put)]
    + if put.answered then [CommitFile(p, commit.applied)] else []
  }

  function UploadSteps(s: Store, p: nat, id: string, intent: Effect, put: Effect, commit: Effect, deletion: Effect,
          finish: Effect): seq<Step>
  {
    if !intent.answered then [BeginUpload(p, id), CommitIntent(p, intent)]
    else if put.answered && commit.answered then SendSteps(p, id, intent, put, commit)
    else SendSteps(p, id, intent, put, commit) + RepairSteps(Sent(s, id, put, commit), p, id, deletion, finish)
  }

  predicate Unused(s: Store, id: string) { id !in s.files && id !in s.intents && id !in s.objects }

  lemma UploadBegins(s: System, p: nat, id: string, intent: Effect)
    requires p !in s.processes && LockFree(s, id) && Unused(s.store, id) && Truthful(intent)
    ensures var store := if intent.applied then WithIntent(s.store, id) else s.store;
            Leads(s, [BeginUpload(p, id), CommitIntent(p, intent)],
                  if intent.answered then Move(s, p, store, true, Intended(id)) else s.(store := store))
  {
    var u := Move(s, p, s.store, true, Starting(id));
    var store := if intent.applied then WithIntent(s.store, id) else s.store;
    MovedAgain(s, p, s.store, Starting(id), store, intent.answered, Intended(id));
    LeadsOn(s, [], s, BeginUpload(p, id));
    assert [] + [BeginUpload(p, id)] == [BeginUpload(p, id)];
    LeadsOn(s, [BeginUpload(p, id)], u, CommitIntent(p, intent));
    assert [BeginUpload(p, id)] + [CommitIntent(p, intent)] == [BeginUpload(p, id), CommitIntent(p, intent)];
  }

  lemma UploadPuts(s: System, p: nat, id: string, intent: Effect, put: Effect)
    requires p !in s.processes && LockFree(s, id) && Unused(s.store, id) && Truthful(intent) && intent.answered
        && Truthful(put)
    ensures var store := if put.applied then WithObject(WithIntent(s.store, id), id) else WithIntent(s.store, id);
            Leads(s, [BeginUpload(p, id), CommitIntent(p, intent), PutObject(p, put)],
                  if put.answered then Move(s, p, store, true, Stored(id)) else s.(store := store))
  {
    UploadBegins(s, p, id, intent);
    var before := WithIntent(s.store, id);
    var u := Move(s, p, before, true, Intended(id));
    MovedAgain(s, p, before, Intended(id), if put.applied then WithObject(before, id) else before, put.answered,
        Stored(id));
    LeadsOn(s, [BeginUpload(p, id), CommitIntent(p, intent)], u, PutObject(p, put));
    assert [BeginUpload(p, id), CommitIntent(p, intent)] + [PutObject(p, put)]
           == [BeginUpload(p, id), CommitIntent(p, intent), PutObject(p, put)];
  }

  lemma SendIsSteps(s: System, p: nat, id: string, intent: Effect, put: Effect, commit: Effect)
    requires p !in s.processes && LockFree(s, id) && Unused(s.store, id) && Truthful(intent) && intent.answered
        && Truthful(put)
    ensures Leads(s, SendSteps(p, id, intent, put, commit), s.(store := Sent(s.store, id, put, commit)))
  {
    UploadPuts(s, p, id, intent, put);
    var puts := [BeginUpload(p, id), CommitIntent(p, intent), PutObject(p, put)];
    if put.answered {
      var before := WithObject(WithIntent(s.store, id), id);
      var u := Move(s, p, before, true, Stored(id));
      MovedAgain(s, p, before, Stored(id), Sent(s.store, id, put, commit), false, Stored(id));
      LeadsOn(s, puts, u, CommitFile(p, commit.applied));
    } else {
      assert SendSteps(p, id, intent, put, commit) == puts;
    }
  }

  /** A whole upload is a sequence of the machine's steps, amid any other processes without this file's lock. */
  lemma UploadIsSteps(s: System, p: nat, id: string, intent: Effect, put: Effect, commit: Effect, deletion: Effect,
          finish: Effect)
    requires p !in s.processes && LockFree(s, id) && Unused(s.store, id)
    requires Truthful(intent) && Truthful(put) && Truthful(deletion)
    ensures Leads(s, UploadSteps(s.store, p, id, intent, put, commit, deletion, finish),
                  s.(store := Uploaded(s.store, id, intent, put, commit, deletion, finish)))
  {
    if !intent.answered {
      UploadBegins(s, p, id, intent);
    } else {
      SendIsSteps(s, p, id, intent, put, commit);
      var u := s.(store := Sent(s.store, id, put, commit));
      if !(put.answered && commit.answered) {
        RepairIsSteps(u, p, id, deletion, finish);
        LeadsThen(s, SendSteps(p, id, intent, put, commit), u, RepairSteps(u.store, p, id, deletion, finish),
                  s.(store := Repaired(u.store, id, deletion, finish)));
      }
    }
  }

  /** What processDeletion does for a deleted row. */
  function Purged(s: Store, id: string, deletion: Effect, mark: Effect): Store {
    var u := if deletion.applied then WithoutObject(s, id) else s;
    if !mark.applied then u else if deletion.answered then ObjectGone(u, id) else DeletionPostponed(u, id)
  }

  function PurgeSteps(p: nat, id: string, deletion: Effect, mark: Effect): seq<Step> {
    [BeginDeletion(p, id), DeleteObject(p, deletion)]
    + [if deletion.answered then MarkGone(p, mark.applied) else PostponeDeletion(p, mark.applied)]
  }

  lemma PurgeIsSteps(s: System, p: nat, id: string, deletion: Effect, mark: Effect)
    requires p !in s.processes && id in s.store.files && s.store.files[id].deleted && Truthful(deletion)
    ensures Leads(s, PurgeSteps(p, id, deletion, mark), s.(store := Purged(s.store, id, deletion, mark)))
  {
    var u := if deletion.applied then WithoutObject(s.store, id) else s.store;
    var next := if deletion.answered then Marking(id) else Requeuing(id);
    var begun := Move(s, p, s.store, true, Deleting(id));
    LeadsOn(s, [], s, BeginDeletion(p, id));
    assert [] + [BeginDeletion(p, id)] == [BeginDeletion(p, id)];
    MovedAgain(s, p, s.store, Deleting(id), u, true, next);
    LeadsOn(s, [BeginDeletion(p, id)], begun, DeleteObject(p, deletion));
    assert [BeginDeletion(p, id)] + [DeleteObject(p, deletion)] == [BeginDeletion(p, id), DeleteObject(p, deletion)];
    MovedAgain(s, p, u, next, Purged(s.store, id, deletion, mark), false, next);
    LeadsOn(s, [BeginDeletion(p, id), DeleteObject(p, deletion)], Move(s, p, u, true, next),
            if deletion.answered then MarkGone(p, mark.applied) else PostponeDeletion(p, mark.applied));
  }

  /** What Delete does. */
  function DeletedBy(s: Store, id: string, version: nat, commit: Effect, deletion: Effect, mark: Effect): Store {
    if !Live(s, id) || s.files[id].version != version then s
    else
      var u := if commit.applied then SoftDeleted(s, id, version) else s;
      if commit.answered then Purged(u, id, deletion, mark) else u
  }

  function DeleteSteps(s: Store, p: nat, id: string, version: nat, commit: Effect, deletion: Effect,
          mark: Effect): seq<Step>
  {
    if !Live(s, id) || s.files[id].version != version then []
    else (if commit.applied then [SoftDelete(id, version)] else [])
         + if commit.answered then PurgeSteps(p, id, deletion, mark) else []
  }

  /** A whole deletion is a sequence of the machine's steps, amid any other processes. */
  lemma DeleteIsSteps(s: System, p: nat, id: string, version: nat, commit: Effect, deletion: Effect, mark: Effect)
    requires p !in s.processes && Truthful(commit) && Truthful(deletion)
    ensures Leads(s, DeleteSteps(s.store, p, id, version, commit, deletion, mark),
                  s.(store := DeletedBy(s.store, id, version, commit, deletion, mark)))
  {
    if Live(s.store, id) && s.store.files[id].version == version && commit.applied {
      var u := s.(store := SoftDeleted(s.store, id, version));
      LeadsOn(s, [], s, SoftDelete(id, version));
      assert [] + [SoftDelete(id, version)] == [SoftDelete(id, version)];
      if commit.answered {
        PurgeIsSteps(u, p, id, deletion, mark);
        LeadsThen(s, [SoftDelete(id, version)], u, PurgeSteps(p, id, deletion, mark),
            u.(store := Purged(u.store, id, deletion, mark)));
      } else {
        assert [SoftDelete(id, version)] + [] == [SoftDelete(id, version)];
      }
    }
  }

  // ---- What a call leaves behind --------------------------------------------

  /** Nothing changes about the rows and objects of other ids. */
  ghost predicate OthersAsBefore(s: Store, t: Store, id: string) {
    forall other | other != id ::
        (other in t.files <==> other in s.files) && (other in t.objects <==> other in s.objects)
  }

  lemma SentKeeps(s: Store, id: string, put: Effect, commit: Effect)
    requires Consistent(s) && Unused(s, id) && Truthful(put)
    ensures var t := Sent(s, id, put, commit);
            && Consistent(t) && OthersAsBefore(s, t, id) && (Live(t, id) || PendingIntent(t, id))
            && (put.answered && commit.applied ==> Live(t, id) && id in t.objects && t.intents[id] == Completed)
  {}

  lemma RepairedKeeps(s: Store, id: string, deletion: Effect, finish: Effect)
    requires Consistent(s) && (Live(s, id) || PendingIntent(s, id)) && Truthful(deletion)
    ensures var t := Repaired(s, id, deletion, finish);
            && Consistent(t) && OthersAsBefore(s, t, id)
            && (id in t.objects ==> Live(t, id) || PendingIntent(t, id))
  {}

  /** However an upload ends, its object is owned by a live row or a pending intent, and success means both. */
  lemma UploadedKeeps(s: Store, id: string, intent: Effect, put: Effect, commit: Effect, deletion: Effect,
          finish: Effect)
    requires Consistent(s) && Unused(s, id) && Truthful(intent) && Truthful(put) && Truthful(commit)
        && Truthful(deletion)
    ensures var t := Uploaded(s, id, intent, put, commit, deletion, finish);
            && Consistent(t) && OthersAsBefore(s, t, id)
            && (id in t.objects ==> Live(t, id) || PendingIntent(t, id))
            && (intent.answered && put.answered && commit.answered ==>
               Live(t, id) && id in t.objects && t.intents[id] == Completed)
  {
    if intent.answered {
      SentKeeps(s, id, put, commit);
      RepairedKeeps(Sent(s, id, put, commit), id, deletion, finish);
    }
  }

  // ---- The service ----------------------------------------------------------

  class Service {
    var files: map<string, File>
    var intents: map<string, Status>
    var objects: set<string>

    function State(): Store
      reads this
    {
      Store(files, intents, objects)
    }

    constructor ()
      ensures State() == Store(map[], map[], {}) && Consistent(State())
    {
      files, intents, objects := map[], map[], {};
    }

    /** processUploadIntent under the upload lock. */
    method ProcessUploadIntent(id: string, deletion: Effect, finish: Effect) returns (ok: bool)
      requires Safe(State()) && Truthful(deletion) && Truthful(finish)
      modifies this
      ensures State() == Repaired(old(State()), id, deletion, finish)
      ensures Safe(State()) && (Consistent(old(State())) ==> Consistent(State()))
      ensures files == old(files)
          && (objects == old(objects) || (objects == old(objects) - {id} && !Live(old(State()), id)))
      ensures ok <==>
          PendingIntent(old(State()), id) ==>
              finish.answered && (Live(old(State()), id) || deletion.answered)
      ensures ok && PendingIntent(old(State()), id) ==>
                id in intents && if Live(old(State()), id) then intents[id] == Completed
                    else intents[id] == Abandoned && id !in objects
      ensures PendingIntent(old(State()), id) && !Live(old(State()), id) && !deletion.answered && finish.applied ==>
                id in intents && intents[id] == Pending(old(intents)[id].attempts + 1)
      ensures forall other | other != id :: (other in intents <==> other in old(intents))
                && (other in intents ==> intents[other] == old(intents)[other])
      ensures !PendingIntent(old(State()), id) ==> State() == old(State())
    {
      if id !in intents || !intents[id].Pending? { return true; }
      if id in files && !files[id].deleted {
        if finish.applied { intents := intents[id := Completed]; }
        return finish.answered;
      }
      if deletion.applied { objects := objects - {id}; }
      if !deletion.answered {
        if finish.applied { intents := intents[id := Pending(intents[id].attempts + 1)]; }
        return false;
      }
      if finish.applied { intents := intents[id := Abandoned]; }
      ok := finish.answered;
    }

    /** Upload of a generated id. */
    method Upload(id: string, intent: Effect, put: Effect, commit: Effect, deletion: Effect,
            finish: Effect) returns (ok: bool)
      requires Consistent(State()) && Unused(State(), id)
      requires Truthful(intent) && Truthful(put) && Truthful(commit) && Truthful(deletion) && Truthful(finish)
      modifies this
      ensures State() == Uploaded(old(State()), id, intent, put, commit, deletion, finish)
      ensures Consistent(State())
      ensures ok <==> intent.answered && put.answered && commit.answered
      ensures ok ==> files == old(files)[id := File(false, false, 0, 1)] && id in objects && intents[id] == Completed
      ensures id in objects ==> Live(State(), id) || PendingIntent(State(), id)
      ensures OthersAsBefore(old(State()), State(), id)
    {
      UploadedKeeps(State(), id, intent, put, commit, deletion, finish);
      SentKeeps(State(), id, put, commit);
      if intent.applied { intents := intents[id := Pending(0)]; }
      if !intent.answered { return false; }
      if put.applied { objects := objects + {id}; }
      var stored := put.answered;
      if stored && commit.applied {
        files := files[id := File(false, false, 0, 1)];
        intents := intents[id := Completed];
      }
      if stored && commit.answered { return true; }
      var repaired := ProcessUploadIntent(id, deletion, finish);
      ok := false;
    }

    method ProcessDeletion(id: string, deletion: Effect, mark: Effect)
      requires Consistent(State()) && id in files && files[id].deleted && Truthful(deletion) && Truthful(mark)
      modifies this
      ensures State() == Purged(old(State()), id, deletion, mark)
      ensures Consistent(State())
      ensures intents == old(intents) && files.Keys == old(files).Keys && files[id].deleted
      ensures deletion.answered && mark.applied ==> files[id].objectGone && id !in objects
      ensures !deletion.answered && mark.applied && !old(files)[id].objectGone ==>
                var file := old(files)[id];
                files[id] == file.(attempts := file.attempts + 1, version := file.version + 1)
      ensures forall other | other != id && other in files :: files[other] == old(files)[other]
      ensures objects == old(objects) - (if deletion.applied then {id} else {})
      ensures !deletion.answered && !old(files)[id].objectGone ==> Queued(State(), id)
    {
      if deletion.applied { objects := objects - {id}; }
      if mark.applied && !files[id].objectGone {
        var file := files[id];
        files := files[id := if deletion.answered then file.(objectGone := true, version := file.version + 1)
                             else file.(attempts := file.attempts + 1, version := file.version + 1)];
      }
    }

    method Delete(id: string, version: nat, commit: Effect, deletion: Effect, mark: Effect) returns (ok: bool)
      requires Consistent(State()) && Truthful(commit) && Truthful(deletion) && Truthful(mark)
      modifies this
      ensures State() == DeletedBy(old(State()), id, version, commit, deletion, mark)
      ensures Consistent(State())
      ensures ok <==> Live(old(State()), id) && old(files)[id].version == version && commit.answered
      ensures ok ==> !Live(State(), id) && intents == old(intents)
      ensures !ok ==> State() == old(State()) || State() == SoftDeleted(old(State()), id, version)
    {
      if id !in files || files[id].deleted || files[id].version != version { return false; }
      if commit.applied {
        files := files[id := files[id].(deleted := true, objectGone := false, version := version + 1)];
      }
      if !commit.answered { return false; }
      ProcessDeletion(id, deletion, mark);
      ok := true;
    }
  }
}
