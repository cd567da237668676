/**
 The run manager of backend/utility_runs.py over the mutation gate of
 backend/operation_gate.py, as a transition system: each step is one critical
 section or one database statement, threads interleave freely between steps, and
 every database write may fail.
 */
module RunProtocol {
  import opened Wrappers

  type OpId = string  // operation and run identifiers, each generated once (uuid4)

  datatype Status = Queued | Running | Cancelling | Completed | Failed | Cancelled | Skipped

  datatype Row = Row(key: string, status: Status)

  /** A MutationLease: Releasing lies between setting `_released` and the gate's own release. */
  datatype LeasePhase = Held | Releasing | Released

  /** Where the thread that owns a run stands. */
  datatype Phase =
    | Acquired(key: string)     // start: gate taken, row not inserted
    | Inserted                  // start: row inserted and cancel event registered
    | StartFailed               // start: the thread could not be started
    | Aborting                  // start: on its way out with an error
    | Spawned                   // worker: before the Running update
    | Body                      // worker: inside the gated body
    | Finishing(result: Status) // worker: before the final update
    | Bookkeeping               // worker: a bookkeeping error is being recorded
    | Cleanup                   // worker: before deregistration
    | Deregistered              // worker: before lease.release()
    | Gone

  datatype State = State(
    active: Option<OpId>,            // the gate's current operation
    gateAccepting: bool,
    leases: map<OpId, LeasePhase>,
    clears: multiset<OpId>,          // how often each operation's release emptied the gate
    accepting: bool,                 // the manager's flag
    starter: Option<OpId>,           // the start() call inside the manager's lock
    rows: map<OpId, Row>,
    events: map<OpId, bool>,         // registered cancel events, and whether each is set
    phases: map<OpId, Phase>,
    pending: set<OpId>,              // events a shutdown has yet to set
    stranded: set<OpId>              // active rows whose terminal write failed
  )

  datatype Step =
    | StartAcquire(run: OpId, key: string)
    | StartInsert(run: OpId)
    | StartInsertFails(run: OpId)
    | StartSpawn(run: OpId)
    | SpawnFails(run: OpId)
    | StartFailedWrite(run: OpId, ok: bool)
    | ReadFails(run: OpId)
    | BeginRun(run: OpId, ok: bool)
    | EndBody(run: OpId, result: Status)
    | FinishWrite(run: OpId, ok: bool)
    | BookkeepWrite(run: OpId, ok: bool)
    | Deregister(run: OpId)
    | LeaseRelease(op: OpId)
    | GateRelease(op: OpId)
    | StaleRelease(op: OpId)
    | HoldAcquire(op: OpId)
    | Cancel(run: OpId, ok: bool)
    | StopGate
    | LockedShutdown
    | Signal(run: OpId)
    | AcceptManager
    | AcceptGate
    | RecordSkipped(run: OpId, key: string)
    | Restart(reconciled: bool)

  predicate IsActive(status: Status) {
    status in {Queued, Running, Cancelling}
  }

  predicate ActiveRow(s: State, run: OpId) {
    run in s.rows && IsActive(s.rows[run].status)
  }

  /** The worker or start() call is inside `with self._lock` for its whole duration. */
  predicate Starting(phase: Phase) {
    phase.Acquired? || phase.Inserted? || phase.StartFailed? || phase.Aborting?
  }

  predicate Registered(phase: Phase) {
    phase.Inserted? || phase.Spawned? || phase.Body? || phase.Finishing? || phase.Bookkeeping? || phase.Cleanup?
  }

  /** MutationGate.release: only the operation that is active empties the gate. */
  function GateAfterRelease(active: Option<OpId>, op: OpId): Option<OpId> {
    if active == Some(op) then None else active
  }

  /** MutationGate.acquire succeeds exactly here. */
  predicate GateFree(s: State) {
    s.gateAccepting && s.active == None
  }

  function WithStatus(s: State, run: OpId, status: Status): State
    requires run in s.rows
  {
    s.(rows := s.rows[run := s.rows[run].(status := status)])
  }

  function WithPhase(s: State, run: OpId, phase: Phase): State {
    s.(phases := s.phases[run := phase])
  }

  /** The partial unique index: one active row per job key. */
  predicate KeyFree(s: State, key: string) {
    forall r :: r in s.rows && IsActive(s.rows[r].status) ==> s.rows[r].key != key
  }

  /** A terminal write that fails leaves an active row behind. */
  function Strand(s: State, run: OpId): State {
    if ActiveRow(s, run) then s.(stranded := s.stranded + {run}) else s
  }

  predicate In(s: State, run: OpId, phase: Phase) {
    run in s.phases && s.phases[run] == phase
  }

  /** The pieces of shared state that let a step happen. A step of another thread that
      needs the manager's lock waits until no start() call is inside it. */
  predicate Enabled(s: State, step: Step) {
    match step
    case StartAcquire(run, key) =>
      s.starter == None && s.accepting && GateFree(s) && run !in s.leases && run !in s.rows
    case StartInsert(run) =>
      run in s.phases && s.phases[run].Acquired? && KeyFree(s, s.phases[run].key)
    case StartInsertFails(run) => run in s.phases && s.phases[run].Acquired?
    case StartSpawn(run) => In(s, run, Inserted)
    case SpawnFails(run) => In(s, run, Inserted)
    case StartFailedWrite(run, _) => In(s, run, StartFailed) && run in s.rows
    case ReadFails(run) => In(s, run, Spawned)
    case BeginRun(run, _) => s.starter == None && In(s, run, Spawned) && run in s.rows && run in s.events
    case EndBody(run, result) =>
      In(s, run, Body) && run in s.events && result in {Completed, Failed, Cancelled}
      && (result == Completed ==> !s.events[run])
    case FinishWrite(run, _) =>
      s.starter == None && run in s.phases && s.phases[run].Finishing? && run in s.rows
    case BookkeepWrite(run, _) => s.starter == None && In(s, run, Bookkeeping) && run in s.rows
    case Deregister(run) => s.starter == None && In(s, run, Cleanup)
    case LeaseRelease(op) =>
      op in s.leases && s.leases[op] == Held && (op in s.phases ==> s.phases[op] == Deregistered)
    case GateRelease(op) => op in s.leases && s.leases[op] == Releasing
    case StaleRelease(op) => op in s.leases && s.leases[op] == Released
    case HoldAcquire(op) => GateFree(s) && op !in s.leases && op !in s.rows
    case Cancel(run, _) => s.starter == None && run in s.rows && s.rows[run].status in {Queued, Running}
    case StopGate => true
    case LockedShutdown => s.starter == None
    case Signal(run) => run in s.pending
    case AcceptManager => s.starter == None
    case AcceptGate => true
    case RecordSkipped(run, _) => s.starter == None && run !in s.rows && run !in s.leases
    case Restart(_) => true
  }

  function Apply(s: State, step: Step): State
    requires Enabled(s, step)
  {
    match step
    case StartAcquire(run, key) =>
      WithPhase(s, run, Acquired(key)).(active := Some(run), leases := s.leases[run := Held], starter := Some(run))
    case StartInsert(run) =>
      WithPhase(s, run, Inserted).(
        rows := s.rows[run := Row(s.phases[run].key, Queued)], events := s.events[run := false])
    case StartInsertFails(run) =>
      WithPhase(s, run, Aborting).(leases := s.leases[run := Releasing])
    case StartSpawn(run) =>
      WithPhase(s, run, Spawned).(starter := None)
    case SpawnFails(run) =>
      WithPhase(s, run, StartFailed).(events := s.events - {run})
    case StartFailedWrite(run, ok) =>
      var written := if ok then WithStatus(s, run, Failed) else Strand(s, run);
      WithPhase(written, run, Aborting).(leases := s.leases[run := Releasing])
    case ReadFails(run) => WithPhase(s, run, Bookkeeping)
    case BeginRun(run, ok) =>
      if !ok then WithPhase(s, run, Bookkeeping)
      else if s.events[run] then WithPhase(WithStatus(s, run, Cancelled), run, Cleanup)
      else WithPhase(WithStatus(s, run, Running), run, Body)
    case EndBody(run, result) => WithPhase(s, run, Finishing(result))
    case FinishWrite(run, ok) =>
      if ok then WithPhase(WithStatus(s, run, s.phases[run].result), run, Cleanup)
      else WithPhase(s, run, Bookkeeping)
    case BookkeepWrite(run, ok) =>
      WithPhase(if ok then WithStatus(s, run, Failed) else Strand(s, run), run, Cleanup)
    case Deregister(run) => WithPhase(s, run, Deregistered).(events := s.events - {run})
    case LeaseRelease(op) => s.(leases := s.leases[op := Releasing])
    case GateRelease(op) =>
      var out := s.(
        active := GateAfterRelease(s.active, op), leases := s.leases[op := Released],
        clears := if s.active == Some(op) then s.clears + multiset{op} else s.clears);
      if op !in s.phases then out
      else WithPhase(out, op, Gone).(starter := if s.starter == Some(op) then None else s.starter)
    case StaleRelease(op) =>
      s.(active := GateAfterRelease(s.active, op),
         clears := if s.active == Some(op) then s.clears + multiset{op} else s.clears)
    case HoldAcquire(op) => s.(active := Some(op), leases := s.leases[op := Held])
    case Cancel(run, ok) =>
      var signalled := if run in s.events then s.(events := s.events[run := true]) else s;
      if ok then WithStatus(signalled, run, Cancelling) else signalled
    case StopGate => s.(gateAccepting := false)
    case LockedShutdown => s.(accepting := false, pending := s.pending + s.events.Keys)
    case Signal(run) =>
      var out := s.(pending := s.pending - {run});
      if run in s.events then out.(events := s.events[run := true]) else out
    case AcceptManager => s.(accepting := true)
    case AcceptGate => s.(gateAccepting := true)
    case RecordSkipped(run, key) => s.(rows := s.rows[run := Row(key, Skipped)])
    case Restart(reconciled) =>
      var rows := if reconciled then Reconciled(s.rows) else s.rows;
      State(None, true, map[], multiset{}, true, None, rows, map[], map[], {},
            set r | r in rows && IsActive(rows[r].status))
  }

  /** _mark_interrupted_runs: every active row becomes Failed. */
  function Reconciled(rows: map<OpId, Row>): map<OpId, Row> {
    map r | r in rows :: if IsActive(rows[r].status) then rows[r].(status := Failed) else rows[r]
  }

  // ---- The invariant --------------------------------------------------------

  /** The lease phase that goes with each thread phase. */
  predicate LeaseFits(phase: Phase, lease: LeasePhase) {
    match phase
    case Aborting => lease == Releasing
    case Deregistered => lease != Released
    case Gone => lease == Released
    case _ => lease == Held
  }

  /** The row that goes with each thread phase; a Cancelling row means a set event. */
  predicate RowFits(s: State, run: OpId, phase: Phase) {
    match phase
    case Acquired(_) => run !in s.rows
    case Inserted => run in s.rows && s.rows[run].status == Queued
    case StartFailed => run in s.rows && s.rows[run].status == Queued
    case Aborting => ActiveRow(s, run) ==> run in s.stranded
    case Spawned => run in s.rows && (s.rows[run].status == Queued || CancelRequested(s, run))
    case Body => run in s.rows && (s.rows[run].status == Running || CancelRequested(s, run))
    case Finishing(result) =>
      run in s.rows && result in {Completed, Failed, Cancelled}
      && (s.rows[run].status == Running || CancelRequested(s, run))
    case Bookkeeping => ActiveRow(s, run)
    case _ => run in s.rows ==> ActiveRow(s, run) ==> run in s.stranded
  }

  predicate CancelRequested(s: State, run: OpId) {
    run in s.rows && s.rows[run].status == Cancelling && run in s.events && s.events[run]
  }

  /** While one of these phases lasts, the thread still owes the row its final status. */
  predicate Owing(phase: Phase) {
    phase.Inserted? || phase.StartFailed? || phase.Spawned? || phase.Body? || phase.Finishing? || phase.Bookkeeping?
  }

  predicate OpInv(s: State, op: OpId) {
    && (s.active == Some(op) <==> op in s.leases && s.leases[op] != Released)
    && s.clears[op] == (if op in s.leases && s.leases[op] == Released then 1 else 0)
    && (s.starter == Some(op) <==> op in s.phases && Starting(s.phases[op]))
    && (op in s.events <==> op in s.phases && Registered(s.phases[op]))
    && (op in s.phases ==> op in s.leases && LeaseFits(s.phases[op], s.leases[op]) && RowFits(s, op, s.phases[op]))
    && (ActiveRow(s, op) ==> op in s.stranded || (op in s.phases && Owing(s.phases[op])))
    && (op in s.stranded ==> ActiveRow(s, op) && (op in s.phases ==> !Owing(s.phases[op]) && !s.phases[op].Acquired?))
    && (!s.accepting && op in s.events && !s.events[op] ==> op in s.pending)
  }

  ghost predicate Inv(s: State) {
    && (forall op :: OpInv(s, op))
    && (s.starter.Some? ==> s.accepting)
  }

  /** The operation a step is about; a step about nobody in particular gets `other`. */
  function Subject(step: Step, other: OpId): OpId {
    match step
    case StopGate => other
    case LockedShutdown => other
    case AcceptManager => other
    case AcceptGate => other
    case Restart(_) => other
    case LeaseRelease(op) => op
    case GateRelease(op) => op
    case StaleRelease(op) => op
    case HoldAcquire(op) => op
    case _ => step.run
  }

  predicate SameAt<T(==)>(m: map<OpId, T>, n: map<OpId, T>, op: OpId) {
    (op in m <==> op in n) && (op in m ==> m[op] == n[op])
  }

  /** The two states agree on everything the invariant says about this operation. */
  predicate SameFor(s: State, t: State, op: OpId) {
    && (s.active == Some(op) <==> t.active == Some(op))
    && (s.starter == Some(op) <==> t.starter == Some(op))
    && SameAt(s.leases, t.leases, op) && SameAt(s.rows, t.rows, op)
    && SameAt(s.events, t.events, op) && SameAt(s.phases, t.phases, op)
    && s.clears[op] == t.clears[op]
    && (op in s.stranded <==> op in t.stranded)
    && (op in s.pending <==> op in t.pending)
    && s.accepting == t.accepting
  }

  datatype Kind = InStart | InRun | InFinish | OnLease | OnSignal | OnControl

  function KindOf(step: Step): Kind {
    if step.StartAcquire? || step.StartInsert? || step.StartInsertFails? || step.StartSpawn?
       || step.SpawnFails? || step.StartFailedWrite? then InStart
    else if step.ReadFails? || step.BeginRun? || step.EndBody? then InRun
    else if step.FinishWrite? || step.BookkeepWrite? || step.Deregister? then InFinish
    else if step.LeaseRelease? || step.GateRelease? || step.StaleRelease? || step.HoldAcquire? then OnLease
    else if step.Cancel? || step.Signal? then OnSignal
    else OnControl
  }

  lemma SameForKeeps(s: State, t: State, op: OpId)
    requires SameFor(s, t, op) && OpInv(s, op)
    ensures OpInv(t, op)
  {
  }

  // What a step of each kind does to the operation it is about ...

  lemma OpeningStepKept(s: State, step: Step, op: OpId)
    requires step.StartAcquire? || step.StartInsert? || step.StartInsertFails?
    requires Enabled(s, step) && op == step.run && OpInv(s, op) && (s.starter.Some? ==> s.accepting)
    ensures OpInv(Apply(s, step), op)
  {
  }

  lemma LaunchingStepKept(s: State, step: Step, op: OpId)
    requires step.StartSpawn? || step.SpawnFails? || step.StartFailedWrite?
    requires Enabled(s, step) && op == step.run && OpInv(s, op) && (s.starter.Some? ==> s.accepting)
    ensures OpInv(Apply(s, step), op)
  {
  }

  lemma StartStepKept(s: State, step: Step, op: OpId)
    requires KindOf(step) == InStart && Enabled(s, step) && op == step.run
    requires OpInv(s, op) && (s.starter.Some? ==> s.accepting)
    ensures OpInv(Apply(s, step), op)
  {
    if step.StartAcquire? || step.StartInsert? || step.StartInsertFails? {
      OpeningStepKept(s, step, op);
    } else {
      LaunchingStepKept(s, step, op);
    }
  }

  lemma RunStepKept(s: State, step: Step, op: OpId)
    requires KindOf(step) == InRun && Enabled(s, step) && op == step.run
    requires OpInv(s, op)
    ensures OpInv(Apply(s, step), op)
  {
    if step.BeginRun? {
      if step.ok {
      }
    } else {
      assert Apply(s, step).rows == s.rows;
    }
  }

  lemma FinishStepKept(s: State, step: Step, op: OpId)
    requires KindOf(step) == InFinish && Enabled(s, step) && op == step.run
    requires OpInv(s, op)
    ensures OpInv(Apply(s, step), op)
  {
    if step.Deregister? {
    } else if step.ok {
    } else {
      assert Apply(s, step).rows == s.rows;
    }
  }

  lemma LeaseStepKept(s: State, step: Step, op: OpId)
    requires KindOf(step) == OnLease && Enabled(s, step) && op == step.op
    requires OpInv(s, op)
    ensures OpInv(Apply(s, step), op)
  {
  }

  lemma ControlStepKept(s: State, step: Step, op: OpId)
    requires KindOf(step) == OnControl && Enabled(s, step) && op == Subject(step, op)
    requires OpInv(s, op)
    ensures OpInv(Apply(s, step), op)
  {
    if step.Restart? {
    } else {
      assert Apply(s, step).phases == s.phases;
    }
  }

  lemma CancelKept(s: State, op: OpId, ok: bool)
    requires Enabled(s, Cancel(op, ok)) && OpInv(s, op)
    ensures OpInv(Apply(s, Cancel(op, ok)), op)
  {
  }

  lemma SignalKept(s: State, op: OpId)
    requires Enabled(s, Signal(op)) && OpInv(s, op)
    ensures OpInv(Apply(s, Signal(op)), op)
  {
  }

  lemma SignalStepKept(s: State, step: Step, op: OpId)
    requires KindOf(step) == OnSignal && Enabled(s, step) && op == Subject(step, op)
    requires OpInv(s, op)
    ensures OpInv(Apply(s, step), op)
  {
    match step
    case Cancel(run, ok) => CancelKept(s, run, ok);
    case Signal(run) => SignalKept(s, run);
  }

  // ... and to everyone else: nothing.

  lemma OpeningStepLeaves(s: State, step: Step, op: OpId)
    requires step.StartAcquire? || step.StartInsert? || step.StartInsertFails?
    requires Enabled(s, step) && op != step.run && OpInv(s, op) && OpInv(s, step.run)
    ensures SameFor(s, Apply(s, step), op)
  {
  }

  lemma LaunchingStepLeaves(s: State, step: Step, op: OpId)
    requires step.StartSpawn? || step.SpawnFails? || step.StartFailedWrite?
    requires Enabled(s, step) && op != step.run && OpInv(s, op) && OpInv(s, step.run)
    ensures SameFor(s, Apply(s, step), op)
  {
  }

  lemma StartStepLeaves(s: State, step: Step, op: OpId)
    requires KindOf(step) == InStart && Enabled(s, step) && op != step.run
    requires OpInv(s, op) && OpInv(s, step.run)
    ensures SameFor(s, Apply(s, step), op)
  {
    if step.StartAcquire? || step.StartInsert? || step.StartInsertFails? {
      OpeningStepLeaves(s, step, op);
    } else {
      LaunchingStepLeaves(s, step, op);
    }
  }

  lemma RunStepLeaves(s: State, step: Step, op: OpId)
    requires KindOf(step) == InRun && Enabled(s, step) && op != step.run
    ensures SameFor(s, Apply(s, step), op)
  {
  }

  lemma FinishStepLeaves(s: State, step: Step, op: OpId)
    requires KindOf(step) == InFinish && Enabled(s, step) && op != step.run
    ensures SameFor(s, Apply(s, step), op)
  {
    if step.Deregister? {
    } else if step.ok {
      assert Apply(s, step).events == s.events;
    } else {
      assert Apply(s, step).rows == s.rows && Apply(s, step).events == s.events;
    }
  }

  lemma LeaseStepLeaves(s: State, step: Step, op: OpId)
    requires KindOf(step) == OnLease && Enabled(s, step) && op != step.op
    requires OpInv(s, op) && OpInv(s, step.op)
    ensures SameFor(s, Apply(s, step), op)
  {
  }

  lemma ControlStepLeaves(s: State, step: Step, op: OpId)
    requires KindOf(step) == OnControl && Enabled(s, step) && op != Subject(step, op)
    ensures SameFor(s, Apply(s, step), op)
  {
  }

  lemma CancelLeaves(s: State, run: OpId, ok: bool, op: OpId)
    requires Enabled(s, Cancel(run, ok)) && op != run
    ensures SameFor(s, Apply(s, Cancel(run, ok)), op)
  {
  }

  lemma SignalLeaves(s: State, run: OpId, op: OpId)
    requires Enabled(s, Signal(run)) && op != run
    ensures SameFor(s, Apply(s, Signal(run)), op)
  {
  }

  lemma SignalStepLeaves(s: State, step: Step, op: OpId)
    requires KindOf(step) == OnSignal && Enabled(s, step) && op != Subject(step, op)
    ensures SameFor(s, Apply(s, step), op)
  {
    match step
    case Cancel(run, ok) => CancelLeaves(s, run, ok, op);
    case Signal(run) => SignalLeaves(s, run, op);
  }

  lemma BystanderUntouched(s: State, step: Step, op: OpId)
    requires Enabled(s, step) && op != Subject(step, op)
    requires OpInv(s, op) && OpInv(s, Subject(step, op))
    ensures SameFor(s, Apply(s, step), op)
  {
    match KindOf(step)
    case InStart => StartStepLeaves(s, step, op);
    case InRun => RunStepLeaves(s, step, op);
    case InFinish => FinishStepLeaves(s, step, op);
    case OnLease => LeaseStepLeaves(s, step, op);
    case OnSignal => SignalStepLeaves(s, step, op);
    case OnControl => ControlStepLeaves(s, step, op);
  }

  lemma OpKept(s: State, step: Step, op: OpId)
    requires Inv(s) && Enabled(s, step)
    ensures OpInv(Apply(s, step), op)
  {
    assert OpInv(s, op) && OpInv(s, Subject(step, op));
    if op != Subject(step, op) {
      BystanderUntouched(s, step, op);
      SameForKeeps(s, Apply(s, step), op);
    } else {
      match KindOf(step)
      case InStart => StartStepKept(s, step, op);
      case InRun => RunStepKept(s, step, op);
      case InFinish => FinishStepKept(s, step, op);
      case OnLease => LeaseStepKept(s, step, op);
      case OnSignal => SignalStepKept(s, step, op);
      case OnControl => ControlStepKept(s, step, op);
    }
  }

  lemma StepKeepsInv(s: State, step: Step)
    requires Inv(s) && Enabled(s, step)
    ensures Inv(Apply(s, step))
  {
    forall op
      ensures OpInv(Apply(s, step), op)
    {
      OpKept(s, step, op);
    }
  }

  // ---- Whole runs -----------------------------------------------------------

  /** The steps can be taken one after the other from s. */
  predicate CanRun(s: State, steps: seq<Step>)
    decreases |steps|
  {
    steps == [] || (Enabled(s, steps[0]) && CanRun(Apply(s, steps[0]), steps[1..]))
  }

  function Final(s: State, steps: seq<Step>): State
    requires CanRun(s, steps)
    decreases |steps|
  {
    if steps == [] then s else Final(Apply(s, steps[0]), steps[1..])
  }

  /** A process that has just started over this table, whatever an earlier one left in it. */
  function Started(rows: map<OpId, Row>): State {
    State(None, true, map[], multiset{}, true, None, rows, map[], map[], {},
          set r | r in rows && IsActive(rows[r].status))
  }

  lemma StartedInv(rows: map<OpId, Row>)
    ensures Inv(Started(rows))
  {
  }

  lemma {:induction false} RunKeepsInv(s: State, steps: seq<Step>)
    requires Inv(s) && CanRun(s, steps)
    ensures Inv(Final(s, steps))
    decreases |steps|
  {
    if steps != [] {
      StepKeepsInv(s, steps[0]);
      RunKeepsInv(Apply(s, steps[0]), steps[1..]);
    }
  }

  /** Between acquire and the end of release: a worker's body, a start() call, or a hold(). */
  predicate InsideGate(s: State, op: OpId) {
    op in s.leases && s.leases[op] != Released
  }

  /** In every interleaving at most one operation is inside the gate, and the gate names
      it. Bodies of two runs therefore never overlap. */
  lemma OneInsideGate(rows: map<OpId, Row>, steps: seq<Step>, a: OpId, b: OpId)
    requires CanRun(Started(rows), steps)
    requires InsideGate(Final(Started(rows), steps), a)
    ensures Final(Started(rows), steps).active == Some(a)
    ensures InsideGate(Final(Started(rows), steps), b) ==> a == b
  {
    StartedInv(rows);
    RunKeepsInv(Started(rows), steps);
    var s := Final(Started(rows), steps);
    assert OpInv(s, a) && OpInv(s, b);
  }

  lemma BodyIsInsideGate(s: State, run: OpId)
    requires Inv(s) && run in s.phases && (s.phases[run].Body? || Owing(s.phases[run]))
    ensures InsideGate(s, run)
  {
    assert OpInv(s, run);
  }

  /** Exactly once: an operation's release empties the gate at most once ever, has done
      so by the time its thread is gone, and has not while anything of it is left. */
  lemma ReleasedExactlyOnce(rows: map<OpId, Row>, steps: seq<Step>, op: OpId)
    requires CanRun(Started(rows), steps)
    ensures var s := Final(Started(rows), steps);
      && s.clears[op] <= 1
      && (In(s, op, Gone) ==> s.clears[op] == 1)
      && (InsideGate(s, op) ==> s.clears[op] == 0)
      && (op in s.leases && !InsideGate(s, op) ==> s.clears[op] == 1)
  {
    StartedInv(rows);
    RunKeepsInv(Started(rows), steps);
    assert OpInv(Final(Started(rows), steps), op);
  }

  /** A release that comes late, after the lease is spent, changes nothing at all;
      one that empties the gate was the active operation's own. */
  lemma StaleReleaseFreesNobody(s: State, op: OpId)
    requires Inv(s)
    ensures Enabled(s, StaleRelease(op)) ==> Apply(s, StaleRelease(op)) == s
    ensures Enabled(s, GateRelease(op)) ==> s.active == Some(op)
  {
    assert OpInv(s, op);
  }

  /** Without a failed terminal write the only active row is the lease holder's. */
  lemma ActiveRowBelongsToHolder(s: State, run: OpId)
    requires Inv(s) && ActiveRow(s, run) && run !in s.stranded
    ensures s.active == Some(run)
  {
    assert OpInv(s, run);
  }

  predicate WritesSucceed(step: Step) {
    match step
    case StartFailedWrite(_, ok) => ok
    case BeginRun(_, ok) => ok
    case FinishWrite(_, ok) => ok
    case BookkeepWrite(_, ok) => ok
    case Cancel(_, ok) => ok
    case Restart(reconciled) => reconciled
    case _ => true
  }

  lemma StepStrandsNobody(s: State, step: Step)
    requires Enabled(s, step) && s.stranded == {} && WritesSucceed(step)
    ensures Apply(s, step).stranded == {}
  {
  }

  lemma {:induction false} NothingStranded(s: State, steps: seq<Step>)
    requires Inv(s) && s.stranded == {} && CanRun(s, steps)
    requires forall step :: step in steps ==> WritesSucceed(step)
    ensures Final(s, steps).stranded == {}
    decreases |steps|
  {
    if steps != [] {
      StepKeepsInv(s, steps[0]);
      assert WritesSucceed(steps[0]);
      StepStrandsNobody(s, steps[0]);
      NothingStranded(Apply(s, steps[0]), steps[1..]);
    }
  }

  /** From a reconciled table and with writes succeeding, at most one row is Queued,
      Running or Cancelling, and its run holds the lease. */
  lemma OneActiveRow(rows: map<OpId, Row>, steps: seq<Step>, a: OpId, b: OpId)
    requires CanRun(Started(Reconciled(rows)), steps)
    requires forall step :: step in steps ==> WritesSucceed(step)
    ensures var s := Final(Started(Reconciled(rows)), steps);
      ActiveRow(s, a) ==> s.active == Some(a) && (ActiveRow(s, b) ==> a == b)
  {
    var s0 := Started(Reconciled(rows));
    StartedInv(Reconciled(rows));
    assert s0.stranded == {};
    NothingStranded(s0, steps);
    RunKeepsInv(s0, steps);
    var s := Final(s0, steps);
    assert OpInv(s, a) && OpInv(s, b);
  }

  /** Queued, then Running, then Cancelling, then one final status. */
  function Rank(status: Status): nat {
    match status
    case Queued => 0
    case Running => 1
    case Cancelling => 2
    case _ => 3
  }

  predicate Advances(before: Status, after: Status) {
    Rank(before) <= Rank(after) && (Rank(before) == 3 ==> after == before)
  }

  /** The row is there, about the same job, and at the same status or a later one. */
  predicate RowAdvances(s: State, t: State, r: OpId)
    requires r in s.rows
  {
    r in t.rows && t.rows[r].key == s.rows[r].key && Advances(s.rows[r].status, t.rows[r].status)
  }

  lemma StartStepAdvances(s: State, step: Step)
    requires KindOf(step) == InStart && Enabled(s, step) && step.run in s.rows && OpInv(s, step.run)
    ensures RowAdvances(s, Apply(s, step), step.run)
  {
  }

  lemma RunStepAdvances(s: State, step: Step)
    requires KindOf(step) == InRun && Enabled(s, step) && step.run in s.rows && OpInv(s, step.run)
    ensures RowAdvances(s, Apply(s, step), step.run)
  {
  }

  lemma FinishStepAdvances(s: State, step: Step)
    requires KindOf(step) == InFinish && Enabled(s, step) && step.run in s.rows && OpInv(s, step.run)
    ensures RowAdvances(s, Apply(s, step), step.run)
  {
  }

  lemma OtherStepAdvances(s: State, step: Step, r: OpId)
    requires KindOf(step) in {OnLease, OnSignal, OnControl} && Enabled(s, step)
    requires r == Subject(step, r) && r in s.rows && OpInv(s, r)
    ensures RowAdvances(s, Apply(s, step), r)
  {
  }

  lemma StepAdvancesRows(s: State, step: Step, r: OpId)
    requires Inv(s) && Enabled(s, step) && r in s.rows
    ensures RowAdvances(s, Apply(s, step), r)
  {
    assert OpInv(s, r) && OpInv(s, Subject(step, r));
    if r != Subject(step, r) {
      BystanderUntouched(s, step, r);
    } else {
      match KindOf(step)
      case InStart => StartStepAdvances(s, step);
      case InRun => RunStepAdvances(s, step);
      case InFinish => FinishStepAdvances(s, step);
      case _ => OtherStepAdvances(s, step, r);
    }
  }

  /** Whatever fails, a row only moves forward: a terminal row never changes again and
      Cancelling never returns to Running, over any run, restarts included. */
  lemma {:induction false} RowsOnlyAdvance(s: State, steps: seq<Step>, r: OpId)
    requires Inv(s) && CanRun(s, steps) && r in s.rows
    ensures RowAdvances(s, Final(s, steps), r)
    decreases |steps|
  {
    if steps != [] {
      StepAdvancesRows(s, steps[0], r);
      StepKeepsInv(s, steps[0]);
      RowsOnlyAdvance(Apply(s, steps[0]), steps[1..], r);
    }
  }

  /** After a crash anywhere in any run, reconciliation settles every row for good: whatever
      happens afterwards, further crashes included, a row that was active stays Failed and any
      other stays as it was. What is active later is the row of a later run. */
  lemma CrashSettlesRows(rows: map<OpId, Row>, before: seq<Step>, after: seq<Step>, r: OpId)
    requires CanRun(Started(rows), before)
    requires CanRun(Apply(Final(Started(rows), before), Restart(true)), after)
    ensures var s := Final(Started(rows), before);
      var t := Final(Apply(s, Restart(true)), after);
      && (r in s.rows ==>
            && r in t.rows
            && t.rows[r] == if ActiveRow(s, r) then s.rows[r].(status := Failed) else s.rows[r])
      && (ActiveRow(t, r) ==> r !in s.rows)
  {
    var s := Final(Started(rows), before);
    StartedInv(rows);
    RunKeepsInv(Started(rows), before);
    StepKeepsInv(s, Restart(true));
    if r in s.rows {
      RowsOnlyAdvance(Apply(s, Restart(true)), after, r);
    }
  }

  /** A shutdown that has passed its locked section and has not been undone. */
  ghost predicate ShutDown(s: State, registered: set<OpId>) {
    && !s.accepting
    && s.events.Keys <= registered
    && forall r :: r in s.events ==> s.events[r] || r in s.pending
  }

  predicate Reaccepts(step: Step) {
    step.AcceptManager? || step.Restart?
  }

  lemma NoneIsRegistered(s: State, step: Step)
    requires Inv(s) && Enabled(s, step) && !s.accepting && !Reaccepts(step)
    ensures !step.StartAcquire? && !step.StartInsert? && !Apply(s, step).accepting
    ensures Apply(s, step).events.Keys <= s.events.Keys
  {
    assert step.StartInsert? ==> OpInv(s, step.run);
  }

  lemma StepStaysShutDown(s: State, registered: set<OpId>, step: Step)
    requires Inv(s) && Enabled(s, step) && ShutDown(s, registered) && !Reaccepts(step)
    ensures !step.StartAcquire? && ShutDown(Apply(s, step), registered)
  {
    NoneIsRegistered(s, step);
    forall r | r in Apply(s, step).events
      ensures Apply(s, step).events[r] || r in Apply(s, step).pending
    {
      assert r in s.events;
    }
  }

  /** From the locked section of a shutdown until the manager accepts again, no start
      succeeds, nothing new is registered, and every registered event is set or still to
      be set by the shutdown; once the shutdown has gone through its list, all are set. */
  lemma {:induction false} ShutdownSignalsEveryone(s: State, steps: seq<Step>)
    requires Inv(s) && Enabled(s, LockedShutdown) && CanRun(Apply(s, LockedShutdown), steps)
    requires forall step :: step in steps ==> !Reaccepts(step)
    ensures var t := Final(Apply(s, LockedShutdown), steps);
      && (forall step :: step in steps ==> !step.StartAcquire?)
      && ShutDown(t, s.events.Keys)
      && (t.pending == {} ==> forall r :: r in t.events ==> t.events[r])
  {
    StepKeepsInv(s, LockedShutdown);
    RunStaysShutDown(Apply(s, LockedShutdown), s.events.Keys, steps);
  }

  lemma {:induction false} RunStaysShutDown(s: State, registered: set<OpId>, steps: seq<Step>)
    requires Inv(s) && CanRun(s, steps) && ShutDown(s, registered)
    requires forall step :: step in steps ==> !Reaccepts(step)
    ensures forall step :: step in steps ==> !step.StartAcquire?
    ensures ShutDown(Final(s, steps), registered)
    decreases |steps|
  {
    if steps != [] {
      assert !Reaccepts(steps[0]);
      StepStaysShutDown(s, registered, steps[0]);
      StepKeepsInv(s, steps[0]);
      RunStaysShutDown(Apply(s, steps[0]), registered, steps[1..]);
    }
  }
}
