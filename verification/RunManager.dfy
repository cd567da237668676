/** The gate and lease objects of backend/operation_gate.py. */
module OperationGate {
  import opened Wrappers
  import opened RunProtocol

  class MutationGate {
    var active: Option<OpId>
    var accepting: bool

    constructor ()
      ensures active == None && accepting
    {
      active, accepting := None, true;
    }

    /** A conflict, reported as null, changes nothing. */
    method Acquire(id: OpId) returns (lease: MutationLease?)
      modifies this`active
      ensures (lease != null) == (old(accepting) && old(active) == None)
      ensures lease != null ==>
        fresh(lease) && lease.gate == this && lease.operation == id && !lease.released && active == Some(id)
      ensures lease == null ==> active == old(active)
    {
      if !accepting || active.Some? {
        return null;
      }
      active := Some(id);
      lease := new MutationLease(this, id);
    }

    method Release(id: OpId)
      modifies this`active
      ensures active == GateAfterRelease(old(active), id)
    {
      if active.Some? && active.value == id {
        active := None;
      }
    }

    method StopAccepting()
      modifies this`accepting
      ensures !accepting
    {
      accepting := false;
    }

    method StartAccepting()
      modifies this`accepting
      ensures accepting
    {
      accepting := true;
    }
  }

  class MutationLease {
    const gate: MutationGate
    const operation: OpId
    var released: bool

    constructor (gate: MutationGate, operation: OpId)
      ensures this.gate == gate && this.operation == operation && !released
    {
      this.gate, this.operation, released := gate, operation, false;
    }

    /** Idempotent: only the first call reaches the gate. */
    method Release()
      modifies this`released, gate`active
      ensures released
      ensures gate.active ==
        if old(released) then old(gate.active) else GateAfterRelease(old(gate.active), operation)
    {
      if released {
        return;
      }
      released := true;
      gate.Release(operation);
    }
  }
}

/**
 UtilityRunManager itself. Each method is shown to take the protocol from the state it
 finds to the state it leaves by protocol steps, in the order in which the code makes
 them, whatever the database does; the theorems of RunProtocol then apply.
 */
module RunManager {
  import opened Wrappers
  import opened RunProtocol
  import opened OperationGate

  ghost predicate Reaches(s: State, t: State) {
    exists steps :: CanRun(s, steps) && Final(s, steps) == t
  }

  lemma {:induction false} RunAppends(s: State, steps: seq<Step>, step: Step)
    requires CanRun(s, steps) && Enabled(Final(s, steps), step)
    ensures CanRun(s, steps + [step]) && Final(s, steps + [step]) == Apply(Final(s, steps), step)
    decreases |steps|
  {
    if steps == [] {
      assert steps + [step] == [step];
      assert CanRun(Apply(s, step), []);
      assert [step][1..] == [];
    } else {
      assert (steps + [step])[1..] == steps[1..] + [step];
      RunAppends(Apply(s, steps[0]), steps[1..], step);
    }
  }

  lemma ReachesStep(s: State, t: State, step: Step)
    requires Reaches(s, t) && Enabled(t, step)
    ensures Reaches(s, Apply(t, step))
  {
    var steps :| CanRun(s, steps) && Final(s, steps) == t;
    RunAppends(s, steps, step);
  }

  lemma ReachesItself(s: State)
    ensures Reaches(s, s)
  {
    assert CanRun(s, []) && Final(s, []) == s;
  }

  lemma ReachesKeepsInv(s: State, t: State)
    requires Inv(s) && Reaches(s, t)
    ensures Inv(t)
  {
    var steps :| CanRun(s, steps) && Final(s, steps) == t;
    RunKeepsInv(s, steps);
  }

  // What the invariant says about a run in a given phase, in plain terms.

  lemma SpawnedFacts(s: State, run: OpId)
    requires Inv(s) && In(s, run, Spawned)
    ensures run in s.rows && run in s.events && s.active == Some(run)
  {
    assert OpInv(s, run);
  }

  lemma BookkeepingFacts(s: State, run: OpId)
    requires Inv(s) && In(s, run, Bookkeeping)
    ensures ActiveRow(s, run)
  {
    assert OpInv(s, run);
  }

  lemma CleanupFacts(s: State, run: OpId)
    requires Inv(s) && In(s, run, Cleanup)
    ensures s.active == Some(run) && run in s.leases && s.leases[run] == Held
  {
    assert OpInv(s, run);
  }

  lemma GoneFacts(s: State, run: OpId)
    requires Inv(s) && In(s, run, Gone)
    ensures s.clears[run] == 1 && run !in s.events
    ensures run in s.rows ==> (IsActive(s.rows[run].status) <==> run in s.stranded)
  {
    assert OpInv(s, run);
  }

  lemma NewRunFacts(s: State, run: OpId)
    requires Inv(s) && run !in s.leases
    ensures run !in s.phases && run !in s.events
  {
    assert OpInv(s, run);
  }

  /** What a cancel leaves behind, field by field. */
  lemma CancelEffect(s: State, run: OpId, ok: bool)
    requires Enabled(s, Cancel(run, ok))
    ensures var t := Apply(s, Cancel(run, ok));
      && t.active == s.active && t.gateAccepting == s.gateAccepting && t.accepting == s.accepting
      && t.rows == (if ok then s.rows[run := s.rows[run].(status := Cancelling)] else s.rows)
      && t.events == if run in s.events then s.events[run := true] else s.events
  {
  }

  lemma OthersStay(rows: map<OpId, Row>, run: OpId, row: Row)
    requires run !in rows
    ensures rows[run := row] - {run} == rows - {run} == rows
  {
  }

  /** How the gated body of a run ends: the worker and the summary come through, the worker is
      interrupted, or something else is raised. */
  datatype BodyEnd = Returned | Interrupted | Raised

  /** The status that a run's end earns it, given its event when the worker returned. */
  function StatusOf(ended: BodyEnd, cancelled: bool): Status {
    match ended
    case Raised => Failed
    case Interrupted => Cancelled
    case Returned => if cancelled then Cancelled else Completed
  }

  class UtilityRunManager {
    const gate: MutationGate
    var accepting: bool
    var rows: map<OpId, Row>           // maintenance_job_runs
    var cancelEvents: map<OpId, bool>
    ghost var leases: map<OpId, LeasePhase>
    ghost var clears: multiset<OpId>
    ghost var starter: Option<OpId>
    ghost var phases: map<OpId, Phase>
    ghost var pending: set<OpId>
    ghost var stranded: set<OpId>
    ghost var faults: nat              // how many accesses to the database, and thread starts, have failed

    ghost function View(): State
      reads gate`active, gate`accepting, this`leases, this`clears, this`accepting, this`starter, this`rows,
        this`cancelEvents, this`phases, this`pending, this`stranded
    {
      State(
        gate.active, gate.accepting, leases, clears, accepting, starter, rows, cancelEvents, phases, pending, stranded)
    }

    constructor (gate: MutationGate, table: map<OpId, Row>)
      requires gate.active == None && gate.accepting
      ensures this.gate == gate && View() == Started(table) && Inv(View())
    {
      this.gate, accepting, rows, cancelEvents := gate, true, table, map[];
      leases, clears, starter, phases, pending := map[], multiset{}, None, map[], {};
      stranded, faults := set r | r in table && IsActive(table[r].status), 0;
      new;
      StartedInv(table);
    }

    /** The ghost part of a step: the real fields have been assigned already. Not ok is an access to
        the database, or the start of a thread, that failed. */
    ghost method Record(s0: State, was: State, step: Step, ok: bool := true)
      requires Reaches(s0, was) && Enabled(was, step)
      requires var t := Apply(was, step);
        t.active == gate.active && t.gateAccepting == gate.accepting && t.accepting == accepting
        && t.rows == rows && t.events == cancelEvents
      modifies this`leases, this`clears, this`starter, this`phases, this`pending, this`stranded, this`faults
      ensures View() == Apply(was, step) && Reaches(s0, View()) && faults == old(faults) + if ok then 0 else 1
    {
      ReachesStep(s0, was, step);
      Follow(Apply(was, step));
      faults := faults + if ok then 0 else 1;
    }

    ghost method Follow(t: State)
      requires t.active == gate.active && t.gateAccepting == gate.accepting && t.accepting == accepting
      requires t.rows == rows && t.events == cancelEvents
      modifies this`leases, this`clears, this`starter, this`phases, this`pending, this`stranded
      ensures View() == t
    {
      leases, clears, starter := t.leases, t.clears, t.starter;
      phases, pending, stranded := t.phases, t.pending, t.stranded;
    }

    /** lease.release() as the two steps it is made of. */
    method ReleaseLease(lease: MutationLease, ghost s0: State)
      requires lease.gate == gate && !lease.released
      requires Reaches(s0, View()) && gate.active == Some(lease.operation)
      requires lease.operation in phases && lease.operation in leases
      requires leases[lease.operation] == (if phases[lease.operation] == Deregistered then Held else Releasing)
      modifies lease`released, gate`active
      modifies this`leases, this`clears, this`starter, this`phases, this`pending, this`stranded, this`faults
      ensures Reaches(s0, View()) && lease.released && gate.active == None
      ensures phases == old(phases)[lease.operation := Gone] && stranded == old(stranded)
      ensures clears == old(clears) + multiset{lease.operation} && faults == old(faults)
      ensures starter == if old(starter) == Some(lease.operation) then None else old(starter)
    {
      ghost var was := View();
      if leases[lease.operation] == Held {
        Record(s0, was, LeaseRelease(lease.operation));
        was := View();
      }
      lease.Release();
      Record(s0, was, GateRelease(lease.operation));
    }

    /** The INSERT inside start; the partial unique index can refuse it. */
    method InsertRow(run: OpId, key: string, ghost s0: State) returns (inserted: bool)
      requires Reaches(s0, View()) && In(View(), run, Acquired(key)) && run in leases
      modifies this
      ensures Reaches(s0, View())
      ensures starter == old(starter) && run in phases && run in leases && stranded == old(stranded)
      ensures inserted <==> KeyFree(old(View()), key) && faults == old(faults)
      ensures old(faults) <= faults
      ensures inserted ==>
        && phases[run] == Inserted && leases == old(leases)
        && rows == old(rows)[run := Row(key, Queued)] && cancelEvents == old(cancelEvents)[run := false]
      ensures !inserted ==>
        && phases[run] == Aborting && leases[run] == Releasing
        && rows == old(rows) && cancelEvents == old(cancelEvents)
      ensures gate.active == old(gate.active)
    {
      ghost var was := View();
      var ok: bool := *;
      inserted := ok;
      if inserted && forall r :: r in rows && IsActive(rows[r].status) ==> rows[r].key != key {
        rows := rows[run := Row(key, Queued)];
        cancelEvents := cancelEvents[run := false];
        Record(s0, was, StartInsert(run));
      } else {
        inserted := false;
        Record(s0, was, StartInsertFails(run), ok);
      }
    }

    /** thread.start() inside start, and what happens when it raises. */
    method SpawnThread(run: OpId, ghost s0: State) returns (spawned: bool)
      requires Reaches(s0, View()) && In(View(), run, Inserted) && run in rows && starter == Some(run)
      requires run in leases && gate.active == Some(run)
      modifies this
      ensures Reaches(s0, View()) && gate.active == Some(run) && run in phases
      ensures old(faults) <= faults && (spawned <==> faults == old(faults))
      ensures spawned ==>
        starter == None && phases[run] == Spawned && rows == old(rows) && cancelEvents == old(cancelEvents)
      ensures !spawned ==>
        && phases[run] == Aborting && starter == Some(run)
        && run in leases && leases[run] == Releasing
        && cancelEvents == old(cancelEvents) - {run} && rows - {run} == old(rows) - {run}
    {
      ghost var was := View();
      spawned := *;
      if spawned {
        Record(s0, was, StartSpawn(run));
        return;
      }
      cancelEvents := cancelEvents - {run};
      Record(s0, was, SpawnFails(run), false);
      RecordFailedStart(run, s0);
    }

    /** The except clause of start: one attempt to mark the row Failed. */
    method RecordFailedStart(run: OpId, ghost s0: State)
      requires Reaches(s0, View()) && In(View(), run, StartFailed) && run in rows
      modifies this
      ensures Reaches(s0, View()) && gate.active == old(gate.active) && starter == old(starter)
      ensures In(View(), run, Aborting) && run in leases && leases[run] == Releasing
      ensures cancelEvents == old(cancelEvents) && rows - {run} == old(rows) - {run}
      ensures old(faults) <= faults
    {
      ghost var was := View();
      var written: bool := *;
      if written {
        rows := rows[run := rows[run].(status := Failed)];
      }
      Record(s0, was, StartFailedWrite(run, written), written);
    }

    /** start. With a lease the run is queued, registered and inside the gate; without one the
        gate is as it was and nothing stays registered. The last statement reads the row back
        and may raise, so an error does not mean that nothing was started. */
    method Start(run: OpId, key: string) returns (lease: MutationLease?, raised: bool)
      requires Inv(View()) && starter == None && run !in leases && run !in rows
      modifies this, gate`active
      ensures Reaches(old(View()), View()) && Inv(View()) && starter == None
      ensures lease != null ==>
        && fresh(lease) && lease.gate == gate && lease.operation == run && !lease.released
        && gate.active == Some(run) && In(View(), run, Spawned)
        && rows == old(rows)[run := Row(key, Queued)] && cancelEvents == old(cancelEvents)[run := false]
      ensures var possible :=
          old(accepting) && old(gate.accepting) && old(gate.active) == None && KeyFree(old(View()), key);
        && (lease != null ==> possible)
        && (faults == old(faults) ==> (lease != null <==> possible) && (raised <==> lease == null))
        && (lease != null ==> faults == old(faults) + if raised then 1 else 0)
      ensures lease == null ==> gate.active == old(gate.active) && cancelEvents == old(cancelEvents)
      ensures lease == null ==> rows - {run} == old(rows) && (ActiveRow(View(), run) ==> run in stranded)
      ensures lease == null ==> raised
    {
      ghost var s0 := View();
      ReachesItself(s0);
      NewRunFacts(s0, run);
      if !accepting {
        return null, true;
      }
      lease := gate.Acquire(run);
      if lease == null {
        return null, true;
      }
      var launched := StartHeld(run, key, lease, s0);
      if launched {
        raised := *;             // get
        faults := faults + if raised then 1 else 0;
      } else {
        lease, raised := null, true;
      }
    }

    /** From the moment the gate is taken to the moment its lock is left. */
    method StartHeld(run: OpId, key: string, lease: MutationLease, ghost s0: State) returns (launched: bool)
      requires Inv(s0) && Reaches(s0, s0) && Enabled(s0, StartAcquire(run, key))
      requires View() == s0.(active := Some(run)) && run !in rows && run !in cancelEvents
      requires lease.gate == gate && lease.operation == run && !lease.released
      modifies this, gate`active, lease`released
      ensures Reaches(s0, View()) && Inv(View()) && starter == None
      ensures launched <==> KeyFree(s0, key) && faults == old(faults)
      ensures old(faults) <= faults
      ensures launched ==>
        && gate.active == Some(run) && In(View(), run, Spawned) && lease.released == old(lease.released)
        && rows == old(rows)[run := Row(key, Queued)] && cancelEvents == old(cancelEvents)[run := false]
      ensures !launched ==>
        && gate.active == None && lease.released && cancelEvents == old(cancelEvents)
        && rows - {run} == old(rows) && (ActiveRow(View(), run) ==> run in stranded)
    {
      Record(s0, s0, StartAcquire(run, key));
      launched := LaunchHeld(run, key, lease, s0);
    }

    /** The way out of start after an error: the lease goes back. */
    method AbortStart(run: OpId, lease: MutationLease, ghost s0: State)
      requires Inv(s0) && Reaches(s0, View()) && starter == Some(run) && In(View(), run, Aborting)
      requires run in leases && leases[run] == Releasing && gate.active == Some(run)
      requires lease.gate == gate && lease.operation == run && !lease.released
      modifies lease`released, gate`active
      modifies this`leases, this`clears, this`starter, this`phases, this`pending, this`stranded, this`faults
      ensures Reaches(s0, View()) && Inv(View()) && starter == None && gate.active == None && lease.released
      ensures (ActiveRow(View(), run) ==> run in stranded) && faults == old(faults)
    {
      ReleaseLease(lease, s0);
      ReachesKeepsInv(s0, View());
      GoneFacts(View(), run);
    }

    /** The rest of start, with the gate taken. */
    method LaunchHeld(run: OpId, key: string, lease: MutationLease, ghost s0: State)
      returns (launched: bool)
      requires Inv(s0) && Reaches(s0, View()) && starter == Some(run) && In(View(), run, Acquired(key))
      requires run in leases && run !in rows && run !in cancelEvents && gate.active == Some(run)
      requires lease.gate == gate && lease.operation == run && !lease.released
      modifies this, gate`active, lease`released
      ensures Reaches(s0, View()) && Inv(View()) && starter == None
      ensures launched <==> KeyFree(old(View()), key) && faults == old(faults)
      ensures old(faults) <= faults
      ensures launched ==>
        && gate.active == Some(run) && In(View(), run, Spawned)
        && lease.released == old(lease.released)
        && rows == old(rows)[run := Row(key, Queued)] && cancelEvents == old(cancelEvents)[run := false]
      ensures !launched ==>
        && gate.active == None && lease.released && cancelEvents == old(cancelEvents)
        && rows - {run} == old(rows) && (ActiveRow(View(), run) ==> run in stranded)
    {
      launched := InsertAndSpawn(run, key, s0);
      if launched {
        ReachesKeepsInv(s0, View());
      } else {
        AbortStart(run, lease, s0);
      }
    }

    method InsertAndSpawn(run: OpId, key: string, ghost s0: State) returns (launched: bool)
      requires Reaches(s0, View()) && starter == Some(run) && In(View(), run, Acquired(key))
      requires run in leases && run !in rows && run !in cancelEvents && gate.active == Some(run)
      modifies this
      ensures Reaches(s0, View()) && gate.active == Some(run)
      ensures launched <==> KeyFree(old(View()), key) && faults == old(faults)
      ensures old(faults) <= faults
      ensures launched ==>
        && starter == None && In(View(), run, Spawned)
        && rows == old(rows)[run := Row(key, Queued)] && cancelEvents == old(cancelEvents)[run := false]
      ensures !launched ==>
        && starter == Some(run) && In(View(), run, Aborting) && run in leases && leases[run] == Releasing
        && cancelEvents == old(cancelEvents) && rows - {run} == old(rows)
    {
      launched := InsertRow(run, key, s0);
      OthersStay(old(rows), run, Row(key, Queued));
      if launched {
        launched := SpawnThread(run, s0);
      }
    }

    /** _execute. Every path ends with the lease released once, the gate empty, the run
        deregistered and its row terminal or, if the write failed, known to be stranded. `ended`
        says how the body ended if it was entered. */
    method Execute(run: OpId, lease: MutationLease)
      returns (ghost ended: Option<BodyEnd>)
      requires Inv(View()) && starter == None && In(View(), run, Spawned)
      requires lease.gate == gate && lease.operation == run && !lease.released
      modifies this, gate`active, lease`released
      ensures Reaches(old(View()), View()) && Inv(View()) && starter == None
      ensures lease.released && gate.active == None && In(View(), run, Gone) && clears[run] == 1
      ensures run in old(rows) && run in old(cancelEvents) && cancelEvents == old(cancelEvents) - {run}
      ensures run in rows && (IsActive(rows[run].status) <==> run in stranded)
      ensures rows == old(rows)[run := old(rows)[run].(status := rows[run].status)]
      // A run whose event was set never enters the body and is Cancelled; any other ends as its body did.
      ensures faults == old(faults) ==> (ended == None <==> old(cancelEvents)[run])
      ensures faults == old(faults) ==>
        && (rows[run].status == Completed <==> ended == Some(Returned))
        && (rows[run].status == Failed <==> ended == Some(Raised))
        && (rows[run].status == Cancelled <==> ended in {None, Some(Interrupted)})
      // A failed access makes it Failed; a second one strands it.
      ensures faults == old(faults) + 1 ==> rows[run].status == Failed
      ensures run in stranded <==> faults > old(faults) + 1
    {
      ghost var s0 := View();
      ReachesItself(s0);
      SpawnedFacts(s0, run);
      ended := RunRecorded(run, s0);
      LeaveRun(run, lease, s0);
    }

    /** _execute without the finally clause. */
    method RunRecorded(run: OpId, ghost s0: State) returns (ghost ended: Option<BodyEnd>)
      requires Inv(s0) && Reaches(s0, View()) && starter == None && In(View(), run, Spawned)
      requires run in rows && run in cancelEvents
      modifies this
      ensures Reaches(s0, View()) && starter == None && In(View(), run, Cleanup)
      ensures cancelEvents == old(cancelEvents)
      ensures run in rows && rows == old(rows)[run := old(rows)[run].(status := rows[run].status)]
      ensures faults == old(faults) ==>
        && (ended == None <==> old(cancelEvents)[run])
        && rows[run].status == if ended == None then Cancelled else StatusOf(ended.value, false)
      ensures faults == old(faults) + 1 ==> rows[run].status == Failed
      ensures IsActive(rows[run].status) <==> faults > old(faults) + 1
    {
      var raised;
      raised, ended := RunBody(run, s0);
      var _ := RecordOutcome(run, raised, s0);
    }

    /** The finally clause. */
    method LeaveRun(run: OpId, lease: MutationLease, ghost s0: State)
      requires Inv(s0) && Reaches(s0, View()) && starter == None && In(View(), run, Cleanup)
      requires lease.gate == gate && lease.operation == run && !lease.released
      modifies this, gate`active, lease`released
      ensures Reaches(s0, View()) && Inv(View()) && starter == None
      ensures lease.released && gate.active == None && In(View(), run, Gone) && clears[run] == 1
      ensures cancelEvents == old(cancelEvents) - {run} && rows == old(rows) && faults == old(faults)
      ensures run in rows ==> (IsActive(rows[run].status) <==> run in stranded)
    {
      ReachesKeepsInv(s0, View());
      DeregisterRun(run, s0);
      ReleaseLease(lease, s0);
      ReachesKeepsInv(s0, View());
      GoneFacts(View(), run);
    }

    /** The locked part of the finally clause. */
    method DeregisterRun(run: OpId, ghost s0: State)
      requires Reaches(s0, View()) && Inv(View()) && starter == None && In(View(), run, Cleanup)
      modifies this
      ensures Reaches(s0, View()) && starter == None && In(View(), run, Deregistered)
      ensures gate.active == Some(run) && run in leases && leases[run] == Held
      ensures rows == old(rows) && cancelEvents == old(cancelEvents) - {run} && faults == old(faults)
    {
      ghost var was := View();
      CleanupFacts(was, run);
      cancelEvents := cancelEvents - {run};
      Record(s0, was, Deregister(run));
    }

    /** The outer except clause: one attempt to mark the row Failed. */
    method RecordOutcome(run: OpId, raised: bool, ghost s0: State) returns (written: bool)
      requires Inv(s0) && Reaches(s0, View()) && starter == None && run in rows
      requires In(View(), run, if raised then Bookkeeping else Cleanup)
      modifies this
      ensures Reaches(s0, View()) && starter == None && In(View(), run, Cleanup)
      ensures rows == (if raised && written then old(rows)[run := old(rows)[run].(status := Failed)] else old(rows))
      ensures raised && !written ==> IsActive(rows[run].status) && run in stranded
      ensures faults == old(faults) + if raised && !written then 1 else 0
      ensures gate.active == old(gate.active) && cancelEvents == old(cancelEvents)
    {
      written := true;
      if raised {
        ghost var was := View();
        ReachesKeepsInv(s0, was);
        BookkeepingFacts(was, run);
        written := *;
        if written {
          rows := rows[run := rows[run].(status := Failed)];
        }
        Record(s0, was, BookkeepWrite(run, written), written);
      }
    }

    /** The first locked section of _execute. */
    method BeginRunSection(run: OpId, ghost s0: State) returns (written: bool)
      requires Reaches(s0, View()) && starter == None && In(View(), run, Spawned)
      requires run in rows && run in cancelEvents
      modifies this
      ensures Reaches(s0, View()) && starter == None && gate.active == old(gate.active)
      ensures cancelEvents == old(cancelEvents)
      ensures In(View(), run, if !written then Bookkeeping else if cancelEvents[run] then Cleanup else Body)
      ensures rows == if written
        then old(rows)[run := old(rows)[run].(status := if cancelEvents[run] then Cancelled else Running)]
        else old(rows)
      ensures faults == old(faults) + if written then 0 else 1
    {
      ghost var was := View();
      written := *;
      if written {
        rows := rows[run := rows[run].(status := if cancelEvents[run] then Cancelled else Running)];
      }
      Record(s0, was, BeginRun(run, written), written);
    }

    /** The worker's body and the final update. */
    method FinishSection(run: OpId, ghost s0: State) returns (written: bool, result: Status, ghost ended: BodyEnd)
      requires Reaches(s0, View()) && starter == None
      requires In(View(), run, Body) && run in cancelEvents && run in rows
      modifies this
      ensures result == StatusOf(ended, old(cancelEvents)[run])
      ensures Reaches(s0, View()) && starter == None && gate.active == old(gate.active)
      ensures rows == (if written then old(rows)[run := old(rows)[run].(status := result)] else old(rows))
      ensures cancelEvents == old(cancelEvents)
      ensures In(View(), run, if written then Cleanup else Bookkeeping)
      ensures faults == old(faults) + if written then 0 else 1
    {
      ghost var was := View();
      result, ended := RunWorker(run);
      Record(s0, was, EndBody(run, result));
      written := WriteResult(run, result, s0);
    }

    /** The worker, the look at its event, and the summary. Each of the two calls may raise. */
    method RunWorker(run: OpId) returns (result: Status, ghost ended: BodyEnd)
      requires run in cancelEvents
      ensures result == StatusOf(ended, cancelEvents[run])
      ensures result == Completed <==> ended == Returned && !cancelEvents[run]
      ensures result == Failed <==> ended == Raised
    {
      var worked: BodyEnd := *;
      ended := worked;
      if worked == Raised {
        result := Failed;
      } else if worked == Interrupted || cancelEvents[run] {
        result := Cancelled;
      } else {
        var formatted: BodyEnd := *;
        ended := formatted;
        result := if formatted == Returned then Completed else if formatted == Interrupted then Cancelled else Failed;
      }
    }

    method WriteResult(run: OpId, result: Status, ghost s0: State) returns (written: bool)
      requires Reaches(s0, View()) && starter == None && In(View(), run, Finishing(result)) && run in rows
      modifies this
      ensures Reaches(s0, View()) && starter == None && gate.active == old(gate.active)
      ensures rows == (if written then old(rows)[run := old(rows)[run].(status := result)] else old(rows))
      ensures cancelEvents == old(cancelEvents)
      ensures In(View(), run, if written then Cleanup else Bookkeeping)
      ensures faults == old(faults) + if written then 0 else 1
    {
      ghost var was := View();
      written := *;
      if written {
        rows := rows[run := rows[run].(status := result)];
      }
      Record(s0, was, FinishWrite(run, written), written);
    }

    /** The try block of _execute, which begins with reading the row. */
    method RunBody(run: OpId, ghost s0: State) returns (raised: bool, ghost ended: Option<BodyEnd>)
      requires starter == None && In(View(), run, Spawned) && Reaches(s0, View())
      requires run in rows && run in cancelEvents
      modifies this
      ensures Reaches(s0, View()) && starter == None && gate.active == old(gate.active)
      ensures In(View(), run, if raised then Bookkeeping else Cleanup)
      ensures cancelEvents == old(cancelEvents)
      ensures run in rows && rows == old(rows)[run := old(rows)[run].(status := rows[run].status)]
      ensures !raised ==> (ended == None <==> cancelEvents[run])
      ensures !raised ==> rows[run].status == if ended == None then Cancelled else StatusOf(ended.value, false)
      ensures faults == old(faults) + if raised then 1 else 0
    {
      var read: bool := *;
      if read {
        raised, ended := RunSections(run, s0);
      } else {
        Record(s0, View(), ReadFails(run), false);
        raised, ended := true, None;
      }
    }

    /** From the first locked section to the final update. */
    method RunSections(run: OpId, ghost s0: State) returns (raised: bool, ghost ended: Option<BodyEnd>)
      requires starter == None && In(View(), run, Spawned) && Reaches(s0, View())
      requires run in rows && run in cancelEvents
      modifies this
      ensures Reaches(s0, View()) && starter == None && gate.active == old(gate.active)
      ensures In(View(), run, if raised then Bookkeeping else Cleanup)
      ensures cancelEvents == old(cancelEvents)
      ensures run in rows && rows == old(rows)[run := old(rows)[run].(status := rows[run].status)]
      ensures !raised ==> (ended == None <==> cancelEvents[run])
      ensures !raised ==> rows[run].status == if ended == None then Cancelled else StatusOf(ended.value, false)
      ensures faults == old(faults) + if raised then 1 else 0
    {
      ended := None;
      var written := BeginRunSection(run, s0);
      if !written || cancelEvents[run] {
        return !written, None;
      }
      var result;
      ghost var how;
      written, result, how := FinishSection(run, s0);
      raised, ended := !written, Some(how);
    }

    /** cancel: the event is set before the row is updated, so a failed update still cancels. */
    method CancelRun(run: OpId)
      requires Inv(View()) && starter == None
      modifies this
      ensures Reaches(old(View()), View()) && Inv(View())
      ensures var cancellable := run in old(rows) && old(rows)[run].status in {Queued, Running};
        && rows == (if cancellable && faults == old(faults) then old(rows)[run := old(rows)[run].(status := Cancelling)]
                    else old(rows))
        && cancelEvents == if cancellable && run in old(cancelEvents)
             then old(cancelEvents)[run := true] else old(cancelEvents)
    {
      ghost var s0 := View();
      ReachesItself(s0);
      if run in rows && rows[run].status in {Queued, Running} {
        RequestCancel(run, s0);
        ReachesKeepsInv(s0, View());
      }
    }

    method RequestCancel(run: OpId, ghost s0: State)
      requires Reaches(s0, View()) && starter == None && run in rows && rows[run].status in {Queued, Running}
      modifies this
      ensures Reaches(s0, View())
      ensures rows == if faults == old(faults)
        then old(rows)[run := old(rows)[run].(status := Cancelling)] else old(rows)
      ensures cancelEvents == if run in old(cancelEvents) then old(cancelEvents)[run := true] else old(cancelEvents)
    {
      ghost var was := View();
      if run in cancelEvents {
        cancelEvents := cancelEvents[run := true];
      }
      var written: bool := *;
      if written {
        rows := rows[run := rows[run].(status := Cancelling)];
      }
      CancelEffect(was, run, written);
      Record(s0, was, Cancel(run, written), written);
    }

    /** The two flag updates of shutdown and its snapshot of the registered events. */
    method CloseToNewWork(ghost s0: State) returns (events: set<OpId>)
      requires Reaches(s0, View()) && starter == None
      modifies this, gate`accepting
      ensures Reaches(s0, View()) && !accepting && !gate.accepting
      ensures cancelEvents == old(cancelEvents) && events == cancelEvents.Keys
      ensures pending == old(pending) + events
    {
      ghost var was := View();
      gate.StopAccepting();
      Record(s0, was, StopGate);
      was := View();
      accepting := false;
      events := cancelEvents.Keys;
      Record(s0, was, LockedShutdown);
    }

    method SignalEvent(run: OpId, ghost s0: State)
      requires Reaches(s0, View()) && run in pending && run in cancelEvents
      modifies this
      ensures Reaches(s0, View()) && accepting == old(accepting)
      ensures cancelEvents == old(cancelEvents)[run := true] && pending == old(pending) - {run}
    {
      ghost var was := View();
      cancelEvents := cancelEvents[run := true];
      Record(s0, was, Signal(run));
    }

    /** shutdown, up to the joins. */
    method Shutdown()
      requires Inv(View()) && starter == None
      modifies this, gate`accepting
      ensures Reaches(old(View()), View()) && Inv(View())
      ensures !accepting && !gate.accepting && cancelEvents.Keys == old(cancelEvents.Keys)
      ensures forall r :: r in cancelEvents ==> cancelEvents[r]
    {
      ghost var s0 := View();
      ReachesItself(s0);
      var events := CloseToNewWork(s0);
      while events != {}
        invariant Reaches(s0, View()) && !accepting && !gate.accepting
        invariant events <= pending && events <= cancelEvents.Keys == old(cancelEvents.Keys)
        invariant forall r :: r in cancelEvents ==> cancelEvents[r] || r in events
        decreases |events|
      {
        var r :| r in events;
        SignalEvent(r, s0);
        events := events - {r};
      }
      ReachesKeepsInv(s0, View());
    }

    method StartAccepting()
      requires Inv(View()) && starter == None
      modifies this, gate`accepting
      ensures Reaches(old(View()), View()) && accepting && gate.accepting
    {
      ghost var s0 := View();
      ReachesItself(s0);
      accepting := true;
      Record(s0, s0, AcceptManager);
      ghost var was := View();
      gate.StartAccepting();
      Record(s0, was, AcceptGate);
    }
  }

  function ActiveRows(rows: map<OpId, Row>): set<OpId> {
    set r | r in rows && IsActive(rows[r].status)
  }

  /** _mark_interrupted_runs: one UPDATE for every row of the SELECT. */
  method MarkInterruptedRuns(rows: map<OpId, Row>) returns (marked: map<OpId, Row>)
    ensures marked == Reconciled(rows)
  {
    marked := rows;
    var selected := set r | r in rows && IsActive(rows[r].status);
    while selected != {}
      invariant selected <= ActiveRows(rows)
      invariant marked == map r | r in rows ::
        if IsActive(rows[r].status) && r !in selected then rows[r].(status := Failed) else rows[r]
      decreases |selected|
    {
      var r :| r in selected;
      marked := marked[r := marked[r].(status := Failed)];
      selected := selected - {r};
    }
  }

  /** reconcile_interrupted_runs: the count is of the rows it changed; a database error
      rolls everything back and reports none. */
  method ReconcileInterruptedRuns(rows: map<OpId, Row>)
    returns (table: map<OpId, Row>, count: nat, ghost broke: bool)
    ensures if broke then table == rows && count == 0 else table == Reconciled(rows) && count == |ActiveRows(rows)|
    ensures table.Keys == rows.Keys
    ensures forall r :: r in rows && !IsActive(rows[r].status) ==> table[r] == rows[r]
    ensures count > 0 ==> ActiveRows(table) == {}
  {
    table, count, broke := rows, 0, true;
    var connected: bool := *;
    if connected {
      var marked := MarkInterruptedRuns(rows);
      var committed: bool := *;
      broke := !committed;
      if committed {
        table, count := marked, |set r | r in rows && IsActive(rows[r].status)|;
      }
    }
  }
}
