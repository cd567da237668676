/**
 The daily occurrences of backend/maintenance_scheduler.py: a claim is a compare-and-set on
 the last scheduled date, made before the work starts.
 */
module Schedulers {
  import opened Wrappers

  type JobKey = string
  type Zone = string
  type Date = int       // ISO dates compare like the days they name
  type Time = int       // minutes of the day

  /** updated_at is text: a maintenance claim stamps microseconds, every other write whole seconds. */
  datatype Stamp = Seconds(second: int) | Micros(micro: int)

  // ---- Maintenance: one job over many cycles --------------------------------

  /** A row of maintenance_schedules. */
  datatype Schedule = Schedule(enabled: bool, runTime: Time, zone: Zone, lastDate: Option<Date>, updatedAt: Stamp)

  /** What UtilityRunManager.start did. StartedUnread: the worker runs, but reading its row
      back raised. Broken: it raised and nothing runs. */
  datatype StartResult = Started | StartedUnread | Refused | Broken

  /** One cycle for one job. `released` says that a release was tried and took effect. */
  datatype Outcome =
    | NotDue
    | SkippedDisabled
    | Tried(start: StartResult, released: bool)
    | ClaimFailed                          // a database error, or the row was stamped anew

  datatype Cycle = Cycle(date: Date, time: Time, defined: bool, runnable: bool, outcome: Outcome)

  predicate Due(s: Schedule, c: Cycle) {
    c.defined && s.enabled && s.runTime <= c.time && s.lastDate != Some(c.date)
  }

  /** Whether the job's worker was started in this cycle. */
  predicate StartsWork(c: Cycle) {
    c.outcome.Tried? && c.outcome.start in {Started, StartedUnread}
  }

  /** One pass of the loop body, up to the zone and the time stamps. */
  predicate Turn(s: Schedule, c: Cycle, t: Schedule) {
    && t.enabled == s.enabled && t.runTime == s.runTime
    && match c.outcome
       case NotDue => !Due(s, c) && t.lastDate == s.lastDate
       case ClaimFailed => Due(s, c) && t.lastDate == s.lastDate
       case SkippedDisabled => Due(s, c) && !c.runnable && t.lastDate == Some(c.date)
       case Tried(start, released) =>
         && Due(s, c) && c.runnable && (released ==> start != Started)
         && t.lastDate == if released then s.lastDate else Some(c.date)
  }

  /** A history: one more state than cycles, with local dates that never go back. */
  predicate History(states: seq<Schedule>, cycles: seq<Cycle>) {
    && |states| == |cycles| + 1
    && (forall i :: 0 <= i < |cycles| ==> Turn(states[i], cycles[i], states[i + 1]))
  }

  predicate NeverBack(cycles: seq<Cycle>) {
    forall i, k :: 0 <= i < k < |cycles| ==> cycles[i].date <= cycles[k].date
  }

  lemma {:induction false} ClaimHolds(states: seq<Schedule>, cycles: seq<Cycle>, i: nat, k: nat)
    requires History(states, cycles) && NeverBack(cycles) && i < k <= |cycles|
    requires StartsWork(cycles[i]) && !cycles[i].outcome.released
    ensures states[k].lastDate.Some? && cycles[i].date <= states[k].lastDate.value <= cycles[k - 1].date
  {
    if i + 1 < k {
      ClaimHolds(states, cycles, i, k - 1);
      assert Turn(states[k - 1], cycles[k - 1], states[k]);
    } else {
      assert Turn(states[i], cycles[i], states[k]);
    }
  }

  /** A job starts again on the same local date only if the claim of its first start was
      released, which takes a start whose row could not be read back. */
  lemma StartsOncePerDate(states: seq<Schedule>, cycles: seq<Cycle>, i: nat, k: nat)
    requires History(states, cycles) && NeverBack(cycles) && i < k < |cycles|
    requires StartsWork(cycles[i]) && StartsWork(cycles[k])
    ensures !cycles[i].outcome.released ==> cycles[i].date < cycles[k].date
    ensures cycles[i].outcome.released ==> cycles[i].outcome.start == StartedUnread
  {
    assert Turn(states[i], cycles[i], states[i + 1]) && Turn(states[k], cycles[k], states[k + 1]);
    if !cycles[i].outcome.released {
      ClaimHolds(states, cycles, i, k);
      assert cycles[k - 1].date <= cycles[k].date by { if k - 1 > i { assert cycles[k - 1].date <= cycles[k].date; } }
    }
  }

  /** After a cycle the job is due again at the same or a later time of that date exactly if its
      claim was refused or released: a gate conflict leaves the occurrence for the next poll. */
  lemma DueAgainIffReleased(s: Schedule, c: Cycle, t: Schedule, later: Cycle)
    requires Turn(s, c, t) && Due(s, c)
    requires later.date == c.date && later.time >= c.time && later.defined
    ensures Due(t, later) <==> c.outcome.ClaimFailed? || (c.outcome.Tried? && c.outcome.released)
  {
  }

  /** Both conditions of StartsOncePerDate are needed: a database error while the started run
      is read back, or a local date that goes back, starts a job twice on one date. */
  lemma StartedTwice()
    ensures exists states: seq<Schedule>, cycles: seq<Cycle> ::
      History(states, cycles) && NeverBack(cycles) && |cycles| == 2
      && StartsWork(cycles[0]) && StartsWork(cycles[1]) && cycles[0].date == cycles[1].date
    ensures exists states: seq<Schedule>, cycles: seq<Cycle> ::
      History(states, cycles) && |cycles| == 3 && (forall c :: c in cycles ==> c.outcome == Tried(Started, false))
      && cycles[0].date == cycles[2].date
  {
    var s := Schedule(true, 120, "", None, Seconds(0));
    var unread := Cycle(7, 130, true, true, Tried(StartedUnread, true));
    var again := Cycle(7, 131, true, true, Tried(Started, false));
    assert History([s, s, s.(lastDate := Some(7))], [unread, again]);
    assert NeverBack([unread, again]) && StartsWork([unread, again][0]) && StartsWork([unread, again][1]);

    var forth := Cycle(8, 131, true, true, Tried(Started, false));
    var x, y := s.(lastDate := Some(7)), s.(lastDate := Some(8));
    var cycles := [again, forth, again];
    assert History([s, x, y, x], cycles);
    assert forall c :: c in cycles ==> c.outcome == Tried(Started, false);
    assert cycles[0].date == cycles[2].date;
  }

  // ---- Maintenance: the statements ------------------------------------------

  /** A save of the email settings moves every schedule to its time zone and stamps the rows it moves. */
  datatype ZoneSave = ZoneSave(zone: Zone, at: int)

  function Rezoned(row: Schedule, save: ZoneSave): Schedule {
    if row.zone == save.zone then row else row.(zone := save.zone, updatedAt := Seconds(save.at))
  }

  function Resaved(row: Schedule, saves: seq<ZoneSave>): Schedule
    decreases |saves|
  {
    if saves == [] then row else Resaved(Rezoned(row, saves[0]), saves[1..])
  }

  predicate KeepZone(zone: Zone, saves: seq<ZoneSave>) {
    forall k :: 0 <= k < |saves| ==> saves[k].zone == zone
  }

  /** Equal except for what a settings save may change. */
  predicate SameButZone(s: Schedule, t: Schedule) {
    t == s.(zone := t.zone, updatedAt := t.updatedAt)
  }

  lemma TurnIgnoresZone(s: Schedule, c: Cycle, t: Schedule, u: Schedule)
    requires Turn(s, c, t) && SameButZone(t, u)
    ensures Turn(s, c, u)
  {
  }

  lemma SameTurns(s: Schedule, t: Schedule, c: Cycle, u: Schedule)
    requires SameButZone(s, t) && Turn(t, c, u)
    ensures Turn(s, c, u)
  {
  }

  lemma {:induction false} ResavedExactly(row: Schedule, saves: seq<ZoneSave>)
    ensures SameButZone(row, Resaved(row, saves))
    ensures KeepZone(row.zone, saves) ==> Resaved(row, saves) == row
    ensures !KeepZone(row.zone, saves) ==> Resaved(row, saves).updatedAt.Seconds?
    decreases |saves|
  {
    if saves != [] {
      var save := saves[0];
      var next := Rezoned(row, save);
      ResavedExactly(next, saves[1..]);
      if KeepZone(row.zone, saves) {
        assert KeepZone(row.zone, saves[1..]);
      } else if KeepZone(next.zone, saves[1..]) && save.zone == row.zone {
        forall k | 0 <= k < |saves|
          ensures saves[k].zone == row.zone
        {
          assert k > 0 ==> saves[k] == saves[1..][k - 1];
        }
      }
    }
  }

  lemma {:induction false} ResavedConcat(row: Schedule, a: seq<ZoneSave>, b: seq<ZoneSave>)
    ensures Resaved(row, a + b) == Resaved(Resaved(row, a), b)
    decreases |a|
  {
    if a == [] {
      assert a + b == b;
    } else {
      assert (a + b)[1..] == a[1..] + b;
      ResavedConcat(Rezoned(row, a[0]), a[1..], b);
    }
  }

  /** The row a claim leaves behind, if the conditional UPDATE matches. */
  function ClaimedRow(row: Schedule, observed: Schedule, date: Date, marker: int): (claimed: Option<Schedule>)
    ensures claimed.Some? <==> row == observed && row.enabled && row.lastDate != Some(date)
  {
    if row.enabled && row.lastDate == observed.lastDate && row.lastDate != Some(date)
       && row.runTime == observed.runTime && row.zone == observed.zone && row.updatedAt == observed.updatedAt
       && observed.enabled
    then Some(row.(lastDate := Some(date), updatedAt := Micros(marker)))
    else None
  }

  /** The row a release leaves behind, if the conditional UPDATE matches. */
  function ReleasedRow(row: Schedule, date: Date, previous: Option<Date>, marker: int, now: int): Option<Schedule> {
    if row.enabled && row.lastDate == Some(date) && row.updatedAt == Micros(marker)
    then Some(row.(lastDate := previous, updatedAt := Seconds(now)))
    else None
  }

  /** The row after a refused start: other threads save settings, and then the release runs to its
      end or does not, because of a database error or because the process ends. */
  function AfterRefusal(
    row: Schedule, date: Date, marker: int, saves: seq<ZoneSave>, ran: bool, now: int): Schedule
    requires ClaimedRow(row, row, date, marker).Some?
  {
    var resaved := Resaved(ClaimedRow(row, row, date, marker).value, saves);
    var released := ReleasedRow(resaved, date, row.lastDate, marker, now);
    if ran && released.Some? then released.value else resaved
  }

  /** A refused start gives its occurrence back exactly if the release ran and no settings save
      moved the schedule to another time zone since the claim; otherwise the occurrence of that
      date is lost. The save itself holds the gate and so can be what the start was refused for. */
  lemma RefusedIsDueAgainIff(
    row: Schedule, date: Date, marker: int, saves: seq<ZoneSave>, ran: bool, now: int, later: Cycle)
    requires row.enabled && row.lastDate != Some(date)
    requires later.defined && later.date == date && later.time >= row.runTime
    ensures Due(AfterRefusal(row, date, marker, saves, ran, now), later) <==> ran && KeepZone(row.zone, saves)
  {
    ResavedExactly(ClaimedRow(row, row, date, marker).value, saves);
  }

  /** Both losses: one save between the claim and the release, and no save but no release. */
  lemma RefusedAndLost(row: Schedule, date: Date, marker: int, now: int, zone: Zone, later: Cycle)
    requires row.enabled && row.lastDate != Some(date) && zone != row.zone
    requires later.defined && later.date == date && later.time >= row.runTime
    ensures !Due(AfterRefusal(row, date, marker, [ZoneSave(zone, now)], true, now), later)
    ensures !Due(AfterRefusal(row, date, marker, [], false, now), later)
  {
    assert [ZoneSave(zone, now)][0].zone != row.zone;
    RefusedIsDueAgainIff(row, date, marker, [ZoneSave(zone, now)], true, now, later);
    RefusedIsDueAgainIff(row, date, marker, [], false, now, later);
  }

  // ---- Maintenance: the scheduler -------------------------------------------

  /** A registry entry: whether the job may run now. */
  datatype Definition = Definition(runnable: bool)

  /** A cycle is at the listed job's local time and about its registry entry. */
  predicate CycleOf(job: JobKey, registry: map<JobKey, Definition>, local: (Date, Time), cycle: Cycle) {
    && cycle.date == local.0 && cycle.time == local.1
    && cycle.defined == (job in registry) && (job in registry ==> cycle.runnable == registry[job].runnable)
  }

  /** What an exception has to do with the outcome of a cycle. */
  predicate RaisedBy(cycle: Cycle, raised: bool) {
    && (cycle.outcome.NotDue? ==> !raised)
    && (cycle.outcome.Tried? && cycle.outcome.start == Started ==> !raised)
    && (cycle.outcome.Tried? && cycle.outcome.start in {StartedUnread, Broken} ==> raised)
  }

  /** No turn but the last has raised, and the last has exactly if all of it ended so. */
  predicate EndedBy(cycles: seq<Cycle>, raises: seq<bool>, raised: bool) {
    && |raises| == |cycles| && (forall k :: 0 <= k < |cycles| ==> RaisedBy(cycles[k], raises[k]))
    && (forall k :: 0 <= k < |raises| - 1 ==> !raises[k])
    && (raised <==> raises != [] && raises[|raises| - 1])
  }

  lemma EndedByNext(cycles: seq<Cycle>, raises: seq<bool>, cycle: Cycle, raised: bool)
    requires EndedBy(cycles, raises, false) && RaisedBy(cycle, raised)
    ensures EndedBy(cycles + [cycle], raises + [raised], raised)
  {
  }

  /** A listed job has had its turn. */
  predicate Served(
    job: JobKey, registry: map<JobKey, Definition>, local: (Date, Time),
    before: Schedule, cycle: Cycle, after: Schedule)
  {
    Turn(before, cycle, after) && CycleOf(job, registry, local, cycle)
  }

  /** The first jobs have had their turns; the other rows were changed by settings saves only. */
  ghost predicate Progress(
    order: seq<JobKey>, registry: map<JobKey, Definition>, local: map<JobKey, (Date, Time)>,
    listed: map<JobKey, Schedule>, now: map<JobKey, Schedule>, cycles: seq<Cycle>)
  {
    && (forall k :: 0 <= k < |order| ==> order[k] in listed && order[k] in local)
    && now.Keys == listed.Keys && |cycles| <= |order|
    && (forall k :: 0 <= k < |cycles| ==>
          Served(order[k], registry, local[order[k]], listed[order[k]], cycles[k], now[order[k]]))
    && (forall j :: j in now && j !in order[..|cycles|] ==> SameButZone(listed[j], now[j]))
  }

  lemma ProgressNext(
    order: seq<JobKey>, registry: map<JobKey, Definition>, local: map<JobKey, (Date, Time)>,
    listed: map<JobKey, Schedule>, was: map<JobKey, Schedule>, now: map<JobKey, Schedule>, cycles: seq<Cycle>,
    cycle: Cycle)
    requires forall i, k :: 0 <= i < k < |order| ==> order[i] != order[k]
    requires Progress(order, registry, local, listed, was, cycles) && |cycles| < |order|
    requires now.Keys == was.Keys
    requires var job := order[|cycles|];
      && (forall j :: j in now && j != job ==> SameButZone(was[j], now[j]))
      && Served(job, registry, local[job], listed[job], cycle, now[job])
    ensures Progress(order, registry, local, listed, now, cycles + [cycle])
  {
    var n := |cycles|;
    forall k | 0 <= k < n
      ensures Served(order[k], registry, local[order[k]], listed[order[k]], cycles[k], now[order[k]])
    {
      TurnIgnoresZone(listed[order[k]], cycles[k], was[order[k]], now[order[k]]);
    }
    forall j | j in now && j !in order[..n + 1]
      ensures SameButZone(listed[j], now[j])
    {
      assert order[..n + 1] == order[..n] + [order[n]];
    }
  }

  class MaintenanceScheduler {
    var schedules: map<JobKey, Schedule>

    constructor (schedules: map<JobKey, Schedule>)
      ensures this.schedules == schedules
    {
      this.schedules := schedules;
    }

    /** Email settings saves by other threads: they do not take the schedule lock. */
    method OthersSave() returns (ghost saves: seq<ZoneSave>)
      modifies this
      ensures schedules.Keys == old(schedules).Keys
      ensures forall j :: j in schedules ==> schedules[j] == Resaved(old(schedules)[j], saves)
    {
      var left: nat := *;
      saves := [];
      while left > 0
        invariant schedules.Keys == old(schedules).Keys
        invariant forall j :: j in schedules ==> schedules[j] == Resaved(old(schedules)[j], saves)
      {
        var save: ZoneSave := *;
        schedules := map j | j in schedules :: Rezoned(schedules[j], save);
        forall j | j in schedules
          ensures schedules[j] == Resaved(old(schedules)[j], saves + [save])
        {
          ResavedConcat(old(schedules)[j], saves, [save]);
        }
        saves := saves + [save];
        left := left - 1;
      }
    }

    /** _claim_occurrence: one conditional UPDATE. None is a database error. */
    method Claim(job: JobKey, date: Date, observed: Schedule, marker: int)
      returns (claimed: Option<bool>, ghost broke: bool)
      requires job in schedules && observed.enabled
      modifies this
      ensures claimed == None <==> broke
      ensures claimed.Some? ==> (claimed.value <==> old(schedules)[job] == observed && observed.lastDate != Some(date))
      ensures schedules == if claimed == Some(true)
        then old(schedules)[job := old(schedules)[job].(lastDate := Some(date), updatedAt := Micros(marker))]
        else old(schedules)
    {
      var fails: bool := *;
      broke := fails;
      if fails {
        return None, broke;
      }
      var row := ClaimedRow(schedules[job], observed, date, marker);
      if row.None? {
        return Some(false), broke;
      }
      schedules := schedules[job := row.value];
      return Some(true), broke;
    }

    /** _release_occurrence: undoes exactly the claim that carries the marker. None is a database error. */
    method Release(job: JobKey, date: Date, previous: Option<Date>, marker: int, now: int)
      returns (released: Option<bool>, ghost broke: bool)
      requires job in schedules
      modifies this
      ensures released == None <==> broke
      ensures released.Some? ==> (released.value <==>
        old(schedules)[job].enabled && old(schedules)[job].lastDate == Some(date)
        && old(schedules)[job].updatedAt == Micros(marker))
      ensures schedules == if released == Some(true)
        then old(schedules)[job := old(schedules)[job].(lastDate := previous, updatedAt := Seconds(now))]
        else old(schedules)
    {
      var fails: bool := *;
      broke := fails;
      if fails {
        return None, broke;
      }
      var row := ReleasedRow(schedules[job], date, previous, marker, now);
      if row.None? {
        return Some(false), broke;
      }
      schedules := schedules[job := row.value];
      return Some(true), broke;
    }

    /** The loop body of _run_due_once_locked for one listed job. `before` and `during` are the
        settings saves between the listing and the claim and between the claim and the release;
        `ran` says that a release was tried and met no database error, `broke` that it or the claim met
        one. */
    method RunJob(job: JobKey, observed: Schedule, definition: Option<Definition>, date: Date, time: Time, marker: int)
      returns (
        cycle: Cycle, raised: bool, ghost before: seq<ZoneSave>, ghost during: seq<ZoneSave>, ghost ran: bool,
        ghost broke: bool)
      requires job in schedules && SameButZone(observed, schedules[job])
      modifies this
      ensures schedules.Keys == old(schedules).Keys
      ensures forall j :: j in schedules && j != job ==> SameButZone(old(schedules)[j], schedules[j])
      ensures cycle.date == date && cycle.time == time
      ensures cycle.defined == definition.Some? && (definition.Some? ==> cycle.runnable == definition.value.runnable)
      ensures Turn(old(schedules)[job], cycle, schedules[job])
      ensures cycle.outcome.NotDue? <==>
        definition == None || !observed.enabled || time < observed.runTime || observed.lastDate == Some(date)
      ensures cycle.outcome.SkippedDisabled? ==> !definition.value.runnable
      ensures cycle.outcome.Tried? ==> definition.value.runnable
      // The claim takes the listed row and no other.
      ensures cycle.outcome.SkippedDisabled? || cycle.outcome.Tried? ==>
        Resaved(old(schedules)[job], before) == observed
      ensures cycle.outcome.ClaimFailed? && !raised ==> Resaved(old(schedules)[job], before) != observed
      ensures cycle.outcome.ClaimFailed? ==> raised == broke
      ensures cycle.outcome.NotDue? ==> !raised && before == []
      // A claim is given back exactly if the release ran and no save has moved the zone since.
      ensures cycle.outcome.Tried? ==> (cycle.outcome.released <==> ran && KeepZone(observed.zone, during))
      ensures cycle.outcome.Tried? && cycle.outcome.start == Started ==> !ran && !raised
      // Every other start is followed by a release.
      ensures cycle.outcome.Tried? && cycle.outcome.start != Started ==> ran == !broke && (broke ==> raised)
      ensures cycle.outcome.Tried? && cycle.outcome.start in {StartedUnread, Broken} ==> raised
    {
      before, during, ran, broke := [], [], false, false;
      cycle := Cycle(date, time, definition.Some?, definition.Some? && definition.value.runnable, NotDue);
      if definition.None? || !observed.enabled || time < observed.runTime || observed.lastDate == Some(date) {
        return cycle, false, [], [], false, false;
      }
      before := OthersSave();
      ghost var listed := old(schedules);
      forall j | j in listed
        ensures SameButZone(listed[j], schedules[j])
      {
        ResavedExactly(listed[j], before);
      }
      var claimed;
      claimed, broke := Claim(job, date, observed, marker);
      if claimed != Some(true) {
        return cycle.(outcome := ClaimFailed), claimed.None?, before, [], false, broke;
      }
      if !definition.value.runnable {
        raised := *;       // recording the skipped run may fail
        return cycle.(outcome := SkippedDisabled), raised, before, [], false, false;
      }
      var start: StartResult := *;
      ghost var held := schedules;
      during := OthersSave();
      forall j | j in held
        ensures SameButZone(held[j], schedules[j])
        ensures KeepZone(held[j].zone, during) ==> schedules[j] == held[j]
        ensures !KeepZone(held[j].zone, during) ==> schedules[j].updatedAt.Seconds?
      {
        ResavedExactly(held[j], during);
      }
      if start == Started {
        return cycle.(outcome := Tried(start, false)), false, before, during, false, false;
      }
      var now: int := *;
      var released;
      released, broke := Release(job, date, observed.lastDate, marker, now);
      raised := *;         // recording the skipped run may fail
      raised := raised || released.None? || start != Refused;
      cycle := cycle.(outcome := Tried(start, released == Some(true)));
      return cycle, raised, before, during, released.Some?, broke;
    }

    /** The loop body for a listed job and its registry entry, if it has one. */
    method RunListed(
      job: JobKey, observed: Schedule, registry: map<JobKey, Definition>, local: (Date, Time), marker: int)
      returns (cycle: Cycle, raised: bool)
      requires job in schedules && SameButZone(observed, schedules[job])
      modifies this
      ensures schedules.Keys == old(schedules).Keys
      ensures forall j :: j in schedules && j != job ==> SameButZone(old(schedules)[j], schedules[j])
      ensures Served(job, registry, local, observed, cycle, schedules[job]) && RaisedBy(cycle, raised)
    {
      var definition := if job in registry then Some(registry[job]) else None;
      ghost var before, during, ran, broke;
      cycle, raised, before, during, ran, broke := RunJob(job, observed, definition, local.0, local.1, marker);
      SameTurns(observed, old(schedules)[job], cycle, schedules[job]);
    }

    /** _run_due_once_locked, over the rows that list_schedules read, in its order. `local` is the
        wall clock of the listed zones. An exception ends the cycle. */
    method RunDueOnce(
      order: seq<JobKey>, registry: map<JobKey, Definition>, local: map<JobKey, (Date, Time)>, marker: int)
      returns (cycles: seq<Cycle>, raised: bool, ghost raises: seq<bool>)
      requires forall k :: 0 <= k < |order| ==> order[k] in schedules && order[k] in local
      requires forall i, k :: 0 <= i < k < |order| ==> order[i] != order[k]
      modifies this
      ensures schedules.Keys == old(schedules).Keys && |cycles| <= |order| && (!raised ==> |cycles| == |order|)
      ensures forall k :: 0 <= k < |cycles| ==>
        Served(order[k], registry, local[order[k]], old(schedules)[order[k]], cycles[k], schedules[order[k]])
      ensures forall j :: j in schedules && j !in order[..|cycles|] ==> SameButZone(old(schedules)[j], schedules[j])
      // Only the last turn can have raised, and then the cycle has.
      ensures EndedBy(cycles, raises, raised)
    {
      var listed := schedules;
      cycles, raises := [], [];
      for n := 0 to |order|
        invariant EndedBy(cycles, raises, false)
        invariant |cycles| == n && Progress(order, registry, local, listed, schedules, cycles)
      {
        ghost var was := schedules;
        var cycle;
        cycle, raised := RunListed(order[n], listed[order[n]], registry, local[order[n]], marker);
        ProgressNext(order, registry, local, listed, was, schedules, cycles, cycle);
        EndedByNext(cycles, raises, cycle, raised);
        cycles, raises := cycles + [cycle], raises + [raised];
        if raised {
          return;
        }
      }
      raised := false;
    }
  }
}
