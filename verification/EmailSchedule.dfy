/**
 The daily digest of backend/email_scheduler.py and the writes of backend/email_service.py to
 its settings: an occurrence is claimed, and the digest sent, under one lease of the gate.
 */
module EmailSchedule {
  import opened Wrappers
  import opened OperationGate
  import DigestLedger
  import RunProtocol

  type Zone = string
  type Date = int       // ISO dates compare like the days they name
  type Time = int       // minutes of the day

  // ---- The settings over a run ----------------------------------------------

  datatype LocalTime = LocalTime(date: Date, weekday: int, time: Time)

  datatype EmailSettings =
    EmailSettings(enabled: bool, zone: Zone, days: set<int>, time: Time, lastDate: Option<Date>, updatedAt: int)

  /** due_occurrence; `local` is None for an unknown time zone. */
  function DueOccurrence(settings: EmailSettings, local: Option<LocalTime>): Option<Date> {
    if !settings.enabled || local.None? then None
    else
      var now := local.value;
      if now.weekday !in settings.days || now.time < settings.time || settings.lastDate == Some(now.date) then None
      else Some(now.date)
  }

  /** The schedule part of what save_settings is given, merged with what was stored. */
  datatype Payload = Payload(enabled: bool, zone: Zone, days: set<int>, time: Time)

  /** A write to the row of email_settings: a claim, a save at a local time, or the new stamp of a
      recorded digest. */
  datatype Event = Claimed(date: Date, at: int) | Saved(payload: Payload, now: LocalTime, at: int) | Stamped(at: int)

  /** Enabling a schedule after today's time passes today's occurrence over. */
  predicate PassesOver(s: EmailSettings, payload: Payload, now: LocalTime) {
    payload.enabled && !s.enabled && now.weekday in payload.days && payload.time <= now.time
  }

  function Apply(s: EmailSettings, e: Event): EmailSettings {
    match e
    case Claimed(date, at) => s.(lastDate := Some(date), updatedAt := at)
    case Stamped(at) => s.(updatedAt := at)
    case Saved(payload, now, at) =>
      var lastDate := if PassesOver(s, payload, now) then Some(now.date) else s.lastDate;
      EmailSettings(payload.enabled, payload.zone, payload.days, payload.time, lastDate, at)
  }

  /** The date that a write puts into the row, if any. */
  function Dates(s: EmailSettings, e: Event): Option<Date> {
    match e
    case Claimed(date, _) => Some(date)
    case Stamped(_) => None
    case Saved(payload, now, _) => if PassesOver(s, payload, now) then Some(now.date) else None
  }

  /** The date that write `a` of a run puts into the row. */
  function DateAt(s: EmailSettings, log: seq<Event>, a: nat): Option<Date>
    requires a < |log|
  {
    Dates(After(s, log[..a]), log[a])
  }

  function After(s: EmailSettings, log: seq<Event>): EmailSettings {
    if log == [] then s else Apply(After(s, log[..|log| - 1]), log[|log| - 1])
  }

  /** A claim needs an enabled schedule with another last date. */
  predicate CanHappen(s: EmailSettings, log: seq<Event>) {
    log == [] ||
    var before := log[..|log| - 1];
    && CanHappen(s, before)
    && match log[|log| - 1]
       case Claimed(date, _) => After(s, before).enabled && After(s, before).lastDate != Some(date)
       case _ => true
  }

  lemma {:induction false} CouldHappen(s: EmailSettings, log: seq<Event>, k: nat)
    requires CanHappen(s, log) && k <= |log|
    ensures CanHappen(s, log[..k])
  {
    if k == |log| {
      assert log[..k] == log;
    } else {
      var before := log[..|log| - 1];
      CouldHappen(s, before, k);
      assert before[..k] == log[..k];
    }
  }

  /** The last date is the one that was written last. */
  lemma {:induction false} LastWritten(s: EmailSettings, log: seq<Event>, i: nat, k: nat)
    requires i < k <= |log| && DateAt(s, log, i).Some?
    ensures exists a: nat :: i <= a < k && After(s, log[..k]).lastDate == DateAt(s, log, a) && DateAt(s, log, a).Some?
  {
    var n := k - 1;
    assert log[..k][..n] == log[..n];
    if DateAt(s, log, n).None? {
      LastWritten(s, log, i, n);
    }
  }

  /** Write `a` of a run is the last one that puts a date into the row. */
  ghost predicate WritesLast(s: EmailSettings, log: seq<Event>, a: nat) {
    a < |log| && DateAt(s, log, a).Some? && forall b: nat :: a < b < |log| ==> DateAt(s, log, b).None?
  }

  ghost predicate WritesNone(s: EmailSettings, log: seq<Event>) {
    forall a: nat :: a < |log| ==> DateAt(s, log, a).None?
  }

  /** The date written last in a run, or the one before the run. */
  ghost predicate LastDateIs(s: EmailSettings, log: seq<Event>, date: Date) {
    || (WritesNone(s, log) && s.lastDate == Some(date))
    || exists a: nat :: WritesLast(s, log, a) && DateAt(s, log, a) == Some(date)
  }

  lemma {:induction false} LastWriter(s: EmailSettings, log: seq<Event>) returns (a: nat)
    ensures if WritesNone(s, log) then After(s, log).lastDate == s.lastDate
      else WritesLast(s, log, a) && After(s, log).lastDate == DateAt(s, log, a)
    decreases |log|
  {
    a := 0;
    if log != [] {
      var n := |log| - 1;
      var before := log[..n];
      a := LastWriter(s, before);
      assert forall b: nat :: b < n ==> before[..b] == log[..b];
      assert forall b: nat :: b < n ==> DateAt(s, before, b) == DateAt(s, log, b);
      if DateAt(s, log, n).Some? {
        a := n;
      }
    }
  }

  lemma LastDateExactly(s: EmailSettings, log: seq<Event>, date: Date)
    ensures After(s, log).lastDate == Some(date) <==> LastDateIs(s, log, date)
  {
    var a := LastWriter(s, log);
    if c: nat :| WritesLast(s, log, c) && !WritesNone(s, log) {
      assert a == c;
    }
  }

  /** After any run of claims, saves and stamps an occurrence is due exactly on an enabled weekday,
      once its time is reached, if the date written last is not today's. */
  lemma DueExactly(s: EmailSettings, log: seq<Event>, now: LocalTime)
    ensures var after := After(s, log);
      DueOccurrence(after, Some(now)) ==
        if after.enabled && now.weekday in after.days && after.time <= now.time && !LastDateIs(s, log, now.date)
        then Some(now.date) else None
  {
    LastDateExactly(s, log, now.date);
  }

  /** A date is claimed a second time only if another date was written in between. */
  lemma ClaimedAgain(s: EmailSettings, log: seq<Event>, i: nat, k: nat)
    requires CanHappen(s, log) && i < k < |log| && log[i].Claimed? && log[k].Claimed?
    ensures exists a: nat :: i <= a < k && DateAt(s, log, a).Some? && DateAt(s, log, a) != Some(log[k].date)
  {
    LastWritten(s, log, i, k);
    CouldHappen(s, log, k + 1);
    assert log[..k + 1][..k] == log[..k];
  }

  predicate WallNeverBack(s: EmailSettings, log: seq<Event>) {
    forall a: nat, b: nat :: a < b < |log| && DateAt(s, log, a).Some? && DateAt(s, log, b).Some? ==>
      DateAt(s, log, a).value <= DateAt(s, log, b).value
  }

  /** The digest of a local date is claimed at most once, whatever saves come in between, while
      the local date does not go back. */
  lemma DigestOncePerDate(s: EmailSettings, log: seq<Event>, i: nat, k: nat)
    requires CanHappen(s, log) && i < k < |log| && log[i].Claimed? && log[k].Claimed? && WallNeverBack(s, log)
    ensures log[i].date < log[k].date
  {
    ClaimedAgain(s, log, i, k);
    var a: nat :| i <= a < k && DateAt(s, log, a).Some? && DateAt(s, log, a) != Some(log[k].date);
    assert DateAt(s, log, k) == Some(log[k].date) && DateAt(s, log, i) == Some(log[i].date);
    assert DateAt(s, log, i).value <= DateAt(s, log, a).value <= DateAt(s, log, k).value;
  }

  /** Moving the schedule to a zone where it is still yesterday claims a date twice. */
  lemma ClaimedTwice()
    ensures exists s: EmailSettings, log: seq<Event> ::
      && CanHappen(s, log) && |log| == 4 && log[0] == log[3] == Claimed(8, 0)
      && log[1].Saved? && log[1].payload.zone != s.zone && log[2] == Claimed(7, 0)
  {
    var s := EmailSettings(true, "Asia/Tokyo", {0, 1}, 60, None, 0);
    var moved := Saved(Payload(true, "America/Denver", {0, 1}, 60), LocalTime(7, 0, 90), 0);
    var a, b, c, d := [Claimed(8, 0)], [Claimed(8, 0), moved], [Claimed(8, 0), moved, Claimed(7, 0)],
      [Claimed(8, 0), moved, Claimed(7, 0), Claimed(8, 0)];
    assert d[..3] == c && c[..2] == b && b[..1] == a && a[..0] == [];
    assert CanHappen(s, a) && CanHappen(s, b);
    assert After(s, b).lastDate == Some(8) && After(s, b).enabled;
    assert CanHappen(s, c) && After(s, c).lastDate == Some(7) && After(s, c).enabled;
    assert CanHappen(s, d);
  }

  // ---- The scheduler --------------------------------------------------------

  datatype DigestOutcome =
    | Idle                                         // nothing due
    | WaitingForRefresh
    | ClaimError                                   // a database error
    | Digest(date: Date, result: DigestLedger.Result, databaseError: bool)

  datatype SaveResult = Conflict | Rejected | WriteFailed | Stored

  /** The scheduler, the settings endpoint and the rest of the process, which share the gate. */
  class EmailScheduler {
    const gate: MutationGate
    const ledger: DigestLedger.EmailLedger
    const local: (Zone, int) -> Option<LocalTime>   // the wall clock of a time zone at an instant
    var settings: EmailSettings                     // the row of email_settings
    var jobs: map<DigestLedger.Key, DigestLedger.Job>   // the open jobs
    ghost const initial: EmailSettings
    ghost var log: seq<Event>                       // every write to the settings since the start

    ghost predicate Valid()
      reads this, ledger
    {
      ledger.Valid() && CanHappen(initial, log) && settings == After(initial, log)
    }

    constructor (
      gate: MutationGate, ledger: DigestLedger.EmailLedger, local: (Zone, int) -> Option<LocalTime>,
      settings: EmailSettings, jobs: map<DigestLedger.Key, DigestLedger.Job>)
      requires ledger.Valid()
      ensures this.gate == gate && this.ledger == ledger && this.local == local
      ensures this.settings == initial == settings && this.jobs == jobs && log == [] && Valid()
    {
      this.gate, this.ledger, this.local, this.settings, this.jobs := gate, ledger, local, settings, jobs;
      initial, log := settings, [];
    }

    /** One write to the settings. */
    method Write(e: Event)
      requires Valid() && (e.Claimed? ==> settings.enabled && settings.lastDate != Some(e.date))
      modifies this`settings, this`log
      ensures Valid() && settings == Apply(old(settings), e) && log == old(log) + [e]
    {
      assert (log + [e])[..|log|] == log;
      settings, log := Apply(settings, e), log + [e];
    }

    /** A step of another thread, working as operation `who`. Jobs, settings and the ledger are
        changed only by the operation that holds the gate, as in every mutating endpoint and run. */
    method OtherStep(who: RunProtocol.OpId, id: string)
      requires Valid() && id !in ledger.digests
      modifies this, ledger, gate
      ensures Valid() && id !in ledger.digests && old(log) <= log
      ensures old(gate.active) !in {None, Some(who)} ==>
        unchanged(this) && unchanged(ledger) && gate.active == old(gate.active)
      ensures gate.active in {old(gate.active), None, Some(who)}
    {
      var choice: int := *;
      var other: string, now: int, flag: bool := *, *, *;
      if choice == 0 {
        var lease := gate.Acquire(who);
      } else if choice == 1 {
        gate.Release(who);
      } else if choice == 2 {
        gate.accepting := flag;
      } else if gate.active == Some(who) {
        if choice == 3 {
          jobs := *;
        } else if choice == 4 {
          var payload: Payload, wall: LocalTime := *, *;
          Write(Saved(payload, wall, now));
        } else if other != id && other !in ledger.digests {
          var result, databaseError, mail, told := ledger.SendJobDigest(other, false, settings.enabled, flag, jobs);
          if DigestLedger.Recorded(result, databaseError) {
            Write(Stamped(now));
          }
        }
      }
    }

    /** What other threads do between two statements of the operation `mine`. */
    method OthersAct(mine: RunProtocol.OpId, id: string)
      requires Valid() && id !in ledger.digests
      modifies this, ledger, gate
      ensures Valid() && id !in ledger.digests && old(log) <= log
      ensures old(gate.active) == Some(mine) ==> unchanged(this) && unchanged(ledger) && gate.active == Some(mine)
      ensures old(gate.active) != Some(mine) ==> gate.active != Some(mine)
    {
      var left: nat := *;
      while left > 0
        invariant Valid() && id !in ledger.digests && old(log) <= log
        invariant old(gate.active) == Some(mine) ==> unchanged(this) && unchanged(ledger) && gate.active == Some(mine)
        invariant old(gate.active) != Some(mine) ==> gate.active != Some(mine)
      {
        var who: RunProtocol.OpId := *;
        if who != mine {
          OtherStep(who, id);
        }
        left := left - 1;
      }
    }

    /** save_settings behind its endpoint: the row is read, checked and written back while the
        endpoint holds the gate, so the checkpoint it writes back is the one that is stored.
        `refused` says that a column outside the schedule was, `broke` that the write failed. */
    method SaveSettings(payload: Payload, now: int, operation: RunProtocol.OpId, id: string)
      returns (result: SaveResult, ghost refused: bool, ghost broke: bool)
      requires Valid() && id !in ledger.digests
      modifies this, ledger, gate
      ensures Valid() && unchanged(ledger) && unchanged(this`jobs)
      ensures result == Conflict <==> !(old(gate.accepting) && old(gate.active) == None)
      ensures result != Conflict ==>
        (result == Rejected <==> refused || local(payload.zone, now) == None || (payload.enabled && payload.days == {}))
      ensures result in {WriteFailed, Stored} ==> (result == WriteFailed <==> broke)
      ensures result == Conflict ==> gate.active == old(gate.active)
      ensures result != Conflict ==> gate.active == None
      ensures result == Stored ==>
        && local(payload.zone, now).Some? && (payload.enabled ==> payload.days != {})
        && log == old(log) + [Saved(payload, local(payload.zone, now).value, now)]
      // A save makes an occurrence due at once exactly if the schedule was enabled before.
      ensures result == Stored ==>
        && (settings.enabled, settings.zone, settings.days, settings.time)
           == (payload.enabled, payload.zone, payload.days, payload.time)
        && var wall := local(payload.zone, now).value;
           settings.lastDate ==
             if !old(settings).enabled && payload.enabled && wall.weekday in payload.days && payload.time <= wall.time
             then Some(wall.date) else old(settings).lastDate
      ensures result == Stored ==>
        && (DueOccurrence(settings, local(settings.zone, now)).Some? <==>
              old(settings).enabled
              && DueOccurrence(settings.(lastDate := old(settings).lastDate), local(settings.zone, now)).Some?)
      ensures result != Stored ==> unchanged(this)
    {
      var lease := gate.Acquire(operation);
      if lease == null {
        return Conflict, false, false;
      }
      var checkpointRead := ledger.checkpointEstablished;
      OthersAct(operation, id);
      var zone := local(payload.zone, now);
      var unfit: bool := *;               // the port, the addresses, the time, no recipient
      refused, broke := unfit, false;
      if unfit || zone.None? || (payload.enabled && payload.days == {}) {
        lease.Release();
        return Rejected, refused, false;
      }
      OthersAct(operation, id);
      var fails: bool := *;
      if fails {
        lease.Release();
        return WriteFailed, refused, true;
      }
      ledger.checkpointEstablished := checkpointRead;
      Write(Saved(payload, zone.value, now));
      lease.Release();
      return Stored, refused, false;
    }

    /** claim_scheduled_occurrence: one conditional UPDATE. It compares the time, the zone and the
        stamp of what was found due, and the stored switch and date; not the days. */
    method ClaimScheduled(observed: EmailSettings, date: Date, stamp: int)
      returns (claimed: Option<bool>, ghost broke: bool)
      requires Valid()
      modifies this`settings, this`log
      ensures Valid()
      ensures claimed == None <==> broke
      ensures claimed.Some? ==> (claimed.value <==>
        && old(settings).enabled && old(settings).lastDate != Some(date)
        && (old(settings).time, old(settings).zone, old(settings).updatedAt)
           == (observed.time, observed.zone, observed.updatedAt))
      ensures log == if claimed == Some(true) then old(log) + [Claimed(date, stamp)] else old(log)
      ensures settings == if claimed == Some(true)
        then old(settings).(lastDate := Some(date), updatedAt := stamp) else old(settings)
    {
      var fails: bool := *;
      if fails {
        return None, true;
      }
      if settings.enabled && settings.lastDate != Some(date) && settings.time == observed.time
         && settings.zone == observed.zone && settings.updatedAt == observed.updatedAt {
        Write(Claimed(date, stamp));
        return Some(true), false;
      }
      return Some(false), false;
    }

    /** send_job_digest of the holder of the gate: the jobs it reads are the jobs that are there
        when it moves the checkpoint. */
    method SendHolding(lease: MutationLease, id: string, configured: bool, stamp: int)
      returns (result: DigestLedger.Result, databaseError: bool)
      requires lease.gate == gate && !lease.released && gate.active == Some(lease.operation)
      requires Valid() && id !in ledger.digests
      modifies this, ledger, gate
      ensures Valid() && gate.active == Some(lease.operation) && jobs == old(jobs)
      ensures DigestLedger.Decided(
        result, old(settings).enabled, configured, old(ledger.checkpointEstablished),
        jobs.Keys == old(ledger.snapshot).Keys)
      ensures if DigestLedger.Recorded(result, databaseError)
        then ledger.snapshot == jobs && settings == old(settings).(updatedAt := stamp)
        else settings == old(settings) && unchanged(ledger`snapshot) && unchanged(ledger`changes)
    {
      OthersAct(lease.operation, id);
      var enabled := settings.enabled;
      OthersAct(lease.operation, id);
      var current := jobs;
      OthersAct(lease.operation, id);
      var mail;
      ghost var told;
      result, databaseError, mail, told := ledger.SendJobDigest(id, true, enabled, configured, current);
      if DigestLedger.Recorded(result, databaseError) {
        Write(Stamped(stamp));
      }
    }

    /** run_due_once from the moment the lease is held: exactly what is due is claimed, once, and
        what is stored is what was read. `later`, `claimedAt` and `sentAt` are its clock readings,
        `broke` says that the claim met a database error. */
    method RunHolding(
      lease: MutationLease, later: int, claimedAt: int, sentAt: int, id: string, configured: bool)
      returns (outcome: DigestOutcome, ghost broke: bool)
      requires lease.gate == gate && !lease.released && gate.active == Some(lease.operation)
      requires Valid() && id !in ledger.digests
      modifies this, ledger, gate, lease
      ensures Valid() && gate.active == None && jobs == old(jobs)
      ensures outcome.Idle? <==> DueOccurrence(old(settings), local(old(settings).zone, later)).None?
      ensures outcome in {Idle, ClaimError} ==> unchanged(this) && unchanged(ledger)
      ensures !outcome.WaitingForRefresh? && (outcome.ClaimError? <==> !outcome.Idle? && broke)
      ensures outcome.Digest? ==> DigestLedger.Decided(
        outcome.result, true, configured, old(ledger.checkpointEstablished), jobs.Keys == old(ledger.snapshot).Keys)
      ensures outcome.Digest? ==>
        && DueOccurrence(old(settings), local(old(settings).zone, later)) == Some(outcome.date)
        && settings == old(settings).(lastDate := Some(outcome.date), updatedAt :=
             if DigestLedger.Recorded(outcome.result, outcome.databaseError) then sentAt else claimedAt)
      ensures outcome.Digest? ==>
        if DigestLedger.Recorded(outcome.result, outcome.databaseError) then ledger.snapshot == jobs
        else ledger.snapshot == old(ledger.snapshot) && ledger.changes == old(ledger.changes)
    {
      OthersAct(lease.operation, id);
      var observed := settings;
      var due := DueOccurrence(observed, local(observed.zone, later));
      if due.None? {
        lease.Release();
        return Idle, false;
      }
      OthersAct(lease.operation, id);
      var claimed;
      claimed, broke := ClaimScheduled(observed, due.value, claimedAt);
      if claimed.None? {
        lease.Release();
        return ClaimError, broke;
      }
      assert claimed == Some(true);      // what the code answers to a lost claim cannot happen here
      var result, databaseError := SendHolding(lease, id, configured, sentAt);
      lease.Release();
      return Digest(due.value, result, databaseError), broke;
    }

    /** run_due_once. `reread` is what the settings were when the lease was taken or refused. */
    method RunDueOnce(
      now: int, later: int, claimedAt: int, sentAt: int, operation: RunProtocol.OpId, id: string, configured: bool)
      returns (outcome: DigestOutcome, ghost reread: EmailSettings, ghost busy: bool, ghost broke: bool)
      requires Valid() && id !in ledger.digests && gate.active != Some(operation)
      modifies this, ledger, gate
      ensures Valid() && gate.active != Some(operation)
      ensures outcome.WaitingForRefresh? <==>
        busy && DueOccurrence(old(settings), local(old(settings).zone, now)).Some?
      ensures outcome.ClaimError? <==> !outcome.Idle? && !outcome.WaitingForRefresh? && broke
      ensures outcome.Idle? <==>
        || DueOccurrence(old(settings), local(old(settings).zone, now)).None?
        || (!busy && DueOccurrence(reread, local(reread.zone, later)).None?)
      ensures !outcome.Digest? ==> settings == reread
      // Whatever was edited before the lease, exactly what is due is claimed, and nothing else.
      ensures outcome.Digest? ==>
        && DueOccurrence(reread, local(reread.zone, later)) == Some(outcome.date)
        && settings == reread.(lastDate := Some(outcome.date), updatedAt :=
             if DigestLedger.Recorded(outcome.result, outcome.databaseError) then sentAt else claimedAt)
      ensures outcome.Digest? ==>
        && outcome.result != DigestLedger.Disabled
        && (outcome.result == DigestLedger.ConfigurationFailed <==> !configured)
      // What is stored are the jobs at the release.
      ensures outcome.Digest? && DigestLedger.Recorded(outcome.result, outcome.databaseError) ==>
        ledger.snapshot == jobs
    {
      var due := DueOccurrence(settings, local(settings.zone, now));
      reread, busy, broke := settings, false, false;
      if due.None? {
        return Idle, reread, false, false;
      }
      OthersAct(operation, id);
      reread, busy := settings, !gate.accepting || gate.active.Some?;
      var lease := gate.Acquire(operation);
      if lease == null {
        return WaitingForRefresh, reread, busy, false;
      }
      outcome, broke := RunHolding(lease, later, claimedAt, sentAt, id, configured);
    }
  }
}
