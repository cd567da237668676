/**
 The functions of backend/outbound_security.py that move the launch lease, each shown to
 take the protocol of BrowserLease from the state it finds to the state it leaves.
 */
module BrowserBoundary {
  import opened Wrappers
  import opened BrowserLease

  /** How a launch ends: the lease is refused, the launch fails, an exception comes before the
      browser is installed, or the browser is current. */
  datatype LaunchResult = Refused | LaunchFailed | Interrupted | Launched

  class LaunchBoundary {
    var locked: bool
    var current: Option<Browser>
    var browsers: map<Browser, Leased>
    var alive: set<Process>   // the process table, and the identities that have left it
    var dead: set<Process>
    ghost var launcher: Option<Thread>
    ghost var installing: Option<Browser>
    ghost var tooEarly: set<Browser>
    ghost var acquired: nat
    ghost var acquisition: map<Browser, nat>
    ghost var freed: seq<(nat, Freer)>
    ghost var orphans: set<Process>
    ghost var abandoned: bool
    ghost var unrecorded: map<Browser, set<Process>>

    ghost function View(): State
      reads this
    {
      State(locked, current, launcher, installing, browsers, alive, dead, tooEarly,
            abandoned, acquired, acquisition, freed, orphans, unrecorded)
    }

    /** In a state that the protocol reaches from its start. */
    ghost predicate Valid()
      reads this
    {
      Reached(View()) && LockInv(View())
    }

    constructor ()
      ensures Valid() && View() == START
    {
      locked, current, launcher, installing := false, None, None, None;
      browsers, alive, dead, tooEarly := map[], {}, {}, {};
      acquired, acquisition, freed, orphans := 0, map[], [], {};
      abandoned, unrecorded := false, map[];
      new;
      assert CanRun(START, []) && Final(START, []) == START;
    }

    /** What a reclaim asks of the holder: it has recorded processes, and all are dead. */
    ghost predicate Reclaimable()
      reads this
    {
      current.Some? && current.value in browsers
      && browsers[current.value].recorded != {} && browsers[current.value].recorded <= dead
    }

    /** The ghost part of a step: the real fields have been assigned already. */
    ghost method Record(was: State, step: Step)
      requires Reached(was) && Enabled(was, step)
      requires var t := Apply(was, step);
        t.locked == locked && t.current == current && t.browsers == browsers && t.alive == alive && t.dead == dead
      modifies this`launcher, this`installing, this`tooEarly, this`acquired, this`acquisition, this`freed,
        this`orphans, this`abandoned, this`unrecorded
      ensures View() == Apply(was, step) && Valid()
    {
      var t := Apply(was, step);
      launcher, installing, tooEarly := t.launcher, t.installing, t.tooEarly;
      acquired, acquisition, freed, orphans := t.acquired, t.acquisition, t.freed, t.orphans;
      abandoned, unrecorded := t.abandoned, t.unrecorded;
      ReachedStep(was, step);
      ReachedLock(t);
    }

    /** Any number of processes start, some by a launched browser, and die meanwhile. */
    method TimePasses()
      requires Valid()
      modifies this`alive, this`dead, this`launcher, this`installing, this`tooEarly, this`acquired,
        this`acquisition, this`freed, this`orphans, this`abandoned, this`unrecorded
      ensures Valid() && old(dead) <= dead && old(alive) <= alive + dead
      ensures launcher == old(launcher) && installing == old(installing) && tooEarly == old(tooEarly)
      ensures acquired == old(acquired) && acquisition == old(acquisition)
      ensures freed == old(freed) && orphans == old(orphans) && abandoned == old(abandoned)
    {
      var events: nat := *;
      while events > 0
        invariant Valid() && old(dead) <= dead && old(alive) <= alive + dead
        invariant launcher == old(launcher) && installing == old(installing) && tooEarly == old(tooEarly)
        invariant acquired == old(acquired) && acquisition == old(acquisition)
        invariant freed == old(freed) && orphans == old(orphans) && abandoned == old(abandoned)
      {
        var process: Process := *;
        ghost var was := View();
        if process in alive {
          alive, dead := alive - {process}, dead + {process};
          Record(was, Die(process));
        } else if process !in dead {
          alive := alive + {process};
          ghost var parent: Option<Browser> := *;
          Record(was, if Enabled(was, Spawn(process, parent)) then Spawn(process, parent) else Spawn(process, None));
        }
        events := events - 1;
      }
    }

    /** _proc_alive, for one recorded identity at one moment. */
    method LooksDead(b: Browser, process: Process) returns (over: bool)
      requires Valid() && b in browsers && process in browsers[b].recorded
      modifies this
      ensures Valid() && locked == old(locked) && current == old(current)
      ensures launcher == old(launcher) && installing == old(installing) && old(dead) <= dead
      ensures browsers == if over
        then old(browsers)[b := old(browsers)[b].(seen := old(browsers)[b].seen + {process})] else old(browsers)
      ensures process in old(dead) ==> over
    {
      TimePasses();
      over := process !in alive;
      if over {
        ghost var was := View();
        browsers := browsers[b := browsers[b].(seen := browsers[b].seen + {process})];
        Record(was, Observe(b, process));
      }
    }

    /** _live_recorded_procs: one check per recorded identity, not a snapshot of all. An answer is
        positive if all were dead before, and only if all are dead afterwards. */
    method AllRecordedDead(b: Browser) returns (gone: bool)
      requires Valid() && b in browsers
      modifies this
      ensures Valid() && locked == old(locked) && current == old(current)
      ensures launcher == old(launcher) && installing == old(installing) && old(dead) <= dead
      ensures browsers.Keys == old(browsers.Keys)
      ensures browsers == old(browsers)[b := old(browsers)[b].(seen := browsers[b].seen)]
      ensures gone ==> AllSeenDead(View(), b) && browsers[b].recorded <= dead
      ensures old(browsers)[b].recorded <= old(dead) ==> gone
    {
      gone := true;
      var unchecked := browsers[b].recorded;
      while unchecked != {}
        invariant Valid() && locked == old(locked) && current == old(current)
        invariant launcher == old(launcher) && installing == old(installing) && old(dead) <= dead
        invariant browsers.Keys == old(browsers.Keys)
        invariant browsers == old(browsers)[b := old(browsers)[b].(seen := browsers[b].seen)]
        invariant unchecked <= browsers[b].recorded
        invariant gone ==> browsers[b].recorded - unchecked <= browsers[b].seen
        invariant browsers[b].recorded <= old(dead) ==> gone
        decreases |unchecked|
      {
        var process :| process in unchecked;
        unchecked := unchecked - {process};
        var over := LooksDead(b, process);
        if !over {
          gone := false;
        }
      }
      ReachedInv(View(), b);
    }

    /** _release: idempotent, and nothing to the lock unless b is the current browser. */
    method Release(b: Browser, cause: Cause)
      requires Valid() && b in browsers && !browsers[b].releasing
      requires browsers[b].released == None ==> Enabled(View(), MarkReleased(b, cause))
      modifies this
      ensures Valid()
      ensures launcher == old(launcher) && installing == old(installing) && alive == old(alive) && dead == old(dead)
      ensures b in browsers && browsers == old(browsers)[b := old(browsers)[b].(released := browsers[b].released)]
      ensures browsers[b].released ==
        if old(browsers)[b].released == None then Some(cause) else old(browsers)[b].released
      ensures var frees := old(current) == Some(b) && old(browsers)[b].released == None;
        if frees then current == None && !locked else current == old(current) && locked == old(locked)
    {
      if browsers[b].released.Some? {
        return;
      }
      ghost var was := View();
      browsers := browsers[b := browsers[b].(released := Some(cause), releasing := true)];
      Record(was, MarkReleased(b, cause));
      was := View();
      if current == Some(b) {
        current, locked := None, false;
      }
      browsers := browsers[b := browsers[b].(releasing := false)];
      Record(was, FinishRelease(b));
    }

    /** close: the guard's and the reaper's signals only make processes die sooner. The
        disconnect callback can fire inside the browser's own close and then frees the lease
        whatever the reap finds; otherwise close frees it exactly if every recorded identity
        was found dead and the guard had finished. */
    method Close(b: Browser) returns (terminated: bool, disconnected: bool, guardFinished: bool)
      requires Valid() && b in browsers && !browsers[b].releasing
      modifies this
      ensures Valid() && launcher == old(launcher) && installing == old(installing)
      ensures browsers.Keys == old(browsers.Keys)
      ensures terminated ==> guardFinished && browsers[b].recorded <= dead
      ensures guardFinished && old(browsers)[b].recorded <= old(dead) ==> terminated
      ensures current != old(current) || locked != old(locked) ==>
        && old(current) == Some(b) && current == None && !locked
        && (browsers[b].released == Some(Disconnected) || (browsers[b].released == Some(Closed) && terminated))
      ensures terminated && old(current) == Some(b) && old(browsers)[b].released == None ==> !locked
      ensures browsers[b].released ==
        if old(browsers)[b].released.Some? then old(browsers)[b].released
        else if disconnected then Some(Disconnected) else if terminated then Some(Closed) else None
    {
      guardFinished := *;
      disconnected := *;
      if disconnected {
        Release(b, Disconnected);
      }
      var gone := ReapTree(b);
      terminated := gone && guardFinished;
      if terminated {
        Release(b, Closed);
      }
    }

    /** _reap_browser_process_tree: three looks, between SIGTERM and SIGKILL. */
    method ReapTree(b: Browser) returns (gone: bool)
      requires Valid() && b in browsers
      modifies this
      ensures Valid() && locked == old(locked) && current == old(current)
      ensures launcher == old(launcher) && installing == old(installing) && old(dead) <= dead
      ensures browsers.Keys == old(browsers.Keys)
      ensures browsers == old(browsers)[b := old(browsers)[b].(seen := browsers[b].seen)]
      ensures gone ==> AllSeenDead(View(), b) && browsers[b].recorded <= dead
      ensures old(browsers)[b].recorded <= old(dead) ==> gone
    {
      TimePasses();
      gone := AllRecordedDead(b);
      if !gone {
        gone := AllRecordedDead(b);
      }
      if !gone {
        gone := AllRecordedDead(b);
      }
    }

    /** _try_reclaim_leaked_browser_lease. The holder's release may be spent already: then the
        answer is positive and the lock stays held. */
    method TryReclaim() returns (reclaimed: bool, otherChromium: bool)
      requires Valid() && (current.Some? ==> !browsers[current.value].releasing)
      modifies this
      ensures Valid() && launcher == old(launcher) && installing == old(installing)
      ensures browsers.Keys == old(browsers.Keys)
      ensures reclaimed ==>
        && !otherChromium && old(current).Some? && old(current).value in browsers
        && browsers[old(current).value].recorded != {} && browsers[old(current).value].recorded <= dead
      ensures old(Reclaimable()) && !otherChromium ==> reclaimed
      ensures var frees := reclaimed && old(browsers[current.value].released) == None;
        if frees then current == None && !locked else current == old(current) && locked == old(locked)
    {
      reclaimed, otherChromium := false, *;
      if current == None || browsers[current.value].recorded == {} {
        return;
      }
      var holder := current.value;
      var gone := AllRecordedDead(holder);
      if gone && !otherChromium {
        Release(holder, Reclaimed);
        reclaimed := true;
      }
    }

    /** _acquire_browser_launch_lease: a free lock, or one freed by a reclaim, or an error. */
    method AcquireLease(thread: Thread) returns (acquired: bool, otherChromium: bool)
      requires Valid() && (current.Some? ==> !browsers[current.value].releasing)
      modifies this
      ensures Valid() && browsers.Keys == old(browsers.Keys)
      ensures acquired ==> locked && current == None && launcher == Some(thread) && installing == None
      ensures acquired && old(locked) ==>
        && !otherChromium && old(current).Some? && old(current).value in browsers
        && browsers[old(current).value].recorded <= dead
      ensures !old(locked) ==> acquired
      ensures old(Reclaimable()) && old(browsers[current.value].released) == None && !otherChromium ==> acquired
      ensures !acquired ==> locked && current == old(current)
    {
      acquired, otherChromium := !locked, false;
      if !acquired {
        var reclaimed;
        reclaimed, otherChromium := TryReclaim();
        acquired := reclaimed && !locked;
      }
      if acquired {
        ghost var was := View();
        locked := true;
        Record(was, Acquire(thread));
      }
    }

    /** _launch_protected_playwright_chromium: a failed launch gives the lease back, after a
        reap of what it left whose verdict is not asked for. A successful one leaves the lease
        with the new browser, unless its disconnect comes before it is current or an exception
        comes before it is installed: then nobody can ever give the lease back. */
    method Launch(thread: Thread, b: Browser) returns (result: LaunchResult, otherChromium: bool)
      requires Valid() && b !in browsers && (current.Some? ==> !browsers[current.value].releasing)
      modifies this
      ensures Valid()
      ensures result.Refused? ==> old(locked) && locked && current == old(current)
      ensures old(Reclaimable()) && old(browsers[current.value].released) == None && !otherChromium ==>
        !result.Refused?
      ensures result.LaunchFailed? ==> !locked && current == None
      ensures result.Interrupted? ==> locked && current == None && Stranded(View())
      ensures result.Launched? ==>
        locked && current == Some(b) && b in browsers && (browsers[b].released == None <==> b !in tooEarly)
    {
      var acquired;
      acquired, otherChromium := AcquireLease(thread);
      if !acquired {
        return Refused, otherChromium;
      }
      TimePasses();
      var launched: bool := *;
      ghost var was := View();
      if !launched {
        var mine: set<Process> := *;
        mine := mine * (alive + dead);   // what appeared during the launch
        TimePasses();                    // _reap_orphaned_launch
        was := View();
        locked, current := false, None;
        Record(was, LaunchFails(mine));
        return LaunchFailed, otherChromium;
      }
      var interrupted: bool := *;        // before the constructor
      if !interrupted {
        ConstructLeased(b);
        interrupted := *;                // or after it
      }
      was := View();
      if interrupted {
        ghost var left: set<Process> := *;
        Record(was, Abandon(left * (alive + dead)));
        return Interrupted, otherChromium;
      }
      current := Some(b);
      Record(was, Install);
      ReachedInv(View(), b);
      return Launched, otherChromium;
    }

    /** The constructor of _LeasedBrowser: it records processes and registers the callback,
        which may fire before the browser is current: that spends its only release. */
    method ConstructLeased(b: Browser)
      requires Valid() && b !in browsers && launcher.Some? && installing == None
      modifies this
      ensures Valid() && installing == Some(b) && b in browsers && !browsers[b].releasing
      ensures locked == old(locked) && current == old(current) && launcher == old(launcher)
      ensures browsers[b].released in {None, Some(Disconnected)}
      ensures browsers[b].released == Some(Disconnected) <==> b in tooEarly
    {
      var picked: set<Process> := *;
      var recorded := alive * picked;    // _capture_browser_procs: some of the live processes
      ghost var missed: set<Process> := *;
      ghost var was := View();
      browsers := browsers[b := Leased(recorded, None, false, {})];
      Record(was, Construct(b, recorded, missed * (alive + dead)));
      var disconnects: bool := *;
      if disconnects {
        Release(b, Disconnected);
      }
      ReachedInv(View(), b);
    }
  }
}
