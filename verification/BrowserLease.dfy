/**
 The single-Chromium launch lease of backend/outbound_security.py as a transition
 system: launches, failed launches, closes, disconnect callbacks and reclaims of any
 number of browsers interleave freely, and so do the deaths of their processes.
 */
module BrowserLease {
  import opened Wrappers

  type Thread = nat
  type Browser = nat

  /** A process is a PID together with its start time: once dead, never alive again. */
  datatype Process = Process(pid: nat, start: nat)

  datatype Cause = Closed | Reclaimed | Disconnected

  /** Who gave the lease of an acquisition back. */
  datatype Freer = FailedLaunch | By(browser: Browser)

  /** A _LeasedBrowser. `releasing` lies between setting `_released` and the locked part of
      `_release`; `seen` are the recorded processes some check has found dead. */
  datatype Leased = Leased(
    recorded: set<Process>,
    released: Option<Cause>,
    releasing: bool,
    seen: set<Process>)

  datatype State = State(
    locked: bool,                 // _browser_launch_lease
    current: Option<Browser>,     // _current_leased_browser
    launcher: Option<Thread>,     // the launch between acquiring the lock and installing
    installing: Option<Browser>,  // constructed by that launch, not yet current
    browsers: map<Browser, Leased>,
    alive: set<Process>,
    dead: set<Process>,
    tooEarly: set<Browser>,       // browsers whose release ended before they became current
    abandoned: bool,              // the lock is held for a launch that was given up
    acquired: nat,                // how often the lock has been taken
    acquisition: map<Browser, nat>,  // under which of these a browser was launched
    freed: seq<(nat, Freer)>,     // each time it was given back: which acquisition, by whom
    orphans: set<Process>,        // what launches without a browser started
    unrecorded: map<Browser, set<Process>>)  // what a browser started and its one snapshot does not hold

  datatype Step =
    | Acquire(thread: Thread)
    | LaunchFails(left: set<Process>)
    | Abandon(left: set<Process>)  // an exception between the launch and the installation
    | Construct(browser: Browser, recorded: set<Process>, missed: set<Process>)
    | Install
    | MarkReleased(browser: Browser, cause: Cause)
    | FinishRelease(browser: Browser)
    | Observe(browser: Browser, process: Process)
    | Spawn(process: Process, parent: Option<Browser>)
    | Die(process: Process)

  /** _live_recorded_procs came back empty: each recorded identity was found dead. */
  predicate AllSeenDead(s: State, b: Browser) {
    b in s.browsers && s.browsers[b].recorded <= s.browsers[b].seen
  }

  /** What a browser has started, as far as the state knows. */
  function Tree(s: State, b: Browser): set<Process>
    requires b in s.browsers
  {
    s.browsers[b].recorded + if b in s.unrecorded then s.unrecorded[b] else {}
  }

  /** The number of the latest acquisition. */
  function Lease(s: State): nat {
    if s.acquired == 0 then 0 else s.acquired - 1
  }

  predicate Enabled(s: State, step: Step) {
    match step
    case Acquire(_) => !s.locked
    case LaunchFails(left) => s.launcher.Some? && s.installing == None && left <= s.alive + s.dead
    case Abandon(left) => s.launcher.Some? && left <= s.alive + s.dead
    case Construct(b, recorded, missed) =>
      && s.launcher.Some? && s.installing == None && b !in s.browsers
      && recorded <= s.alive + s.dead && missed <= s.alive + s.dead
    case Install => s.installing.Some?
    case MarkReleased(b, cause) =>
      && b in s.browsers && s.browsers[b].released == None
      && match cause {
           case Closed => AllSeenDead(s, b)
           case Reclaimed => s.browsers[b].recorded != {} && AllSeenDead(s, b)
           case Disconnected => true  // whenever the driver reports it, trees alive or not
         }
    case FinishRelease(b) => b in s.browsers && s.browsers[b].releasing
    case Observe(b, p) => b in s.browsers && p in s.browsers[b].recorded && p !in s.alive
    case Spawn(p, parent) =>
      && p !in s.alive && p !in s.dead
      && (parent.Some? ==> parent.value in s.browsers && Tree(s, parent.value) * s.alive != {})
    case Die(p) => p in s.alive
  }

  function Apply(s: State, step: Step): State
    requires Enabled(s, step)
  {
    match step
    case Acquire(t) => s.(locked := true, launcher := Some(t), acquired := s.acquired + 1)
    case LaunchFails(left) =>
      s.(locked := false, current := None, launcher := None, orphans := s.orphans + left,
         freed := s.freed + [(Lease(s), FailedLaunch)])
    case Abandon(left) => s.(launcher := None, installing := None, abandoned := true, orphans := s.orphans + left)
    case Construct(b, recorded, missed) =>
      s.(browsers := s.browsers[b := Leased(recorded, None, false, {})], installing := Some(b),
         acquisition := s.acquisition[b := Lease(s)], unrecorded := s.unrecorded[b := missed])
    case Install => s.(current := s.installing, installing := None, launcher := None)
    case MarkReleased(b, cause) =>
      s.(browsers := s.browsers[b := s.browsers[b].(released := Some(cause), releasing := true)])
    case FinishRelease(b) =>
      var done := s.(
        browsers := s.browsers[b := s.browsers[b].(releasing := false)],
        tooEarly := if s.installing == Some(b) then s.tooEarly + {b} else s.tooEarly);
      if s.current == Some(b) then
        var acquired := if b in s.acquisition then s.acquisition[b] else 0;
        done.(current := None, locked := false, freed := s.freed + [(acquired, By(b))])
      else done
    case Observe(b, p) => s.(browsers := s.browsers[b := s.browsers[b].(seen := s.browsers[b].seen + {p})])
    case Spawn(p, parent) =>
      s.(alive := s.alive + {p},
         unrecorded := if parent.Some? && parent.value in s.unrecorded
           then s.unrecorded[parent.value := s.unrecorded[parent.value] + {p}] else s.unrecorded)
    case Die(p) => s.(alive := s.alive - {p}, dead := s.dead + {p})
  }

  // ---- The invariant --------------------------------------------------------

  predicate BrowserInv(s: State, b: Browser) {
    b in s.browsers ==>
      var leased := s.browsers[b];
      && leased.seen <= leased.recorded <= s.alive + s.dead
      && leased.seen !! s.alive
      && (leased.released.Some? && leased.released.value != Disconnected ==> leased.recorded <= leased.seen)
      && (leased.releasing ==> leased.released.Some?)
      && (b in s.tooEarly ==> leased.released.Some? && !leased.releasing)
      && (s.installing == Some(b) && leased.released.Some? ==> leased.releasing || b in s.tooEarly)
      && (s.current == Some(b) && leased.released.Some? ==> leased.releasing || b in s.tooEarly)
      && (leased.released == None ==> s.current == Some(b) || s.installing == Some(b) || s.abandoned)
      && (b in s.unrecorded ==> s.unrecorded[b] <= s.alive + s.dead)
      && b in s.acquisition && s.acquisition[b] < s.acquired
      && (s.current == Some(b) || s.installing == Some(b) ==> s.acquisition[b] == Lease(s))
  }

  /** The k-th time the lock was given back it was the k-th acquisition's, by its failed
      launch or by a browser launched under it. */
  predicate Freed(s: State, k: nat)
    requires k < |s.freed|
  {
    && s.freed[k].0 == k
    && (s.freed[k].1.By? ==>
          s.freed[k].1.browser in s.acquisition && s.acquisition[s.freed[k].1.browser] == k)
  }

  /** Who owns the lock. */
  predicate LockInv(s: State) {
    && (s.locked <==> s.launcher.Some? || s.current.Some? || s.abandoned)
    && !(s.launcher.Some? && s.current.Some?)
    && (s.abandoned ==> s.launcher == None && s.current == None)
    && (s.installing.Some? ==> s.launcher.Some?)
    && (s.installing.Some? ==> s.installing.value in s.browsers)
    && (s.current.Some? ==> s.current.value in s.browsers)
    && s.alive !! s.dead
  }

  ghost predicate Inv(s: State) {
    && LockInv(s)
    && s.tooEarly <= s.browsers.Keys
    && s.orphans <= s.alive + s.dead
    && s.acquisition.Keys == s.unrecorded.Keys == s.browsers.Keys
    && s.acquired == |s.freed| + (if s.locked then 1 else 0)
    && (forall k :: 0 <= k < |s.freed| ==> Freed(s, k))
    && forall b :: BrowserInv(s, b)
  }

  lemma LockStepKeeps(s: State, step: Step, b: Browser)
    requires step.Acquire? || step.LaunchFails? || step.Abandon? || step.Install?
    requires LockInv(s) && BrowserInv(s, b) && Enabled(s, step)
    ensures BrowserInv(Apply(s, step), b)
  {
  }

  lemma ConstructKeeps(s: State, step: Step, b: Browser)
    requires step.Construct? && Inv(s) && BrowserInv(s, b) && Enabled(s, step)
    ensures BrowserInv(Apply(s, step), b)
  {
  }

  lemma ReleaseStepKeeps(s: State, step: Step, b: Browser)
    requires step.MarkReleased? || step.FinishRelease?
    requires LockInv(s) && BrowserInv(s, b) && Enabled(s, step)
    ensures BrowserInv(Apply(s, step), b)
  {
  }

  lemma ProcessStepKeeps(s: State, step: Step, b: Browser)
    requires step.Observe? || step.Spawn? || step.Die?
    requires BrowserInv(s, b) && Enabled(s, step)
    ensures BrowserInv(Apply(s, step), b)
  {
  }

  lemma BrowserKept(s: State, step: Step, b: Browser)
    requires Inv(s) && Enabled(s, step)
    ensures BrowserInv(Apply(s, step), b)
  {
    assert BrowserInv(s, b);
    if step.MarkReleased? || step.FinishRelease? {
      ReleaseStepKeeps(s, step, b);
    } else if step.Observe? || step.Spawn? || step.Die? {
      ProcessStepKeeps(s, step, b);
    } else if step.Construct? {
      ConstructKeeps(s, step, b);
    } else {
      LockStepKeeps(s, step, b);
    }
  }

  lemma FreedKept(s: State, step: Step, k: nat)
    requires Inv(s) && Enabled(s, step) && k < |Apply(s, step).freed|
    ensures Freed(Apply(s, step), k)
  {
    if k < |s.freed| {
      assert Freed(s, k);
    } else if step.FinishRelease? {
      assert BrowserInv(s, step.browser);
    }
  }

  lemma StepKeepsInv(s: State, step: Step)
    requires Inv(s) && Enabled(s, step)
    ensures Inv(Apply(s, step))
  {
    forall b
      ensures BrowserInv(Apply(s, step), b)
    {
      BrowserKept(s, step, b);
    }
    forall k | 0 <= k < |Apply(s, step).freed|
      ensures Freed(Apply(s, step), k)
    {
      FreedKept(s, step, k);
    }
  }

  // ---- Whole runs -----------------------------------------------------------

  predicate CanRun(s: State, steps: seq<Step>)
    decreases |steps|, 0
  {
    steps == [] ||
    var before := steps[..|steps| - 1];
    CanRun(s, before) && Enabled(Final(s, before), steps[|steps| - 1])
  }

  function Final(s: State, steps: seq<Step>): State
    requires CanRun(s, steps)
    decreases |steps|, 1
  {
    if steps == [] then s else Apply(Final(s, steps[..|steps| - 1]), steps[|steps| - 1])
  }

  const START := State(false, None, None, None, map[], {}, {}, {}, false, 0, map[], [], {}, map[])

  lemma RunsOn(s: State, steps: seq<Step>, step: Step)
    requires CanRun(s, steps) && Enabled(Final(s, steps), step)
    ensures CanRun(s, steps + [step]) && Final(s, steps + [step]) == Apply(Final(s, steps), step)
  {
    assert (steps + [step])[..|steps|] == steps;
  }

  /** Some run from the start ends here. */
  ghost predicate Reached(s: State) {
    exists steps :: CanRun(START, steps) && Final(START, steps) == s
  }

  lemma ReachedStep(s: State, step: Step)
    requires Reached(s) && Enabled(s, step)
    ensures Reached(Apply(s, step))
  {
    var steps :| CanRun(START, steps) && Final(START, steps) == s;
    RunsOn(START, steps, step);
  }

  lemma {:induction false} RunKeepsInv(s: State, steps: seq<Step>)
    requires Inv(s) && CanRun(s, steps)
    ensures Inv(Final(s, steps))
    decreases |steps|
  {
    if steps != [] {
      var before := steps[..|steps| - 1];
      RunKeepsInv(s, before);
      StepKeepsInv(Final(s, before), steps[|steps| - 1]);
    }
  }

  lemma ReachedInv(s: State, b: Browser)
    requires Reached(s)
    ensures Inv(s) && BrowserInv(s, b)
  {
    var steps :| CanRun(START, steps) && Final(START, steps) == s;
    RunKeepsInv(START, steps);
  }

  lemma ReachedLock(s: State)
    requires Reached(s)
    ensures LockInv(s)
  {
    ReachedInv(s, 0);
  }

  /** The lock is held exactly when somebody owns it or a launch gave it up, and there is only
      one of these. */
  lemma OneOwner(steps: seq<Step>)
    requires CanRun(START, steps)
    ensures var s := Final(START, steps);
      && (s.locked <==> s.launcher.Some? || s.current.Some? || s.abandoned)
      && !(s.launcher.Some? && s.current.Some?)
      && (s.abandoned ==> s.launcher == None && s.current == None)
  {
    RunKeepsInv(START, steps);
  }

  /** Each acquisition is released at most once, in the order of the acquisitions, and only by
      its own failed launch or by a browser launched under it; only the last one can be open. */
  lemma ReleasedOncePerAcquisition(steps: seq<Step>, k: nat)
    requires CanRun(START, steps)
    ensures var s := Final(START, steps);
      && |s.freed| == (if s.locked then s.acquired - 1 else s.acquired)
      && (k < |s.freed| ==> Freed(s, k))
      && (forall j :: 0 <= j < |s.freed| && s.freed[j].0 == k ==> j == k)
  {
    RunKeepsInv(START, steps);
    var s := Final(START, steps);
    forall j | 0 <= j < |s.freed| && s.freed[j].0 == k
      ensures j == k
    {
      assert Freed(s, j);
    }
  }

  /** A browser that was launched and is neither current nor about to be. */
  predicate Superseded(s: State, b: Browser) {
    b in s.browsers && s.current != Some(b) && s.installing != Some(b)
  }

  lemma SupersededStays(s: State, step: Step, b: Browser)
    requires Superseded(s, b) && Enabled(s, step)
    ensures Superseded(Apply(s, step), b)
  {
  }

  /** A browser that stopped being current never becomes current again, and over every
      continuation its own close, disconnect or reclaim leaves the lock, its owner and a
      launch in progress alone. */
  lemma {:induction false} SupersededForever(s: State, steps: seq<Step>, b: Browser, cause: Cause)
    requires Superseded(s, b) && CanRun(s, steps)
    ensures var t := Final(s, steps);
      && Superseded(t, b)
      && forall step | step in {MarkReleased(b, cause), FinishRelease(b)} && Enabled(t, step) ::
           Apply(t, step).(browsers := t.browsers) == t
    decreases |steps|
  {
    if steps != [] {
      var before := steps[..|steps| - 1];
      SupersededForever(s, before, b, cause);
      SupersededStays(Final(s, before), steps[|steps| - 1], b);
    }
  }

  /** Conversely, only the current browser's own release and a failed launch free the lock. */
  lemma OnlyTheOwnerUnlocks(s: State, step: Step)
    requires Inv(s) && Enabled(s, step) && s.locked && !Apply(s, step).locked
    ensures (step.LaunchFails? && s.launcher.Some?) || (step.FinishRelease? && s.current == Some(step.browser))
  {
  }

  /** In every run, a browser whose release was performed by close() or by a reclaim has a
      process tree that is dead, identity by identity, and stays dead. */
  lemma ReleasedTreesAreDead(steps: seq<Step>, b: Browser)
    requires CanRun(START, steps)
    ensures var s := Final(START, steps);
      b in s.browsers && s.browsers[b].released in {Some(Closed), Some(Reclaimed)} ==>
        s.browsers[b].recorded <= s.dead && s.browsers[b].recorded !! s.alive
  {
    RunKeepsInv(START, steps);
    var s := Final(START, steps);
    assert BrowserInv(s, b);
  }

  lemma StepKeepsDead(s: State, step: Step, p: Process)
    requires Enabled(s, step) && p in s.dead && p !in s.alive
    ensures p in Apply(s, step).dead && p !in Apply(s, step).alive
  {
  }

  lemma {:induction false} DeadStaysDead(s: State, steps: seq<Step>, p: Process)
    requires Inv(s) && CanRun(s, steps) && p in s.dead
    ensures p in Final(s, steps).dead && p !in Final(s, steps).alive
    decreases |steps|
  {
    if steps != [] {
      var before := steps[..|steps| - 1];
      DeadStaysDead(s, before, p);
      StepKeepsDead(Final(s, before), steps[|steps| - 1], p);
    }
  }

  /** Some launch, successful or not, started the process. */
  ghost predicate Launched(s: State, p: Process) {
    p in s.orphans || exists b :: b in s.browsers && p in Tree(s, b)
  }

  /** The browsers released by a disconnect. */
  ghost predicate DisconnectedAreDead(s: State) {
    forall b :: b in s.browsers && s.browsers[b].released == Some(Disconnected) ==> s.browsers[b].recorded <= s.dead
  }

  ghost predicate UnrecordedAreDead(s: State) {
    forall b :: b in s.unrecorded ==> s.unrecorded[b] <= s.dead
  }

  /** What a free lease does mean, in every run: each browser has been released, and unless by
      a disconnect all it had recorded is dead. So all launched processes are dead exactly if
      three kinds are: those of launches without a browser, those recorded by disconnected
      browsers, and those that a browser's one snapshot does not hold. */
  lemma FreeLeaseMeans(steps: seq<Step>)
    requires CanRun(START, steps) && !Final(START, steps).locked
    ensures var s := Final(START, steps);
      && (forall b :: b in s.browsers ==>
            s.browsers[b].released.Some?
            && (s.browsers[b].released == Some(Disconnected) || s.browsers[b].recorded <= s.dead))
      && ((forall p :: Launched(s, p) ==> p in s.dead) <==>
            s.orphans <= s.dead && DisconnectedAreDead(s) && UnrecordedAreDead(s))
  {
    RunKeepsInv(START, steps);
    var s := Final(START, steps);
    forall b | b in s.browsers
      ensures s.browsers[b].released.Some?
      ensures s.browsers[b].released == Some(Disconnected) || s.browsers[b].recorded <= s.dead
    {
      assert BrowserInv(s, b);
    }
    if forall p :: Launched(s, p) ==> p in s.dead {
      forall b, p | b in s.browsers && p in Tree(s, b)
        ensures p in s.dead
      {
        assert Launched(s, p);
      }
      forall p | p in s.orphans
        ensures p in s.dead
      {
        assert Launched(s, p);
      }
    }
  }

  /** A disconnect event needs no proof of death, so a free lease does not mean a dead tree. */
  lemma DisconnectFreesALiveTree() returns (steps: seq<Step>)
    ensures CanRun(START, steps)
    ensures var s := Final(START, steps);
      && !s.locked && s.orphans == {} && s.unrecorded == map[1 := {}]
      && exists p :: Launched(s, p) && p in s.alive
  {
    var p := Process(7, 100);
    steps := [];
    RunsOn(START, steps, Spawn(p, None));
    steps := steps + [Spawn(p, None)];
    RunsOn(START, steps, Acquire(0));
    steps := steps + [Acquire(0)];
    RunsOn(START, steps, Construct(1, {p}, {}));
    steps := steps + [Construct(1, {p}, {})];
    RunsOn(START, steps, Install);
    steps := steps + [Install];
    RunsOn(START, steps, MarkReleased(1, Disconnected));
    steps := steps + [MarkReleased(1, Disconnected)];
    RunsOn(START, steps, FinishRelease(1));
    steps := steps + [FinishRelease(1)];
    var s := Final(START, steps);
    assert 1 in s.browsers && p in Tree(s, 1) && Launched(s, p) && p in s.alive;
  }

  /** Neither does a failed launch: the reaper's verdict on what it left is not asked for. */
  lemma FailedLaunchFreesALiveTree() returns (steps: seq<Step>)
    ensures CanRun(START, steps)
    ensures !Final(START, steps).locked && Final(START, steps).browsers == map[]
    ensures exists p :: Launched(Final(START, steps), p) && p in Final(START, steps).alive
  {
    var p := Process(7, 100);
    steps := [];
    RunsOn(START, steps, Acquire(0));
    steps := steps + [Acquire(0)];
    RunsOn(START, steps, Spawn(p, None));
    steps := steps + [Spawn(p, None)];
    RunsOn(START, steps, LaunchFails({p}));
    steps := steps + [LaunchFails({p})];
    var s := Final(START, steps);
    assert Launched(s, p) && p in s.alive;
  }

  /** A launched browser that starts a process after its snapshot. */
  lemma LaunchedWithChild(p: Process, child: Process) returns (steps: seq<Step>)
    requires p != child
    ensures CanRun(START, steps)
    ensures Final(START, steps) == START.(
      locked := true, current := Some(1), alive := {p, child}, acquired := 1, acquisition := map[1 := 0],
      browsers := map[1 := Leased({p}, None, false, {})], unrecorded := map[1 := {child}])
  {
    steps := [];
    RunsOn(START, steps, Spawn(p, None));
    steps := steps + [Spawn(p, None)];
    RunsOn(START, steps, Acquire(0));
    steps := steps + [Acquire(0)];
    RunsOn(START, steps, Construct(1, {p}, {}));
    steps := steps + [Construct(1, {p}, {})];
    RunsOn(START, steps, Install);
    steps := steps + [Install];
    assert p in Tree(Final(START, steps), 1) * Final(START, steps).alive;
    RunsOn(START, steps, Spawn(child, Some(1)));
    steps := steps + [Spawn(child, Some(1))];
    var s := Final(START, steps);
    assert s.alive == {p, child} && s.unrecorded.Keys == {1} && s.unrecorded[1] == {child};
  }

  /** Nor does a proven close: what the browser started after its snapshot outlives it. */
  lemma CloseFreesALiveTree() returns (steps: seq<Step>)
    ensures CanRun(START, steps)
    ensures var s := Final(START, steps);
      && !s.locked && s.orphans == {} && s.browsers.Keys == {1} && s.browsers[1].released == Some(Closed)
      && exists p :: Launched(s, p) && p in s.alive
  {
    var p, child := Process(7, 100), Process(8, 101);
    steps := LaunchedWithChild(p, child);
    RunsOn(START, steps, Die(p));
    steps := steps + [Die(p)];
    RunsOn(START, steps, Observe(1, p));
    steps := steps + [Observe(1, p)];
    RunsOn(START, steps, MarkReleased(1, Closed));
    steps := steps + [MarkReleased(1, Closed)];
    RunsOn(START, steps, FinishRelease(1));
    steps := steps + [FinishRelease(1)];
    var s := Final(START, steps);
    assert 1 in s.browsers && child in Tree(s, 1) && Launched(s, child) && child in s.alive;
  }

  // ---- When can a held lease still be released? ------------------------------

  /** The browser that owns the lock or is about to. */
  predicate Owner(s: State, b: Browser) {
    s.current == Some(b) || s.installing == Some(b)
  }

  /** A launch gave the lock up, or the owner's release already ran to its end while the
      browser was not yet current. */
  ghost predicate Stranded(s: State) {
    s.abandoned || exists b :: Owner(s, b) && b in s.tooEarly
  }

  predicate Unlocks(s: State, steps: seq<Step>) {
    CanRun(s, steps) && !Final(s, steps).locked
  }

  lemma StrandedStays(s: State, step: Step)
    requires Inv(s) && Stranded(s) && s.locked && Enabled(s, step)
    ensures Stranded(Apply(s, step)) && Apply(s, step).locked
  {
    if !s.abandoned {
      var b :| Owner(s, b) && b in s.tooEarly;
      assert BrowserInv(s, b);
      assert step.Abandon? || Owner(Apply(s, step), b);
    }
  }

  lemma {:induction false} StrandedForever(s: State, steps: seq<Step>)
    requires Inv(s) && Stranded(s) && s.locked && CanRun(s, steps)
    ensures Stranded(Final(s, steps)) && Final(s, steps).locked
    decreases |steps|
  {
    if steps != [] {
      var before := steps[..|steps| - 1];
      StrandedForever(s, before);
      RunKeepsInv(s, before);
      StrandedStays(Final(s, before), steps[|steps| - 1]);
    }
  }

  lemma OwnerCanRelease(s: State, b: Browser) returns (steps: seq<Step>)
    requires Inv(s) && Owner(s, b) && b !in s.tooEarly
    ensures Unlocks(s, steps)
  {
    assert BrowserInv(s, b);
    steps := [];
    if s.installing == Some(b) {
      RunsOn(s, steps, Install);
      steps := steps + [Install];
    }
    if !s.browsers[b].releasing {
      RunsOn(s, steps, MarkReleased(b, Disconnected));
      steps := steps + [MarkReleased(b, Disconnected)];
    }
    RunsOn(s, steps, FinishRelease(b));
    steps := steps + [FinishRelease(b)];
  }

  /** The callback is registered before the browser becomes current, and an exception in
      between leaves the lock to nobody. A held lease can be released by some continuation of
      the run if and only if neither has happened to it. */
  lemma ReleasableUnlessStranded(s: State)
    requires Inv(s) && s.locked
    ensures (exists steps :: Unlocks(s, steps)) <==> !Stranded(s)
  {
    if Stranded(s) {
      forall steps | CanRun(s, steps)
        ensures !Unlocks(s, steps)
      {
        StrandedForever(s, steps);
      }
    } else if s.current.Some? {
      var steps := OwnerCanRelease(s, s.current.value);
    } else if s.installing.Some? {
      var steps := OwnerCanRelease(s, s.installing.value);
    } else {
      RunsOn(s, [], LaunchFails({}));
      assert Unlocks(s, [] + [LaunchFails({})]);
    }
  }

  /** Both happen: a disconnect between construction and installation, and an exception there. */
  lemma LeaseCanBeStranded() returns (early: seq<Step>, given: seq<Step>)
    ensures CanRun(START, early) && Final(START, early).locked && Stranded(Final(START, early))
    ensures Final(START, early).current == Some(1)
    ensures CanRun(START, given) && Final(START, given).locked && Stranded(Final(START, given))
    ensures Final(START, given).current == None
  {
    RunsOn(START, [], Acquire(0));
    var acquired := [] + [Acquire(0)];
    RunsOn(START, acquired, Abandon({}));
    given := acquired + [Abandon({})];
    early := acquired;
    RunsOn(START, early, Construct(1, {}, {}));
    early := early + [Construct(1, {}, {})];
    RunsOn(START, early, MarkReleased(1, Disconnected));
    early := early + [MarkReleased(1, Disconnected)];
    RunsOn(START, early, FinishRelease(1));
    early := early + [FinishRelease(1)];
    RunsOn(START, early, Install);
    early := early + [Install];
    assert Owner(Final(START, early), 1);
  }
}
