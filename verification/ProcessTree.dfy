/**
 The process-tree functions of backend/outbound_security.py: the fixpoint that collects
 the descendants of a set of PIDs, and the bounded, identity-checked teardown above it.
 */
module ProcessTree {
  type Pid = nat

  /** What /proc/<pid>/stat says: parent, start time, and whether the task has terminated. */
  datatype Stat = Stat(parent: Pid, start: nat, terminated: bool)

  datatype Identity = Identity(pid: Pid, start: nat)

  // ---- The fixpoint ---------------------------------------------------------

  /** Each element is the parent of the one before it, and the last one is a root. */
  predicate IsChain(parents: map<Pid, Pid>, roots: set<Pid>, chain: seq<Pid>) {
    && |chain| > 0
    && chain[|chain| - 1] in roots
    && forall i :: 0 <= i < |chain| - 1 ==> chain[i] in parents && parents[chain[i]] == chain[i + 1]
  }

  ghost predicate ReachesRoot(parents: map<Pid, Pid>, roots: set<Pid>, pid: Pid) {
    exists chain :: IsChain(parents, roots, chain) && chain[0] == pid
  }

  lemma RootReaches(parents: map<Pid, Pid>, roots: set<Pid>, pid: Pid)
    requires pid in roots
    ensures ReachesRoot(parents, roots, pid)
  {
    assert IsChain(parents, roots, [pid]) && [pid][0] == pid;
  }

  lemma ChildReaches(parents: map<Pid, Pid>, roots: set<Pid>, pid: Pid)
    requires pid in parents && ReachesRoot(parents, roots, parents[pid])
    ensures ReachesRoot(parents, roots, pid)
  {
    var chain :| IsChain(parents, roots, chain) && chain[0] == parents[pid];
    var longer := [pid] + chain;
    assert longer[0] == pid && longer[|longer| - 1] in roots;
    assert forall i :: 0 < i < |longer| ==> longer[i] == chain[i - 1];
    assert IsChain(parents, roots, longer);
  }

  /** A set that contains the roots and is closed under "child of" holds every chain. */
  lemma {:induction false} ClosedHoldsChain(parents: map<Pid, Pid>, roots: set<Pid>, closed: set<Pid>, chain: seq<Pid>)
    requires roots <= closed && IsChain(parents, roots, chain)
    requires forall pid :: pid in parents && parents[pid] in closed ==> pid in closed
    ensures chain[0] in closed
    decreases |chain|
  {
    if |chain| > 1 {
      assert chain[1..][|chain| - 2] == chain[|chain| - 1];
      assert forall i :: 0 <= i < |chain| - 1 ==> chain[1..][i] == chain[i + 1];
      ClosedHoldsChain(parents, roots, closed, chain[1..]);
    }
  }

  /** _descendant_pids over one reading of /proc, whatever order it is walked in. */
  method DescendantPids(roots: set<Pid>, parents: map<Pid, Pid>) returns (result: set<Pid>)
    ensures forall pid :: pid in result <==>
      pid in roots || (pid in parents && ReachesRoot(parents, roots, pid))
  {
    result := roots;
    var changed := true;
    forall pid | pid in roots
      ensures ReachesRoot(parents, roots, pid)
    {
      RootReaches(parents, roots, pid);
    }
    while changed
      invariant roots <= result
      invariant forall pid :: pid in result ==> pid in roots || pid in parents
      invariant forall pid :: pid in result ==> ReachesRoot(parents, roots, pid)
      invariant !changed ==> forall pid :: pid in parents && parents[pid] in result ==> pid in result
      decreases parents.Keys - result, changed
    {
      changed := false;
      ghost var before := result;
      var unvisited := parents.Keys;
      while unvisited != {}
        invariant before <= result && unvisited <= parents.Keys
        invariant forall pid :: pid in result ==> pid in roots || pid in parents
        invariant forall pid :: pid in result ==> ReachesRoot(parents, roots, pid)
        invariant changed <==> result != before
        invariant !changed ==>
          forall pid :: pid in parents && pid !in unvisited && parents[pid] in result ==> pid in result
        decreases |unvisited|
      {
        var pid :| pid in unvisited;
        unvisited := unvisited - {pid};
        if pid !in result && parents[pid] in result {
          ChildReaches(parents, roots, pid);
          result := result + {pid};
          changed := true;
        }
      }
      if changed {
        ghost var added :| added in result && added !in before;
        assert added in parents.Keys - before;
      }
    }
    forall pid | pid in parents && ReachesRoot(parents, roots, pid)
      ensures pid in result
    {
      var chain :| IsChain(parents, roots, chain) && chain[0] == pid;
      ClosedHoldsChain(parents, roots, result, chain);
    }
  }

  // ---- Reaping --------------------------------------------------------------

  datatype Signal = SigTerm | SigKill

  /** One round of signals: the live roots it started from, the reading of /proc it
      used, and the PIDs it signalled. */
  datatype Round = Round(signal: Signal, roots: set<Pid>, parents: map<Pid, Pid>, targets: set<Pid>)

  /** Only recorded roots and, in that reading, processes below them; never ourselves. */
  ghost predicate Justified(round: Round, recorded: map<Pid, nat>, self: Pid) {
    && round.roots != {} && round.roots <= recorded.Keys
    && forall pid :: pid in round.targets <==>
         pid in round.roots || (pid != self && pid in round.parents && ReachesRoot(round.parents, round.roots, pid))
  }

  class ProcessTable {
    const self: Pid
    const procAvailable: bool       // a Linux host with /proc
    var stats: map<Pid, Stat>
    var gone: set<Identity>         // identities that have been seen to end; none ever returns
    ghost var rounds: seq<Round>
    ghost var shown: set<(Pid, Pid)>   // every process with every parent that the table has shown for it

    ghost predicate Valid()
      reads this
    {
      && (forall pid :: pid in stats ==> (pid, stats[pid].parent) in shown)
      && forall pid :: pid in stats && !stats[pid].terminated ==> Identity(pid, stats[pid].start) !in gone
    }

    /** _proc_alive. */
    predicate Alive(pid: Pid, start: nat)
      reads this
    {
      pid in stats && stats[pid].start == start && !stats[pid].terminated
    }

    /** What was alive is alive or seen to have ended. */
    twostate predicate Accounted()
      reads this
    {
      forall pid, start :: old(Alive(pid, start)) ==> Alive(pid, start) || Identity(pid, start) in gone
    }

    /** The table is whatever it has become, except that no ended identity is alive again. */
    method TimePasses()
      requires Valid()
      modifies this`stats, this`gone, this`shown
      ensures Valid() && old(gone) <= gone && old(shown) <= shown
      ensures Accounted()
      ensures forall pid, start :: !old(Alive(pid, start)) && Identity(pid, start) in old(gone) ==> !Alive(pid, start)
    {
      var next: map<Pid, Stat> := *;
      gone := gone + set pid |
        pid in stats && !(pid in next && next[pid].start == stats[pid].start && !next[pid].terminated)
                       :: Identity(pid, stats[pid].start);
      stats := map pid | pid in next && (next[pid].terminated || Identity(pid, next[pid].start) !in gone) :: next[pid];
      shown := shown + set pid | pid in stats :: (pid, stats[pid].parent);
    }

    /** _live_recorded_procs, one identity at a time while the world moves on. What is
        reported live was not gone at the start; what is not reported is gone for good. */
    method LiveRecorded(recorded: map<Pid, nat>) returns (live: set<Pid>)
      requires Valid()
      modifies this`stats, this`gone, this`shown
      ensures Valid() && old(gone) <= gone && Accounted()
      ensures live <= recorded.Keys
      ensures forall pid :: pid in live ==> Identity(pid, recorded[pid]) !in old(gone)
      ensures forall pid :: pid in recorded && pid !in live ==> Identity(pid, recorded[pid]) in gone
    {
      live := {};
      var unchecked := recorded.Keys;
      while unchecked != {}
        invariant Valid() && old(gone) <= gone && Accounted()
        invariant unchecked <= recorded.Keys && live <= recorded.Keys - unchecked
        invariant forall pid :: pid in live ==> Identity(pid, recorded[pid]) !in old(gone)
        invariant forall pid :: pid in recorded && pid !in unchecked && pid !in live ==>
          Identity(pid, recorded[pid]) in gone
        decreases |unchecked|
      {
        var pid :| pid in unchecked;
        unchecked := unchecked - {pid};
        TimePasses();
        if pid in stats && stats[pid].start == recorded[pid] && !stats[pid].terminated {
          live := live + {pid};
        } else {
          gone := gone + {Identity(pid, recorded[pid])};
        }
      }
    }

    /** Every recorded process is over, by PID and start time. */
    ghost predicate AllGone(recorded: map<Pid, nat>)
      reads this
    {
      forall pid :: pid in recorded ==> Identity(pid, recorded[pid]) in gone
    }

    ghost predicate Shown(parents: map<Pid, Pid>)
      reads this
    {
      forall pid :: pid in parents ==> (pid, parents[pid]) in shown
    }

    /** One reading of the parents in /proc, entry by entry. A process that lives all the while is in
        it, and nobody under a parent that the table has never shown for it. */
    method ReadParents() returns (parents: map<Pid, Pid>)
      requires Valid()
      modifies this`stats, this`gone, this`shown
      ensures Valid() && old(gone) <= gone
      ensures Shown(parents)
      ensures forall pid, start :: old(Alive(pid, start)) ==> pid in parents || Identity(pid, start) in gone
    {
      parents := map[];
      var listed := stats.Keys;
      while listed != {}
        invariant Valid() && old(gone) <= gone
        invariant Shown(parents)
        invariant Accounted()
        invariant forall pid, start :: old(Alive(pid, start)) ==>
          pid in parents || pid in listed || Identity(pid, start) in gone
        decreases |listed|
      {
        var pid :| pid in listed;
        listed := listed - {pid};
        TimePasses();
        if pid in stats {
          parents := parents[pid := stats[pid].parent];
        }
      }
    }

    /** _live_tree followed by _signal_pids: nothing at all unless a root is still live. */
    method SignalLiveTree(recorded: map<Pid, nat>, signal: Signal)
      requires Valid() && procAvailable
      modifies this
      ensures Valid() && old(gone) <= gone
      ensures rounds == old(rounds) ==> AllGone(recorded)
      ensures rounds == old(rounds) || (|rounds| == |old(rounds)| + 1 && rounds[..|old(rounds)|] == old(rounds))
      ensures rounds != old(rounds) ==>
        var round := rounds[|rounds| - 1];
        && Justified(round, recorded, self) && round.signal == signal && Shown(round.parents)
        && (forall pid :: pid in recorded && pid !in round.roots ==> Identity(pid, recorded[pid]) in gone)
        && forall pid :: pid in round.roots ==> Identity(pid, recorded[pid]) !in old(gone)
      // What lives all the while is in the reading.
      ensures rounds != old(rounds) ==>
        var parents := rounds[|rounds| - 1].parents;
        forall pid, start :: old(Alive(pid, start)) ==> pid in parents || Identity(pid, start) in gone
      ensures old(AllGone(recorded)) ==> rounds == old(rounds)
    {
      var liveRoots := LiveRecorded(recorded);
      if liveRoots == {} {
        return;
      }
      assert !old(AllGone(recorded)) by {
        var pid :| pid in liveRoots;
      }
      var parents := ReadParents();
      var tree := DescendantPids(liveRoots, parents);
      var targets := (tree - {self}) + liveRoots;
      ghost var round := Round(signal, liveRoots, parents, targets);
      forall pid
        ensures pid in targets <==>
          pid in liveRoots || (pid != self && pid in parents && ReachesRoot(parents, liveRoots, pid))
      {
      }
      rounds := rounds + [round];
      TimePasses();
    }

    /** _wait_until(roots_gone, grace): at least one look, then as many as the clock allows. */
    method WaitUntilGone(recorded: map<Pid, nat>) returns (ok: bool)
      requires Valid()
      modifies this`stats, this`gone, this`shown
      ensures Valid() && old(gone) <= gone
      ensures ok ==> AllGone(recorded)
      ensures old(AllGone(recorded)) ==> ok
    {
      var looks: nat := *;
      var live := LiveRecorded(recorded);
      ok := live == {};
      while !ok && looks > 0
        invariant Valid() && old(gone) <= gone
        invariant ok ==> AllGone(recorded)
        invariant old(AllGone(recorded)) ==> ok
      {
        looks := looks - 1;
        live := LiveRecorded(recorded);
        ok := live == {};
      }
    }

    /** _reap_browser_process_tree. It reports success only when every recorded identity is
        over, signals nothing but trees of roots that were live when it started, and
        signals nothing at all if none was. */
    method Reap(recorded: map<Pid, nat>) returns (terminated: bool)
      requires Valid()
      modifies this
      ensures Valid() && old(gone) <= gone
      ensures terminated ==> AllGone(recorded)
      ensures procAvailable && old(AllGone(recorded)) ==> terminated
      ensures !procAvailable ==> terminated == (recorded == map[])
      ensures |rounds| >= |old(rounds)| && rounds[..|old(rounds)|] == old(rounds)
      // First SIGTERM, then SIGKILL, and both before it gives up.
      ensures |rounds| <= |old(rounds)| + 2
      ensures |rounds| > |old(rounds)| ==> rounds[|old(rounds)|].signal == SigTerm
      ensures |rounds| > |old(rounds)| + 1 ==> rounds[|old(rounds)| + 1].signal == SigKill
      ensures procAvailable && !terminated ==> |rounds| == |old(rounds)| + 2
      ensures forall i :: |old(rounds)| <= i < |rounds| ==>
        && Justified(rounds[i], recorded, self)
        && forall pid :: pid in rounds[i].roots ==> Identity(pid, recorded[pid]) !in old(gone)
      ensures old(AllGone(recorded)) || !procAvailable ==> rounds == old(rounds)
    {
      if recorded == map[] {
        return true;
      }
      if !procAvailable {
        return false;
      }
      terminated := WaitUntilGone(recorded);
      if terminated {
        return;
      }
      SignalLiveTree(recorded, SigTerm);
      ghost var afterTerm := rounds;
      terminated := WaitUntilGone(recorded);
      if terminated {
        return;
      }
      SignalLiveTree(recorded, SigKill);
      terminated := WaitUntilGone(recorded);
      assert afterTerm == rounds || rounds[..|afterTerm|] == afterTerm;
    }
  }
}
