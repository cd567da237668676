/** The bounded queue of backend/utility_tasks.py that works off the groups of one refresh. */
module LookupQueue {
  import opened Wrappers

  datatype Result = Updated | NoInformationFound | Failed | Unchanged

  datatype Summary = Summary(processed: nat, updated: nat, noInformationFound: nat, failed: nat, unaltered: nat,
                             results: seq<(nat, Result)>)

  datatype Ending = Completed | Cancelled | SaveFailed

  function CountOf(results: seq<(nat, Result)>, r: Result): nat {
    if results == [] then 0
    else CountOf(results[..|results| - 1], r) + if results[|results| - 1].1 == r then 1 else 0
  }

  /** The counters say what the list of results says. */
  predicate Tallies(s: Summary) {
    && s.processed == |s.results|
    && s.updated == CountOf(s.results, Updated) && s.noInformationFound == CountOf(s.results, NoInformationFound)
    && s.failed == CountOf(s.results, Failed) && s.unaltered == CountOf(s.results, Unchanged)
  }

  /** The four outcome counters add up to processedCount. */
  lemma {:induction false} CountersAddUp(results: seq<(nat, Result)>)
    ensures CountOf(results, Updated) + CountOf(results, NoInformationFound) + CountOf(results, Failed)
      + CountOf(results, Unchanged) == |results|
    decreases |results|
  {
    if results != [] {
      CountersAddUp(results[..|results| - 1]);
    }
  }

  function Counted(s: Summary, group: nat, r: Result): Summary {
    var t := s.(processed := s.processed + 1, results := s.results + [(group, r)]);
    match r
    case Updated => t.(updated := s.updated + 1)
    case NoInformationFound => t.(noInformationFound := s.noInformationFound + 1)
    case Failed => t.(failed := s.failed + 1)
    case Unchanged => t.(unaltered := s.unaltered + 1)
  }

  lemma CountedTallies(s: Summary, group: nat, r: Result)
    requires Tallies(s)
    ensures Tallies(Counted(s, group, r))
  {
    assert (s.results + [(group, r)])[..|s.results|] == s.results;
  }

  /** The groups that have a result. */
  function Reported(results: seq<(nat, Result)>): set<nat> {
    if results == [] then {} else Reported(results[..|results| - 1]) + {results[|results| - 1].0}
  }

  /** The first n group numbers. */
  function UpTo(n: nat): set<nat> {
    if n == 0 then {} else UpTo(n - 1) + {n - 1}
  }

  lemma {:induction false} UpToMembers(n: nat)
    ensures |UpTo(n)| == n && forall g :: g in UpTo(n) <==> 0 <= g < n
  {
    if n > 0 {
      UpToMembers(n - 1);
    }
  }

  /** Groups are handed out in order: those before `next` are under way, dropped or reported,
      and the numbers leave no room for a group to be two of these or reported twice. */
  predicate Accounted(s: Summary, pending: set<nat>, dropped: set<nat>, next: nat) {
    && pending + dropped + Reported(s.results) == UpTo(next)
    && |pending| + |dropped| + |s.results| == next
  }

  lemma {:induction false} ReportedAtMost(results: seq<(nat, Result)>)
    ensures |Reported(results)| <= |results|
    decreases |results|
  {
    if results != [] {
      ReportedAtMost(results[..|results| - 1]);
    }
  }

  lemma AccountsAreExclusive(s: Summary, pending: set<nat>, dropped: set<nat>, next: nat)
    requires Accounted(s, pending, dropped, next)
    ensures pending !! dropped && (pending + dropped) !! Reported(s.results) && |Reported(s.results)| == |s.results|
  {
    ReportedAtMost(s.results);
    UpToMembers(next);
    var both := pending + dropped;
    assert |both| + |pending * dropped| == |pending| + |dropped|;
    assert |both + Reported(s.results)| + |both * Reported(s.results)| == |both| + |Reported(s.results)|;
    assert both + Reported(s.results) == UpTo(next);
    assert |pending * dropped| == 0 && |both * Reported(s.results)| == 0;
    assert forall x :: x in pending && x in dropped ==> x in pending * dropped;
    assert forall x :: x in both && x in Reported(s.results) ==> x in both * Reported(s.results);
  }

  lemma FinishAccounts(s: Summary, pending: set<nat>, dropped: set<nat>, next: nat, g: nat, r: Result)
    requires Accounted(s, pending, dropped, next) && g in pending
    ensures Accounted(Counted(s, g, r), pending - {g}, dropped, next) && |pending - {g}| == |pending| - 1
  {
    var results := s.results + [(g, r)];
    assert results[..|s.results|] == s.results;
    assert g in pending + dropped + Reported(s.results);
    assert Reported(results) == Reported(s.results) + {g};
    assert (pending - {g}) + dropped + Reported(results) == pending + dropped + Reported(s.results);
  }

  lemma DropAccounts(s: Summary, pending: set<nat>, dropped: set<nat>, next: nat, g: nat)
    requires Accounted(s, pending, dropped, next) && g in pending
    ensures Accounted(s, pending - {g}, dropped + {g}, next)
  {
    AccountsAreExclusive(s, pending, dropped, next);
    assert (pending - {g}) + (dropped + {g}) == pending + dropped;
  }

  lemma SubmitAccounts(s: Summary, pending: set<nat>, dropped: set<nat>, next: nat)
    requires Accounted(s, pending, dropped, next)
    ensures next !in pending && Accounted(s, pending + {next}, dropped, next + 1)
  {
    UpToMembers(next);
    assert pending <= pending + dropped + Reported(s.results);
    assert next !in UpTo(next);
    assert (pending + {next}) + dropped + Reported(s.results) == (pending + dropped + Reported(s.results)) + {next};
  }

  lemma SummaryAddsUp(s: Summary)
    requires Tallies(s)
    ensures s.processed == s.updated + s.noInformationFound + s.failed + s.unaltered
  {
    CountersAddUp(s.results);
  }

  lemma NothingLeft(s: Summary, next: nat)
    requires Tallies(s) && Accounted(s, {}, {}, next)
    ensures s.processed == next && Reported(s.results) == UpTo(next)
  {
    assert {} + {} + Reported(s.results) == Reported(s.results);
  }

  class RefreshQueue {
    const total: nat
    const maxWorkers: nat
    var next: nat                     // group_iterator
    var pending: set<nat>             // futures not yet collected, by group
    var cancelled: bool               // set by somebody else at any time, never cleared
    var summary: Summary
    ghost var dropped: set<nat>       // collected without a result
    ghost var broken: bool            // saving a result or reporting progress raised

    ghost predicate Valid()
      reads this
    {
      && Tallies(summary) && Accounted(summary, pending, dropped, next) && next <= total
      && |pending| <= maxWorkers && maxWorkers >= 1 && (dropped != {} ==> cancelled || broken)
    }

    /** No worker idles while there is work, unless the run is being cancelled. */
    ghost predicate Saturated()
      reads this
    {
      cancelled || next == total || |pending| == maxWorkers
    }

    constructor (total: nat, workerLimit: int, cancelled: bool)
      ensures Valid() && this.total == total && next == 0 && pending == {} && summary.results == [] && !broken
      ensures this.cancelled == cancelled && dropped == {}
      ensures maxWorkers ==
        if workerLimit < 1 || total < 1 then 1 else if workerLimit < total then workerLimit else total
    {
      this.total := total;
      maxWorkers := if workerLimit < 1 || total < 1 then 1 else if workerLimit < total then workerLimit else total;
      next, pending, summary, dropped, broken := 0, {}, Summary(0, 0, 0, 0, 0, []), {}, false;
      this.cancelled := cancelled;
    }

    /** Another thread may ask for cancellation between any two steps. */
    method TimePasses()
      modifies this`cancelled
      ensures old(cancelled) ==> cancelled
    {
      var asked: bool := *;
      cancelled := cancelled || asked;
    }

    /** submit_next. The progress callback may raise after the group was taken: then nobody looks
        the group up. */
    method SubmitNext() returns (ok: bool, raised: bool)
      requires Valid() && |pending| < maxWorkers
      modifies this`next, this`pending, this`dropped, this`broken
      ensures Valid() && broken == (old(broken) || raised)
      ensures ok ==> !raised && next == old(next) + 1 && pending == old(pending) + {old(next)}
      ensures ok ==> |pending| == |old(pending)| + 1
      ensures !ok ==> pending == old(pending)
      ensures raised ==> !ok && next == old(next) + 1 && dropped == old(dropped) + {old(next)}
      ensures !raised ==> dropped == old(dropped)
      ensures !ok && !raised ==> (cancelled || next == total) && next == old(next)
    {
      if cancelled || next == total {
        return false, false;
      }
      SubmitAccounts(summary, pending, dropped, next);
      var more := pending + {next};
      raised := *;
      if raised {
        DropAccounts(summary, more, dropped, next + 1, next);
        assert more - {next} == pending;
        dropped, next, broken := dropped + {next}, next + 1, true;
        return false, true;
      }
      assert Accounted(summary, more, dropped, next + 1) && |more| == |pending| + 1;
      pending, next := more, next + 1;
      return true, false;
    }

    /** What happens to one finished future: it is reported, unless the cancellation of the run
        interrupted it or its result could not be saved. */
    method Collect(g: nat) returns (raised: bool, interrupted: bool, ghost saved: Option<Result>)
      requires Valid() && Saturated() && g in pending
      modifies this
      ensures Valid() && (old(cancelled) ==> cancelled) && broken == (old(broken) || raised)
      ensures !raised ==> Saturated()
      ensures summary == if saved.Some? then Counted(old(summary), g, saved.value) else old(summary)
      ensures interrupted && cancelled ==> saved == None && !raised
      ensures !(interrupted && cancelled) && !raised ==> saved.Some?
      ensures old(pending) - {g} <= pending && next >= old(next)
      ensures 2 * (total - next) + |pending| < 2 * (total - old(next)) + |old(pending)|
    {
      TimePasses();
      interrupted := *;
      if cancelled && interrupted {
        Drop(g);
        return false, interrupted, None;
      }
      ghost var unsaved;
      raised, saved, unsaved := Report(g);
      if !raised {
        var submitted;
        submitted, raised := SubmitNext();
      }
    }

    /** A finished lookup is saved, counted and reported. */
    method Report(g: nat) returns (raised: bool, ghost saved: Option<Result>, ghost unsaved: bool)
      requires Valid() && g in pending
      modifies this`pending, this`summary, this`dropped, this`broken
      ensures Valid() && broken == (old(broken) || raised)
      ensures summary == if saved.Some? then Counted(old(summary), g, saved.value) else old(summary)
      ensures (saved == None <==> unsaved) && (unsaved ==> raised)
      ensures pending == old(pending) - {g} && |pending| == |old(pending)| - 1
    {
      raised, saved := *, None;     // _save_company_refresh_group may raise
      unsaved := raised;
      if raised {
        broken := true;
        Drop(g);
        return;
      }
      var result: Result := *;      // a discovery that raises counts as Failed
      Finish(g, result);
      saved := Some(result);
      raised := *;                  // and so may the progress callback
      broken := broken || raised;
    }

    method Drop(g: nat)
      requires Valid() && g in pending && (cancelled || broken)
      modifies this`pending, this`dropped
      ensures Valid() && pending == old(pending) - {g} && |pending| == |old(pending)| - 1
    {
      DropAccounts(summary, pending, dropped, next, g);
      pending, dropped := pending - {g}, dropped + {g};
    }

    method Finish(g: nat, result: Result)
      requires Valid() && g in pending
      modifies this`pending, this`summary
      ensures Valid() && pending == old(pending) - {g} && |pending| == |old(pending)| - 1
      ensures summary == Counted(old(summary), g, result)
    {
      CountedTallies(summary, g, result);
      FinishAccounts(summary, pending, dropped, next, g, result);
      var counted, left := Counted(summary, g, result), pending - {g};
      assert Tallies(counted) && Accounted(counted, left, dropped, next);
      pending, summary := left, counted;
    }

    method CollectAll(finished: set<nat>) returns (raised: bool)
      requires Valid() && Saturated() && finished <= pending && finished != {}
      modifies this
      ensures Valid() && (!raised ==> Saturated()) && broken == (old(broken) || raised)
      ensures 2 * (total - next) + |pending| < 2 * (total - old(next)) + |old(pending)|
    {
      var rest := finished;
      while rest != {}
        invariant Valid() && Saturated() && rest <= pending && broken == old(broken)
        invariant 2 * (total - next) + |pending| <= 2 * (total - old(next)) + |old(pending)|
        invariant rest != finished ==> 2 * (total - next) + |pending| < 2 * (total - old(next)) + |old(pending)|
        decreases |rest|
      {
        var g :| g in rest;
        rest := rest - {g};
        var interrupted;
        ghost var saved;
        raised, interrupted, saved := Collect(g);
        if raised {
          return;
        }
      }
      raised := false;
    }

    /** The executor block of refresh_missing_company_information. */
    method Run() returns (ending: Ending)
      requires Valid() && next == 0 && pending == {} && dropped == {} && summary.results == [] && !broken
      requires maxWorkers <= total || total == 0
      modifies this
      ensures Valid()
      // Every group is reported exactly once; a cancelled run reports some of them.
      ensures ending == Completed ==>
        (total == 0 || !cancelled) && summary.processed == total && Reported(summary.results) == UpTo(total)
      ensures ending == Cancelled ==> cancelled && pending == {}
      ensures ending == SaveFailed <==> broken
      ensures summary.processed == summary.updated + summary.noInformationFound + summary.failed + summary.unaltered
    {
      var raised := false;
      if total > 0 {
        raised := Fill();
        if !raised {
          raised := Drain();
        }
      }
      SummaryAddsUp(summary);
      if raised {
        return SaveFailed;
      }
      if total > 0 && cancelled {
        return Cancelled;
      }
      NothingLeft(summary, next);
      return Completed;
    }

    /** The loop over finished futures. */
    method Drain() returns (raised: bool)
      requires Valid() && Saturated() && !broken
      modifies this
      ensures Valid() && broken == raised && (!raised ==> pending == {} && Saturated())
    {
      while pending != {}
        invariant Valid() && Saturated() && !broken
        decreases 2 * (total - next) + |pending|
      {
        // wait(..., FIRST_COMPLETED): some futures have finished, in any number and order.
        var first :| first in pending;
        var more: set<nat> := *;
        raised := CollectAll({first} + (more * pending));
        if raised {
          return;
        }
      }
      raised := false;
    }

    /** The first max_workers submissions. */
    method Fill() returns (raised: bool)
      requires Valid() && next == 0 && pending == {} && maxWorkers <= total
      modifies this
      ensures Valid() && (!raised ==> Saturated()) && broken == (old(broken) || raised)
    {
      for n := 0 to maxWorkers
        invariant Valid() && |pending| == n && broken == old(broken)
      {
        TimePasses();
        var ok;
        ok, raised := SubmitNext();
        if !ok {
          return;
        }
      }
      raised := false;
    }
  }
}
