/**
 The checkpoint ledger of backend/email_service.py: a digest reports the difference
 between the open jobs and the stored snapshot, and only a sent digest moves the snapshot.
 */
module DigestLedger {
  import opened Wrappers

  type Key = string     // job_identity
  type Job = string     // the display fields of a job; never compared

  datatype ChangeType = Added | Removed

  /** A row of email_digest_job_changes. */
  datatype Change = Change(digest: string, key: Key, kind: ChangeType, job: Job)

  datatype Result = Disabled | ConfigurationFailed | DeliveryFailed | BaselineEstablished | NoChanges | Sent

  /** The status column of email_digests. */
  datatype Status = Sending | Failed | Skipped | BaselineStored | Sent

  /** The status a digest is filed under in the end, if it is filed at all. */
  function StatusAfter(result: Result, databaseError: bool): Option<Status> {
    match result
    case Disabled => None
    case ConfigurationFailed => Some(Failed)
    case BaselineEstablished => if databaseError then None else Some(BaselineStored)
    case NoChanges => Some(Skipped)
    case Sent => Some(if databaseError then Sending else Status.Sent)
    case DeliveryFailed => Some(if databaseError then Sending else Failed)
  }

  /** What a digest comes to, short of errors on the way. */
  predicate Decided(result: Result, enabled: bool, configured: bool, established: bool, unchanging: bool) {
    if !enabled then result == Disabled
    else if !configured then result == ConfigurationFailed
    else if !established then result == BaselineEstablished
    else if unchanging then result == NoChanges
    else result in {Result.Sent, DeliveryFailed}
  }

  /** Whether a digest moved the checkpoint. */
  predicate Recorded(result: Result, databaseError: bool) {
    result in {BaselineEstablished, Result.Sent} && !databaseError
  }

  // ---- The ledger as a log --------------------------------------------------

  function Step(keys: set<Key>, change: Change): set<Key> {
    match change.kind
    case Added => keys + {change.key}
    case Removed => keys - {change.key}
  }

  /** The key set that the recorded changes, applied in order, turn a baseline into. */
  function Replay(keys: set<Key>, changes: seq<Change>): set<Key>
    decreases |changes|
  {
    if changes == [] then keys else Replay(Step(keys, changes[0]), changes[1..])
  }

  lemma {:induction false} ReplayConcat(keys: set<Key>, a: seq<Change>, b: seq<Change>)
    ensures Replay(keys, a + b) == Replay(Replay(keys, a), b)
    decreases |a|
  {
    if a == [] {
      assert a + b == b;
    } else {
      assert (a + b)[1..] == a[1..] + b;
      ReplayConcat(Step(keys, a[0]), a[1..], b);
    }
  }

  /** The entries about one job, oldest first. */
  function HistoryOf(changes: seq<Change>, key: Key): seq<ChangeType> {
    if changes == [] then []
    else (if changes[0].key == key then [changes[0].kind] else []) + HistoryOf(changes[1..], key)
  }

  /** "added" and "removed" strictly alternate; the first entry is "removed" exactly if
      the job was in the baseline. */
  predicate Alternates(history: seq<ChangeType>, inBaseline: bool) {
    forall i :: 0 <= i < |history| ==> history[i] == if (i % 2 == 0) == inBaseline then Removed else Added
  }

  /** Each change is a real one: an added key was absent, a removed key present. */
  predicate Consistent(keys: set<Key>, changes: seq<Change>)
    decreases |changes|
  {
    changes == [] ||
    ((changes[0].kind == Added <==> changes[0].key !in keys) && Consistent(Step(keys, changes[0]), changes[1..]))
  }

  lemma {:induction false} ConsistentConcat(keys: set<Key>, a: seq<Change>, b: seq<Change>)
    requires Consistent(keys, a) && Consistent(Replay(keys, a), b)
    ensures Consistent(keys, a + b)
    decreases |a|
  {
    if a == [] {
      assert a + b == b;
    } else {
      assert (a + b)[1..] == a[1..] + b;
      ConsistentConcat(Step(keys, a[0]), a[1..], b);
    }
  }

  lemma {:induction false} ConsistentAlternates(keys: set<Key>, changes: seq<Change>, key: Key)
    requires Consistent(keys, changes)
    ensures Alternates(HistoryOf(changes, key), key in keys)
    ensures key in Replay(keys, changes) <==> (|HistoryOf(changes, key)| % 2 == 0) == (key in keys)
    decreases |changes|
  {
    if changes != [] {
      var rest := HistoryOf(changes[1..], key);
      ConsistentAlternates(Step(keys, changes[0]), changes[1..], key);
      if changes[0].key == key {
        assert HistoryOf(changes, key) == [changes[0].kind] + rest;
        forall i | 0 <= i < |rest| + 1
          ensures ([changes[0].kind] + rest)[i] == if (i % 2 == 0) == (key in keys) then Removed else Added
        {
          if i > 0 {
            assert ([changes[0].kind] + rest)[i] == rest[i - 1];
          }
        }
      } else {
        assert HistoryOf(changes, key) == rest;
      }
    }
  }

  // ---- The difference of two job maps ---------------------------------------

  /** The rows of one kind for a list of keys, in that order. */
  function Rows(digest: string, keys: seq<Key>, kind: ChangeType, jobs: map<Key, Job>): seq<Change>
    requires forall i :: 0 <= i < |keys| ==> keys[i] in jobs
  {
    seq(|keys|, i requires 0 <= i < |keys| => Change(digest, keys[i], kind, jobs[keys[i]]))
  }

  /** A list of the given keys without repetition, such as sorted() makes of a set. */
  predicate Enumerates(list: seq<Key>, keys: set<Key>) {
    && (forall i :: 0 <= i < |list| ==> list[i] in keys)
    && (forall k :: k in keys ==> k in list)
    && (forall i, j :: 0 <= i < j < |list| ==> list[i] != list[j])
  }

  lemma {:induction false} RowsReplay(
    digest: string, list: seq<Key>, kind: ChangeType, jobs: map<Key, Job>, keys: set<Key>)
    requires forall i :: 0 <= i < |list| ==> list[i] in jobs
    ensures Replay(keys, Rows(digest, list, kind, jobs)) ==
      if kind == Added then keys + (set k | k in list) else keys - (set k | k in list)
    decreases |list|
  {
    var rows := Rows(digest, list, kind, jobs);
    if list == [] {
      assert rows == [];
    } else {
      assert rows[1..] == Rows(digest, list[1..], kind, jobs);
      assert (set k | k in list) == {list[0]} + (set k | k in list[1..]);
      RowsReplay(digest, list[1..], kind, jobs, Step(keys, rows[0]));
    }
  }

  lemma {:induction false} RowsConsistent(
    digest: string, list: seq<Key>, kind: ChangeType, jobs: map<Key, Job>, keys: set<Key>)
    requires forall i :: 0 <= i < |list| ==> list[i] in jobs
    requires forall i, j :: 0 <= i < j < |list| ==> list[i] != list[j]
    requires forall i :: 0 <= i < |list| ==> (list[i] in keys <==> kind == Removed)
    ensures Consistent(keys, Rows(digest, list, kind, jobs))
    decreases |list|
  {
    var rows := Rows(digest, list, kind, jobs);
    if list != [] {
      assert rows[1..] == Rows(digest, list[1..], kind, jobs);
      RowsConsistent(digest, list[1..], kind, jobs, Step(keys, rows[0]));
    }
  }

  /** The rows of one digest: the additions, then the removals. */
  ghost predicate IsDifference(rows: seq<Change>, previous: map<Key, Job>, current: map<Key, Job>) {
    exists digest, added, removed ::
      && Enumerates(added, current.Keys - previous.Keys)
      && Enumerates(removed, previous.Keys - current.Keys)
      && rows == Rows(digest, added, Added, current) + Rows(digest, removed, Removed, previous)
  }

  /** The rows of one digest, as the code lists them. */
  function DigestRows(
    digest: string, added: seq<Key>, removed: seq<Key>, previous: map<Key, Job>, current: map<Key, Job>)
    : (rows: seq<Change>)
    requires Enumerates(added, current.Keys - previous.Keys) && Enumerates(removed, previous.Keys - current.Keys)
    ensures IsDifference(rows, previous, current)
  {
    Rows(digest, added, Added, current) + Rows(digest, removed, Removed, previous)
  }

  /** What a digest of the difference between two snapshots turns any key set into. */
  lemma DifferenceReplays(rows: seq<Change>, previous: map<Key, Job>, current: map<Key, Job>, view: set<Key>)
    requires IsDifference(rows, previous, current)
    ensures Replay(view, rows) == view + (current.Keys - previous.Keys) - (previous.Keys - current.Keys)
  {
    var digest, added, removed :|
      && Enumerates(added, current.Keys - previous.Keys)
      && Enumerates(removed, previous.Keys - current.Keys)
      && rows == Rows(digest, added, Added, current) + Rows(digest, removed, Removed, previous);
    RowsReplay(digest, added, Added, current, view);
    RowsReplay(digest, removed, Removed, previous, view + set k | k in added);
    ReplayConcat(view, Rows(digest, added, Added, current), Rows(digest, removed, Removed, previous));
    assert (set k | k in added) == current.Keys - previous.Keys;
    assert (set k | k in removed) == previous.Keys - current.Keys;
  }

  lemma DifferenceConsistent(rows: seq<Change>, previous: map<Key, Job>, current: map<Key, Job>)
    requires IsDifference(rows, previous, current)
    ensures Consistent(previous.Keys, rows)
  {
    var digest, added, removed :|
      && Enumerates(added, current.Keys - previous.Keys)
      && Enumerates(removed, previous.Keys - current.Keys)
      && rows == Rows(digest, added, Added, current) + Rows(digest, removed, Removed, previous);
    RowsConsistent(digest, added, Added, current, previous.Keys);
    RowsReplay(digest, added, Added, current, previous.Keys);
    RowsConsistent(digest, removed, Removed, previous, previous.Keys + set k | k in added);
    ConsistentConcat(previous.Keys, Rows(digest, added, Added, current), Rows(digest, removed, Removed, previous));
  }

  /** A reader who follows every mail holds the right job set after the next one exactly if
      each job he is wrong about has by then reached the state he believes: the digest never
      mentions the others. */
  lemma ReaderCatchesUp(rows: seq<Change>, previous: map<Key, Job>, current: map<Key, Job>, view: set<Key>)
    requires IsDifference(rows, previous, current)
    ensures Replay(view, rows) == current.Keys <==>
      forall k :: k in view + previous.Keys && (k in view) != (k in previous) ==> ((k in view) == (k in current))
  {
    DifferenceReplays(rows, previous, current, view);
    var after := Replay(view, rows);
    if after == current.Keys {
      forall k | k in view + previous.Keys && (k in view) != (k in previous)
        ensures (k in view) == (k in current)
      {
        assert k in after <==> k in current.Keys;
      }
    } else {
      var k :| (k in after) != (k in current.Keys);
      assert (k in view) != (k in previous) && k in view + previous.Keys;
    }
  }

  // ---- What a reader of the mails is wrong about ----------------------------

  /** A mail that reached the reader: the jobs it mentions, and whether it was recorded. A mail
      is not recorded if the send raised although the reader got it (one recipient of several
      refused, an error after the data), or if the checkpoint could not be written. */
  datatype Mail = Mail(recorded: bool, changed: set<Key>)

  function Changed(previous: map<Key, Job>, current: map<Key, Job>): set<Key> {
    (current.Keys - previous.Keys) + (previous.Keys - current.Keys)
  }

  /** The jobs about which the reader and the snapshot disagree after these mails. */
  function Wrong(mails: seq<Mail>): set<Key> {
    if mails == [] then {}
    else
      var last := mails[|mails| - 1];
      var before := Wrong(mails[..|mails| - 1]);
      if last.recorded then before - last.changed else before + last.changed
  }

  /** Mail `j` misled the reader about the job, and no recorded mail has mentioned it since. */
  predicate Misled(mails: seq<Mail>, j: nat, key: Key) {
    && j < |mails| && !mails[j].recorded && key in mails[j].changed
    && forall i :: j < i < |mails| && mails[i].recorded ==> key !in mails[i].changed
  }

  lemma {:induction false} WrongExactly(mails: seq<Mail>, key: Key)
    ensures key in Wrong(mails) <==> exists j: nat :: Misled(mails, j, key)
  {
    if mails != [] {
      var n := |mails| - 1;
      var before := mails[..n];
      WrongExactly(before, key);
      if mails[n].recorded && key in mails[n].changed {
        assert forall j: nat :: !Misled(mails, j, key);
      } else if !mails[n].recorded && key in mails[n].changed {
        assert Misled(mails, n, key);
      } else {
        forall j: nat
          ensures Misled(mails, j, key) <==> Misled(before, j, key)
        {
          if Misled(before, j, key) {
            assert forall i :: j < i < n ==> mails[i] == before[i];
          }
        }
      }
    }
  }

  /** What a reader disagrees about after one more mail, whatever he disagreed about before. */
  lemma MailMovesWrong(rows: seq<Change>, previous: map<Key, Job>, current: map<Key, Job>, view: set<Key>, key: Key)
    requires IsDifference(rows, previous, current)
    ensures (key in Replay(view, rows)) != (key in previous) <==>
      (key in view) != (key in previous) || key in Changed(previous, current)
    ensures (key in Replay(view, rows)) != (key in current) <==>
      (key in view) != (key in previous) && key !in Changed(previous, current)
  {
    DifferenceReplays(rows, previous, current, view);
  }

  /** A job that is added, told in a mail that is not recorded, and removed before the next digest:
      there is then nothing to report, and the reader keeps believing in it. */
  lemma ToldAndGone(digest: string, key: Key, job: Job)
    ensures exists rows, none ::
      && IsDifference(rows, map[], map[key := job]) && IsDifference(none, map[], map[])
      && none == [] && key in Replay(Replay({}, rows), none)
  {
    var empty: map<Key, Job>, full := map[], map[key := job];
    assert Enumerates([key], full.Keys - empty.Keys) && Enumerates([], empty.Keys - full.Keys);
    var rows := DigestRows(digest, [key], [], empty, full);
    assert Enumerates([], empty.Keys - empty.Keys);
    var none := DigestRows(digest, [], [], empty, empty);
    DifferenceReplays(rows, empty, full, {});
    assert none == [];
  }

  lemma NothingToReport(added: seq<Key>, removed: seq<Key>, current: map<Key, Job>, previous: map<Key, Job>)
    requires Enumerates(added, current.Keys - previous.Keys)
    requires Enumerates(removed, previous.Keys - current.Keys)
    ensures added == [] && removed == [] <==> current.Keys == previous.Keys
  {
    if added == [] && removed == [] {
      assert forall k :: k in current.Keys - previous.Keys ==> k in added;
      assert forall k :: k in previous.Keys - current.Keys ==> k in removed;
      assert current.Keys - previous.Keys == {} == previous.Keys - current.Keys;
    } else {
      var k := if added != [] then added[0] else removed[0];
      assert (k in current.Keys) != (k in previous.Keys);
    }
  }

  class EmailLedger {
    var checkpointEstablished: bool           // checkpoint_established_at is set
    var snapshot: map<Key, Job>               // email_snapshot_jobs
    var changes: seq<Change>                  // email_digest_job_changes
    var digests: map<string, Status>          // email_digests
    ghost var baseline: set<Key>              // the keys of the first baseline
    ghost var view: set<Key>                  // what a reader of the baseline and of every mail he got believes
    ghost var mails: seq<Mail>                // the mails he got since the baseline

    /** Nothing is reported before a baseline; after it the ledger explains the snapshot, and the
        reader is wrong about exactly the jobs that his mails account for. */
    ghost predicate Valid()
      reads this
    {
      if !checkpointEstablished then changes == [] && mails == []
      else
        && Consistent(baseline, changes) && Replay(baseline, changes) == snapshot.Keys
        && forall k :: (k in view) != (k in snapshot) <==> k in Wrong(mails)
    }

    constructor ()
      ensures Valid() && !checkpointEstablished && changes == [] && mails == []
    {
      checkpointEstablished, snapshot, changes, digests := false, map[], [], map[];
      baseline, view, mails := {}, {}, [];
    }

    /** Over any run: the entries about a job alternate, starting from the baseline, and
        their number tells whether the job is in the snapshot. */
    lemma LedgerTelescopes(key: Key)
      requires Valid() && checkpointEstablished
      ensures Replay(baseline, changes) == snapshot.Keys
      ensures Alternates(HistoryOf(changes, key), key in baseline)
      ensures key in snapshot <==> (|HistoryOf(changes, key)| % 2 == 0) == (key in baseline)
    {
      ConsistentAlternates(baseline, changes, key);
    }

    /** Over any run: the reader is wrong about a job exactly if a mail that was not recorded told
        him about it and no recorded mail has mentioned it since. */
    lemma ReaderIsWrongExactly(key: Key)
      requires Valid() && checkpointEstablished
      ensures (key in view) != (key in snapshot) <==> exists j: nat :: Misled(mails, j, key)
    {
      WrongExactly(mails, key);
    }

    /** sorted(keys): some list of exactly these keys. */
    method ListKeys(keys: set<Key>) returns (list: seq<Key>)
      ensures Enumerates(list, keys)
    {
      list := [];
      var rest := keys;
      while rest != {}
        invariant rest <= keys && Enumerates(list, keys - rest)
        decreases |rest|
      {
        var k :| k in rest;
        rest := rest - {k};
        list := list + [k];
      }
      assert keys - rest == keys;
    }

    /** _store_baseline: one transaction. */
    method StoreBaseline(id: string, current: map<Key, Job>) returns (ok: bool)
      requires Valid() && !checkpointEstablished
      modifies this`digests, this`snapshot, this`checkpointEstablished, this`baseline, this`view
      ensures Valid()
      ensures ok ==> checkpointEstablished && snapshot == current && baseline == view == current.Keys
      ensures ok ==> digests == old(digests)[id := BaselineStored]
      ensures !ok ==> unchanged(this)
    {
      ok := *;
      if ok {
        digests := digests[id := BaselineStored];
        snapshot, checkpointEstablished := current, true;
        baseline, view := current.Keys, current.Keys;
      }
    }

    /** _advance_checkpoint: one transaction, after the mail has left. */
    method AdvanceCheckpoint(id: string, rows: seq<Change>, current: map<Key, Job>) returns (ok: bool)
      requires Valid() && checkpointEstablished && IsDifference(rows, snapshot, current)
      modifies this`digests, this`changes, this`snapshot, this`view, this`mails
      ensures Valid()
      ensures view == Replay(old(view), rows) && mails == old(mails) + [Mail(ok, Changed(old(snapshot), current))]
      ensures ok ==> snapshot == current && changes == old(changes) + rows && digests == old(digests)[id := Status.Sent]
      ensures !ok ==> unchanged(this`digests, this`changes, this`snapshot)
    {
      ok := *;
      Tell(rows, current, ok);
      if ok {
        DifferenceReplays(rows, snapshot, current, snapshot.Keys);
        DifferenceConsistent(rows, snapshot, current);
        ReplayConcat(baseline, changes, rows);
        ConsistentConcat(baseline, changes, rows);
        digests := digests[id := Status.Sent];
        changes := changes + rows;
        snapshot := current;
      }
    }

    /** The reader gets a mail. */
    ghost method Tell(rows: seq<Change>, current: map<Key, Job>, recorded: bool)
      requires Valid() && checkpointEstablished && IsDifference(rows, snapshot, current)
      modifies this`view, this`mails
      ensures view == Replay(old(view), rows)
      ensures mails == old(mails) + [Mail(recorded, Changed(snapshot, current))]
      ensures forall k :: (k in view) != (k in if recorded then current else snapshot) <==> k in Wrong(mails)
    {
      forall k
        ensures (k in Replay(view, rows)) != (k in if recorded then current else snapshot) <==>
          k in Wrong(mails + [Mail(recorded, Changed(snapshot, current))])
      {
        MailMovesWrong(rows, snapshot, current, view, k);
        assert (mails + [Mail(recorded, Changed(snapshot, current))])[..|mails|] == mails;
      }
      view := Replay(view, rows);
      mails := mails + [Mail(recorded, Changed(snapshot, current))];
    }

    /** The part of send_job_digest from the "Sending" row on. Sending may raise although the mail
        reached a reader; `told` says whether it reached the one whose view is followed. */
    method Deliver(id: string, added: seq<Key>, removed: seq<Key>, current: map<Key, Job>)
      returns (result: Result, databaseError: bool, mail: seq<Change>, ghost told: bool)
      requires Valid() && checkpointEstablished
      requires Enumerates(added, current.Keys - snapshot.Keys) && Enumerates(removed, snapshot.Keys - current.Keys)
      modifies this`digests, this`changes, this`snapshot, this`view, this`mails
      ensures Valid() && result in {Result.Sent, DeliveryFailed} && IsDifference(mail, old(snapshot), current)
      ensures result == Result.Sent ==> told
      ensures view == if told then Replay(old(view), mail) else old(view)
      ensures mails == old(mails) +
        if told then [Mail(result == Result.Sent && !databaseError, Changed(old(snapshot), current))] else []
      ensures if result == Result.Sent && !databaseError
        then snapshot == current && changes == old(changes) + mail
        else unchanged(this`changes, this`snapshot)
      ensures digests == old(digests)[id :=
        if result == Result.Sent && !databaseError then Status.Sent else if databaseError then Sending else Failed]
    {
      digests := digests[id := Sending];
      mail := DigestRows(id, added, removed, snapshot, current);
      var raised: bool := *;
      if raised {
        told := *;
        if told {
          Tell(mail, current, false);
        }
        databaseError := *;
        if !databaseError {
          digests := digests[id := Failed];
        }
        return DeliveryFailed, databaseError, mail, told;
      }
      var recorded := AdvanceCheckpoint(id, mail, current);
      return Result.Sent, !recorded, mail, true;
    }

    /** The part of send_job_digest that compares with the snapshot. */
    method ReportChanges(id: string, current: map<Key, Job>)
      returns (result: Result, databaseError: bool, mail: seq<Change>, ghost told: bool)
      requires Valid() && checkpointEstablished
      modifies this`digests, this`changes, this`snapshot, this`view, this`mails
      ensures Valid()
      ensures if current.Keys == old(snapshot).Keys
        then result == NoChanges else result in {Result.Sent, DeliveryFailed}
      ensures result == NoChanges ==>
        !told && !databaseError && digests == old(digests)[id := Skipped]
        && unchanged(this`changes, this`snapshot, this`view, this`mails)
      ensures result != NoChanges ==> IsDifference(mail, old(snapshot), current)
      ensures result == Result.Sent ==> told
      ensures view == if told then Replay(old(view), mail) else old(view)
      ensures mails == old(mails) +
        if told then [Mail(result == Result.Sent && !databaseError, Changed(old(snapshot), current))] else []
      ensures if result == Result.Sent && !databaseError
        then snapshot == current && changes == old(changes) + mail
        else unchanged(this`changes, this`snapshot)
      ensures result != NoChanges ==> digests == old(digests)[id :=
        if result == Result.Sent && !databaseError then Status.Sent else if databaseError then Sending else Failed]
    {
      var added := ListKeys(current.Keys - snapshot.Keys);
      var removed := ListKeys(snapshot.Keys - current.Keys);
      NothingToReport(added, removed, current, snapshot);
      if added == [] && removed == [] {
        digests := digests[id := Skipped];
        return NoChanges, false, [], false;
      }
      result, databaseError, mail, told := Deliver(id, added, removed, current);
    }

    /** send_job_digest. `current` is the open jobs, read while the caller holds the gate;
        `databaseError` says that the last statement was rolled back, `mail` is what was sent,
        `told` whether it reached the reader. */
    method SendJobDigest(id: string, scheduled: bool, enabled: bool, configured: bool, current: map<Key, Job>)
      returns (result: Result, databaseError: bool, mail: seq<Change>, ghost told: bool)
      requires Valid() && id !in digests
      modifies this
      ensures Valid()
      // Only a recorded baseline and a recorded mail move the ledger or the snapshot.
      ensures !Recorded(result, databaseError) ==>
        && snapshot == old(snapshot) && changes == old(changes) && baseline == old(baseline)
        && checkpointEstablished == old(checkpointEstablished)
      ensures result == BaselineEstablished ==> !old(checkpointEstablished) && mails == old(mails)
      ensures result == BaselineEstablished && !databaseError ==>
        && checkpointEstablished && snapshot == current && baseline == view == current.Keys && changes == old(changes)
      // A mail tells the whole difference since the last recorded one.
      ensures result in {Result.Sent, DeliveryFailed} ==>
        old(checkpointEstablished) && checkpointEstablished && IsDifference(mail, old(snapshot), current)
      ensures result == Result.Sent && !databaseError ==>
        snapshot == current && baseline == old(baseline) && changes == old(changes) + mail
      // The reader hears of it if the mail was sent, and perhaps if sending raised.
      ensures result == Result.Sent ==> told
      ensures told ==> result in {Result.Sent, DeliveryFailed}
      ensures result != BaselineEstablished ==> view == if told then Replay(old(view), mail) else old(view)
      ensures mails == old(mails) +
        if told then [Mail(Recorded(result, databaseError), Changed(old(snapshot), current))] else []
      // What is done depends on the switch, the configuration, the checkpoint and the difference.
      ensures Decided(
        result, !scheduled || enabled, configured, old(checkpointEstablished), current.Keys == old(snapshot).Keys)
      ensures result !in {Result.Sent, DeliveryFailed, BaselineEstablished} ==> !databaseError
      ensures digests == match StatusAfter(result, databaseError)
        case None => old(digests)
        case Some(status) => old(digests)[id := status]
    {
      databaseError, mail, told := false, [], false;
      if scheduled && !enabled {
        return Disabled, false, [], false;
      }
      if !configured {
        digests := digests[id := Failed];
        return ConfigurationFailed, false, [], false;
      }
      if !checkpointEstablished {
        var stored := StoreBaseline(id, current);
        return BaselineEstablished, !stored, [], false;
      }
      result, databaseError, mail, told := ReportChanges(id, current);
    }
  }
}
