/**
 The restore protocol of backend/backup_restore.py: stage the validated backup,
 preserve the stopped fileset, checkpoint the target, quarantine its sidecars,
 switch by one atomic rename, verify, and roll back when verification fails.

 The target's directory is a map from file names to bytes. Every file operation
 may fail: `ok := *` stands for whatever the operating system decides. A ghost
 set records what a reader would have found after every single step, so that a
 crash can be placed between any two of them.
 */
module RestoreProtocol {
  import opened Wrappers

  type Bytes = seq<bv8>

  /** The database as a reader sees it. Its structure does not matter here. */
  type Content = map<string, string>

  /** What SQLite and the hash contribute: the logical content of a base file
      read together with its write-ahead log (empty when there is none), and the
      digest that manifests record. */
  datatype Engine = Engine(content: (Bytes, Bytes) -> Content, digest: Bytes -> string)

  ghost predicate Injective(f: Bytes -> string) {
    forall a, b :: f(a) == f(b) ==> a == b
  }

  datatype Name =
    | Base
    | Wal
    | Shm
    | Stage
    | StageWal
    | StageShm
    | Quarantined(original: Name, token: nat)
    | RollbackCopy(token: nat)

  type Files = map<Name, Bytes>

  /** A sidecar that was renamed away: its canonical name and where it is now. */
  datatype Move = Move(original: Name, quarantine: Name)

  datatype Outcome =
    | Success(retainedQuarantine: bool)
    | Refused         // an error raised before the switch
    | RolledBack      // "the prior database state was restored"
    | RollbackFailed  // "the pre-restore fileset was retained for manual recovery"

  predicate IsSidecar(n: Name) {
    n == Wal || n == Shm
  }

  predicate IsCanonical(n: Name) {
    n == Base || IsSidecar(n)
  }

  /** Base, WAL and shared-memory file together, absence included. */
  function Fileset(files: Files): Files {
    map n | n in files && IsCanonical(n) :: files[n]
  }

  predicate Agree(f: Files, g: Files, n: Name) {
    (n in f <==> n in g) && (n in f ==> g[n] == f[n])
  }

  /** The two directories differ at most in the given names. */
  ghost predicate AgreeOutside(f: Files, g: Files, names: set<Name>) {
    forall n :: n !in names ==> Agree(f, g, n)
  }

  /** The two directories differ at most in sidecars and quarantined sidecars. */
  ghost predicate AgreeBesidesSidecars(f: Files, g: Files) {
    forall n: Name :: !n.Quarantined? && !IsSidecar(n) ==> Agree(f, g, n)
  }

  function WalBytes(files: Files): Bytes {
    if Wal in files then files[Wal] else []
  }

  /** What the raw preservation of a stopped directory must hold; nothing if there are no files. */
  function Preservable(files: Files): Option<Files> {
    if Fileset(files) == map[] then None else Some(Fileset(files))
  }

  /** The database that a process opening the canonical name would see. */
  function Logical(engine: Engine, files: Files): Option<Content> {
    if Base in files then Some(engine.content(files[Base], WalBytes(files))) else None
  }

  /** The same with every sidecar detached. */
  function Bare(engine: Engine, files: Files): Option<Content> {
    if Base in files then Some(engine.content(files[Base], [])) else None
  }

  /** What a reader may find while bytes are written to a file from its start. */
  ghost function Writing(engine: Engine, files: Files, n: Name, bytes: Bytes): set<Option<Content>> {
    set k | 0 <= k <= |bytes| :: Logical(engine, files[n := bytes[..k]])
  }

  /** The base file with every front of its log: what copying the log back leads through. */
  ghost function Torn(engine: Engine, files: Files): set<Option<Content>> {
    if Base in files
    then set k | 0 <= k <= |WalBytes(files)| :: Some(engine.content(files[Base], WalBytes(files)[..k]))
    else {None}
  }

  /** The two databases a reader of the canonical name is meant to find. */
  ghost function OldOrNew(engine: Engine, start: Files, backup: Bytes): set<Option<Content>> {
    {Logical(engine, start), Some(engine.content(backup, []))}
  }

  /** Torn begins with the bare base and ends with the database itself. */
  lemma TornEnds(engine: Engine, files: Files)
    ensures {Bare(engine, files), Logical(engine, files)} <= Torn(engine, files)
    ensures WalBytes(files) == [] ==> Torn(engine, files) <= {Logical(engine, files)}
  {
    if Base in files {
      var wal := WalBytes(files);
      assert wal[..0] == [] && wal[..|wal|] == wal;
      assert Some(engine.content(files[Base], wal[..0])) in Torn(engine, files);
      assert Some(engine.content(files[Base], wal[..|wal|])) in Torn(engine, files);
    }
  }

  /** Writing the log back beside its base leads through Torn; other files show nothing new. */
  lemma WritingIsTorn(engine: Engine, files: Files, n: Name, preserved: Files)
    requires IsSidecar(n) && n in preserved && Agree(preserved, files, Base)
    ensures n == Wal ==> Writing(engine, files, n, preserved[n]) == Torn(engine, preserved)
    ensures n == Shm ==> Writing(engine, files, n, preserved[n]) <= {Logical(engine, files)}
  {
    var bytes := preserved[n];
    forall k | 0 <= k <= |bytes|
      ensures n == Wal && Base in files ==>
        Logical(engine, files[n := bytes[..k]]) == Some(engine.content(preserved[Base], bytes[..k]))
      ensures n == Shm || Base !in files ==> Logical(engine, files[n := bytes[..k]]) == Logical(engine, files)
    {
      assert WalBytes(files[n := bytes[..k]]) == if n == Wal then bytes[..k] else WalBytes(files);
    }
    if n == Wal {
      forall v | v in Writing(engine, files, n, bytes)
        ensures v in Torn(engine, preserved)
      {
        var k :| 0 <= k <= |bytes| && v == Logical(engine, files[n := bytes[..k]]);
        if Base in files {
          assert v == Some(engine.content(preserved[Base], WalBytes(preserved)[..k]));
        } else {
          assert v == None;
        }
      }
      forall v | v in Torn(engine, preserved)
        ensures v in Writing(engine, files, n, bytes)
      {
        if Base in files {
          var k :| 0 <= k <= |bytes| && v == Some(engine.content(preserved[Base], bytes[..k]));
          assert v == Logical(engine, files[n := bytes[..k]]);
        } else {
          assert v == Logical(engine, files[n := bytes[..0]]);
        }
      }
    }
  }

  /** What a restore that switched has shown in the end, from what it had shown at the switch. */
  lemma SwitchedShows(
    engine: Engine, start: Files, backup: Bytes, switched: set<Option<Content>>, ended: set<Option<Content>>)
    requires OldOrNew(engine, start, backup) <= switched
    requires switched <= OldOrNew(engine, start, backup) + {Bare(engine, start)}
    requires switched <= ended <= switched + Torn(engine, start)
    ensures ended <= OldOrNew(engine, start, backup) + Torn(engine, start)
    ensures Torn(engine, start) <= ended ==>
      && ended == OldOrNew(engine, start, backup) + Torn(engine, start)
      && (ended <= OldOrNew(engine, start, backup) <==> Torn(engine, start) <= OldOrNew(engine, start, backup))
  {
    TornEnds(engine, start);
  }

  /** The preserved fileset shows the same. */
  lemma TornOfFileset(engine: Engine, files: Files)
    ensures Torn(engine, Fileset(files)) == Torn(engine, files)
    ensures Fileset(files) == map[] ==> Torn(engine, map[]) == Torn(engine, files)
  {
    assert WalBytes(Fileset(files)) == WalBytes(files);
    assert Base in files <==> Base in Fileset(files);
  }

  function TokenOf(n: Name): nat {
    match n
    case Quarantined(_, token) => token
    case RollbackCopy(token) => token
    case _ => 0
  }

  /** g is f with sidecars possibly renamed away; the base file is the same. */
  predicate SidecarsDetached(f: Files, g: Files) {
    && (Base in f <==> Base in g)
    && (Base in f ==> g[Base] == f[Base])
    && (Wal in g ==> Wal in f && g[Wal] == f[Wal])
  }

  /** The bytes of sidecar n survive under its own name or a quarantine name. */
  ghost predicate Survives(n: Name, bytes: Bytes, files: Files) {
    || (n in files && files[n] == bytes)
    || exists t :: Quarantined(n, t) in files && files[Quarantined(n, t)] == bytes
  }

  /** Every recorded move holds, at its quarantine name, the bytes of its sidecar. */
  ghost predicate Records(moved: seq<Move>, before: Files, files: Files) {
    && (forall i :: 0 <= i < |moved| ==>
          && IsSidecar(moved[i].original)
          && moved[i].quarantine.Quarantined?
          && moved[i].quarantine.original == moved[i].original
          && moved[i].original in before
          && moved[i].quarantine in files
          && files[moved[i].quarantine] == before[moved[i].original])
    && (forall i, j :: 0 <= i < j < |moved| ==> moved[i].original != moved[j].original)
  }

  /** The sidecar is at its quarantine name for this token, if it existed at all. */
  predicate Gone(n: Name, before: Files, now: Files, token: nat) {
    n !in now && (n in before ==> Quarantined(n, token) in now && now[Quarantined(n, token)] == before[n])
  }

  predicate Untouched(n: Name, before: Files, now: Files, token: nat) {
    Agree(before, now, n) && Quarantined(n, token) !in now
  }

  /** The first i sidecars are in quarantine and recorded, the others untouched. */
  ghost predicate Detaching(before: Files, now: Files, moved: seq<Move>, token: nat, i: nat) {
    && SidecarsDetached(before, now) && Records(moved, before, now) && AgreeBesidesSidecars(before, now)
    && (if i == 0 then Untouched(Wal, before, now, token) else Gone(Wal, before, now, token))
    && (if i < 2 then Untouched(Shm, before, now, token) else Gone(Shm, before, now, token))
    && (i == 0 ==> moved == [])
    && (i <= 1 ==> forall j :: 0 <= j < |moved| ==> moved[j].original == Wal)
  }

  /** One turn of the loop of _quarantine_sidecars, whether or not the sidecar was recorded. */
  lemma DetachingNext(
    before: Files, was: Files, now: Files, moved: seq<Move>, extended: seq<Move>, token: nat, i: nat)
    requires i < 2 && Detaching(before, was, moved, token, i)
    requires var sidecar := if i == 0 then Wal else Shm;
      && AgreeOutside(was, now, {sidecar, Quarantined(sidecar, token)}) && AgreeBesidesSidecars(was, now)
      && SidecarsDetached(before, now)
      && (extended == moved || extended == moved + [Move(sidecar, Quarantined(sidecar, token))])
      && (Gone(sidecar, before, now, token) || now == was)
    ensures Gone(if i == 0 then Wal else Shm, before, now, token) && Records(extended, before, now) ==>
      Detaching(before, now, extended, token, i + 1)
    ensures Wal in before ==> Survives(Wal, before[Wal], now)
    ensures Shm in before ==> Survives(Shm, before[Shm], now)
    ensures AgreeBesidesSidecars(before, now)
  {
    BesidesChain(before, was, now);
    assert Agree(was, now, Wal) || i == 0;
    assert Agree(was, now, Shm) || i == 1;
    assert Agree(was, now, Quarantined(Wal, token)) || i == 0;
    assert Agree(was, now, Quarantined(Shm, token)) || i == 1;
  }

  function MovedBytes(files: Files, move: Move): Bytes {
    if move.quarantine in files then files[move.quarantine] else []
  }

  /** Touching the last move's names leaves the earlier moves recorded. */
  lemma StillRecorded(moved: seq<Move>, i: nat, before: Files, f: Files, g: Files)
    requires i < |moved| && Records(moved, before, f)
    requires AgreeOutside(f, g, {moved[i].original, moved[i].quarantine})
    ensures Records(moved[..i], before, g)
  {
    forall j | 0 <= j < i
      ensures moved[j].quarantine in g && g[moved[j].quarantine] == before[moved[j].original]
    {
      assert moved[j].original != moved[i].original;
      assert Agree(f, g, moved[j].quarantine);
    }
  }

  /** From the i-th on, every recorded sidecar that was gone is back under its name. */
  ghost predicate Back(moved: seq<Move>, i: nat, before: Files, was: Files, now: Files) {
    forall j :: i <= j < |moved| && moved[j].original !in was ==>
      && moved[j].original in now
      && moved[j].original in before && now[moved[j].original] == before[moved[j].original]
  }

  /** The names of the first i recorded sidecars are as they were. */
  ghost predicate Waiting(moved: seq<Move>, i: nat, was: Files, now: Files) {
    forall j :: 0 <= j < i && j < |moved| ==> Agree(was, now, moved[j].original)
  }

  /** One turn of the loop that puts sidecars back. */
  lemma BackNext(moved: seq<Move>, i: nat, before: Files, start: Files, was: Files, now: Files)
    requires i < |moved| && Records(moved[..i + 1], before, was) && Waiting(moved, i + 1, start, was)
    requires forall j, k :: 0 <= j < k < |moved| ==> moved[j].original != moved[k].original
    requires forall j :: 0 <= j < |moved| ==> IsSidecar(moved[j].original) && moved[j].quarantine.Quarantined?
    requires AgreeOutside(was, now, {moved[i].original, moved[i].quarantine})
    requires var n := moved[i].original;
      n in now ==> now[n] == (if n in was then was[n] else MovedBytes(was, moved[i]))
    ensures Waiting(moved, i, start, now)
    ensures Back(moved, i + 1, before, start, was) && moved[i].original in now ==> Back(moved, i, before, start, now)
  {
    assert moved[..i + 1][i] == moved[i];
    assert Agree(start, was, moved[i].original);
    forall j | 0 <= j < |moved| && j != i ensures Agree(was, now, moved[j].original) {
      assert moved[j].original != moved[i].original && !moved[j].original.Quarantined?;
    }
  }

  /** Every file of f is still in g, or was quarantined and is back under its original name. */
  ghost predicate NothingLost(f: Files, g: Files) {
    forall n: Name | n in f ::
      || (n in g && g[n] == f[n])
      || (n.Quarantined? && IsSidecar(n.original) && n.original in g && g[n.original] == f[n])
  }

  lemma NothingLostChain(f: Files, g: Files, h: Files)
    requires NothingLost(f, g) && NothingLost(g, h)
    ensures NothingLost(f, h)
  {
  }

  lemma BesidesChain(f: Files, g: Files, h: Files)
    requires AgreeBesidesSidecars(f, g) && AgreeBesidesSidecars(g, h)
    ensures AgreeBesidesSidecars(f, h)
  {
    forall n: Name | !n.Quarantined? && !IsSidecar(n)
      ensures Agree(f, h, n)
    {
      assert Agree(f, g, n) && Agree(g, h, n);
    }
  }

  lemma SurvivesUndoing(f: Files, g: Files)
    requires NothingLost(f, g)
    ensures forall n, b :: IsSidecar(n) && Survives(n, b, f) ==> Survives(n, b, g)
  {
    forall n, b | IsSidecar(n) && Survives(n, b, f)
      ensures Survives(n, b, g)
    {
      if !(n in f && f[n] == b) {
        var t :| Quarantined(n, t) in f && f[Quarantined(n, t)] == b;
      }
    }
  }

  lemma AgreeChain(f: Files, g: Files, h: Files, names: set<Name>)
    requires AgreeOutside(f, g, names) && AgreeOutside(g, h, names)
    ensures AgreeOutside(f, h, names)
  {
    forall n | n !in names
      ensures Agree(f, h, n)
    {
      assert Agree(f, g, n) && Agree(g, h, n);
    }
  }

  /** Only the stage differs. */
  lemma StagingKeepsCanonical(f: Files, g: Files)
    requires AgreeOutside(f, g, {Stage, StageWal, StageShm})
    ensures Fileset(f) == Fileset(g) && SidecarsDetached(f, g) && WalBytes(f) == WalBytes(g)
    ensures forall b :: Survives(Wal, b, f) ==> Survives(Wal, b, g)
    ensures forall engine :: Logical(engine, f) == Logical(engine, g)
  {
    assert Agree(f, g, Base) && Agree(f, g, Wal) && Agree(f, g, Shm);
    forall b | Survives(Wal, b, f)
      ensures Survives(Wal, b, g)
    {
      if !(Wal in f && f[Wal] == b) {
        var t :| Quarantined(Wal, t) in f && f[Quarantined(Wal, t)] == b;
        assert Agree(f, g, Quarantined(Wal, t));
      }
    }
  }

  /** An engine that finds the log, or without one the base, in its only row. */
  lemma LastBytesEngine() returns (engine: Engine, text: Bytes -> string)
    ensures Injective(engine.digest) && Injective(text)
    ensures forall b, w :: engine.content(b, w) == map["row" := text(if w == [] then b else w)]
  {
    text := (b: Bytes) => seq(|b|, i requires 0 <= i < |b| => b[i] as char);
    engine := Engine((b, w) => map["row" := text(if w == [] then b else w)], text);
    forall a, b | text(a) == text(b)
      ensures a == b
    {
      assert |text(a)| == |a| && |text(b)| == |b|;
      forall i | 0 <= i < |a|
        ensures i < |b| && a[i] == b[i]
      {
        assert text(a)[i] == text(b)[i];
      }
    }
  }

  /** Passing the inspection, and so reaching the checkpoint, is needed: with a log that
      changes a row, detaching it shows a database that is neither old nor new. */
  lemma UninspectedLogWitness() returns (engine: Engine, start: Files, backup: Bytes)
    ensures Injective(engine.digest) && Base in start
    ensures Bare(engine, start) != Logical(engine, start)
    ensures Bare(engine, start) != Some(engine.content(backup, []))
  {
    var text;
    engine, text := LastBytesEngine();
    start, backup := map[Base := [1], Wal := [2]], [3];
    assert text([1]) != text([2]) && text([1]) != text([3]);
    assert engine.content([1], [])["row"] == text([1]);
    assert engine.content([1], [2])["row"] == text([2]);
    assert engine.content([3], [])["row"] == text([3]);
  }

  /** And passing it is not enough for a rollback: the log that was preserved before the
      checkpoint is written back behind its base, whose every front a reader may find. */
  lemma RollbackTearsWitness() returns (engine: Engine, start: Files, backup: Bytes)
    ensures Injective(engine.digest) && Base in start
    ensures Bare(engine, start) in Torn(engine, start) - OldOrNew(engine, start, backup)
    ensures exists v :: v in Torn(engine, start) - OldOrNew(engine, start, backup) && v != Bare(engine, start)
  {
    var text;
    engine, text := LastBytesEngine();
    start, backup := map[Base := [1], Wal := [2, 4]], [3];
    TornEnds(engine, start);
    assert text([1]) != text([2]) && text([1]) != text([3]) && text([1]) != text([2, 4]);
    assert text([2]) != text([3]) && text([2]) != text([2, 4]);
    assert engine.content([1], [])["row"] == text([1]);
    assert engine.content([1], [2])["row"] == text([2]);
    assert engine.content([1], [2, 4])["row"] == text([2, 4]);
    assert engine.content([3], [])["row"] == text([3]);
    assert WalBytes(start)[..1] == [2];
    var v := Some(engine.content(start[Base], WalBytes(start)[..1]));
    assert v in Torn(engine, start);
    assert v.value["row"] == text([2]);
    assert v in Torn(engine, start) - OldOrNew(engine, start, backup) && v != Bare(engine, start);
  }

  class TargetDirectory {
    const engine: Engine
    var files: Files
    var rawPreserved: Option<Files>  // the completed pre_restore_diagnostic directory
    var nextToken: nat               // uuid4: names built from it do not exist yet
    ghost var exposed: set<Option<Content>>  // what a reader could have found, step by step
    ghost var faults: nat                    // how many steps have reported a failure
    ghost var rejections: nat                // how many inspections of the target have failed

    ghost predicate Valid()
      reads this
    {
      && Injective(engine.digest)
      && Logical(engine, files) in exposed
      && (forall n, t: nat :: Quarantined(n, t) in files ==> t < nextToken)
      && (forall t: nat :: RollbackCopy(t) in files ==> t < nextToken)
    }

    /** Everything except the directory content itself is as before. */
    twostate predicate Extends()
      reads this
    {
      && Valid() && old(nextToken) <= nextToken
      && old(exposed) <= exposed && old(faults) <= faults && old(rejections) <= rejections
    }

    /** Quarantined sidecars and private copies of earlier restores may still be there; their
        names carry tokens below `nextToken`. */
    constructor (engine: Engine, files: Files, nextToken: nat)
      requires Injective(engine.digest)
      requires forall n, t: nat :: Quarantined(n, t) in files ==> t < nextToken
      requires forall t: nat :: RollbackCopy(t) in files ==> t < nextToken
      ensures Valid()
      ensures this.engine == engine && this.files == files && rawPreserved == None
      ensures exposed == {Logical(engine, files)} && faults == 0 && rejections == 0
    {
      this.engine, this.files, rawPreserved, this.nextToken := engine, files, None, nextToken;
      exposed, faults, rejections := {Logical(engine, files)}, 0, 0;
    }

    // ---- Single file operations -------------------------------------------

    /** Any operation that does not change the directory: chmod, fsync, a hash, an immutable inspection. */
    method Attempt() returns (ok: bool)
      modifies this`faults
      ensures faults == old(faults) + if ok then 0 else 1
    {
      ok := *;
      faults := faults + if ok then 0 else 1;
    }

    /** os.replace: atomic. */
    method Rename(source: Name, target: Name) returns (ok: bool)
      requires Valid() && source != target
      requires (target.Quarantined? || target.RollbackCopy?) ==> TokenOf(target) < nextToken
      modifies this`files, this`exposed, this`faults
      ensures Extends()
      ensures ok ==> source in old(files) && files == old(files)[target := old(files)[source]] - {source}
      ensures !ok ==> files == old(files)
      ensures exposed == old(exposed) + {Logical(engine, files)}
      ensures faults == old(faults) + if ok then 0 else 1
    {
      ok := *;
      if source !in files {
        ok := false;
      }
      faults := faults + if ok then 0 else 1;
      if ok {
        files := files[target := files[source]] - {source};
        exposed := exposed + {Logical(engine, files)};
      }
    }

    /** unlink(missing_ok=True). */
    method Unlink(n: Name) returns (ok: bool)
      requires Valid()
      modifies this`files, this`exposed, this`faults
      ensures Extends()
      ensures files == (if ok then old(files) - {n} else old(files))
      ensures exposed == old(exposed) + {Logical(engine, files)}
      ensures faults == old(faults) + if ok then 0 else 1
    {
      ok := Attempt();
      if ok {
        files := files - {n};
        exposed := exposed + {Logical(engine, files)};
      }
    }

    /** shutil.copy2 from the preserved directory: the bytes arrive from the front, and a failure
        can leave only a front of them behind. */
    method CopyIn(bytes: Bytes, n: Name) returns (ok: bool)
      requires Valid() && ((n.Quarantined? || n.RollbackCopy?) ==> TokenOf(n) < nextToken)
      modifies this`files, this`exposed, this`faults
      ensures Extends()
      ensures AgreeOutside(old(files), files, {n})
      ensures ok ==> files == old(files)[n := bytes]
      ensures exposed <= old(exposed) + Writing(engine, old(files), n, bytes)
      ensures ok ==> exposed == old(exposed) + Writing(engine, old(files), n, bytes)
      ensures faults == old(faults) + if ok then 0 else 1
    {
      var written: nat, finished: bool := *, *;
      var created := Attempt();
      if !created {
        return false;
      }
      written := if written < |bytes| then written else |bytes|;
      ok := finished && written == |bytes|;
      faults := faults + if ok then 0 else 1;
      ghost var before := files;
      files := files[n := bytes[..written]];
      exposed := exposed + set k | 0 <= k <= written :: Logical(engine, before[n := bytes[..k]]);
      assert bytes[..|bytes|] == bytes;
      assert Logical(engine, before[n := bytes[..written]]) in exposed;
    }

    method FreshToken() returns (token: nat)
      requires Valid()
      modifies this`nextToken
      ensures Extends()
      ensures token == old(nextToken) && nextToken == token + 1
    {
      token := nextToken;
      nextToken := nextToken + 1;
    }

    // ---- SQLite connections -----------------------------------------------

    /** The online backup writes the stage; its bytes are not trusted. */
    method OnlineBackupToStage() returns (ok: bool)
      requires Valid()
      modifies this`files, this`exposed, this`faults
      ensures Extends()
      ensures AgreeOutside(old(files), files, {Stage, StageWal, StageShm})
      ensures exposed == old(exposed) + {Logical(engine, files)}
      ensures faults == old(faults) + if ok then 0 else 1
    {
      ok := Attempt();
      var stage: Files := *;
      var kept := files - {Stage, StageWal, StageShm};
      files := kept + map n | n in stage && n in {Stage, StageWal, StageShm} :: stage[n];
      exposed := exposed + {Logical(engine, files)};
    }

    /** A read-only connection: it may rebuild or remove the shared-memory file and
        may create or remove an empty log, but it never changes committed bytes. */
    method OpenForReading() returns (ok: bool)
      requires Valid()
      modifies this`files, this`exposed
      ensures Extends()
      ensures AgreeOutside(old(files), files, {Wal, Shm})
      ensures WalBytes(files) == WalBytes(old(files))
      ensures exposed == old(exposed) + {Logical(engine, files)}
    {
      ok := *;
      var shm: Option<Bytes> := *;
      var dropEmpty: bool := *;
      var kept := files - {Wal, Shm};
      var next := kept;
      if shm.Some? {
        next := next[Shm := shm.value];
      }
      if WalBytes(files) != [] || !dropEmpty {
        next := next[Wal := WalBytes(files)];
      }
      files := next;
      exposed := exposed + {Logical(engine, files)};
    }

    /** inspect_sqlite_database of the target. A target that fails it is restored all the same. */
    method InspectTarget() returns (ok: bool)
      requires Valid()
      modifies this`files, this`exposed, this`rejections
      ensures Extends()
      ensures AgreeOutside(old(files), files, {Wal, Shm})
      ensures WalBytes(files) == WalBytes(old(files))
      ensures exposed == old(exposed) + {Logical(engine, files)}
      ensures rejections == old(rejections) + if ok then 0 else 1
    {
      ok := OpenForReading();
      rejections := rejections + if ok then 0 else 1;
    }

    /** PRAGMA wal_checkpoint(TRUNCATE). Whatever it does to the bytes, a busy or
        failed checkpoint included, the logical content is kept; success empties the log. */
    method CheckpointForSwitch() returns (ok: bool)
      requires Valid() && Base in files
      modifies this`files, this`exposed, this`faults
      ensures Extends()
      ensures Base in files && AgreeOutside(old(files), files, {Base, Wal, Shm})
      ensures Logical(engine, files) == old(Logical(engine, files))
      ensures ok ==> WalBytes(files) == []
      ensures exposed == old(exposed) + {Logical(engine, files)}
      ensures faults == old(faults) + if ok then 0 else 1
    {
      var base: Bytes := *;
      var wal: Bytes := *;
      var shm: Option<Bytes> := *;
      var kept := files - {Base, Wal, Shm};
      ok := engine.content(base, wal) == engine.content(files[Base], WalBytes(files));
      if ok {
        var next := kept[Base := base];
        if wal != [] {
          next := next[Wal := wal];
        }
        if shm.Some? {
          next := next[Shm := shm.value];
        }
        files := next;
      }
      var busy: bool := *;
      ok := ok && !busy && WalBytes(files) == [];
      faults := faults + if ok then 0 else 1;
      exposed := exposed + {Logical(engine, files)};
    }

    // ---- The protocol's functions -----------------------------------------

    /** _preserve_unvalidated_database: all three files, or an error. The rename of
        the finished directory can precede a failed directory flush. */
    method PreserveRawFileset() returns (ok: bool)
      requires Valid()
      modifies this`rawPreserved, this`faults
      ensures ok ==> Fileset(files) != map[] && rawPreserved == Some(Fileset(files))
      ensures !ok ==> rawPreserved == old(rawPreserved) || rawPreserved == Some(Fileset(files))
      ensures old(faults) <= faults && (Fileset(files) != map[] ==> (ok <==> faults == old(faults)))
    {
      var pending: Files := map[];
      var names := [Base, Wal, Shm];
      var i := 0;
      ok := Attempt();
      while ok && i < |names|
        invariant 0 <= i <= |names| && rawPreserved == old(rawPreserved)
        invariant old(faults) <= faults && (ok <==> faults == old(faults))
        invariant ok ==> pending == map n | n in files && n in names[..i] :: files[n]
      {
        if names[i] in files {
          ok := Attempt();
          pending := pending[names[i] := files[names[i]]];
        }
        i := i + 1;
      }
      if !ok {
        return;
      }
      assert names[..i] == names && names[0] == Base && names[1] == Wal && names[2] == Shm;
      assert pending == Fileset(files);
      if pending == map[] {
        return false;
      }
      ok := Attempt();  // manifest, modes, flush and rename of the pending directory
      if ok {
        rawPreserved := Some(pending);
        ok := Attempt();  // flush of the backup root
      }
    }

    /** One turn of the loop in _restore_quarantined_sidecars. */
    method RestoreOne(move: Move)
      requires Valid() && IsSidecar(move.original) && move.quarantine.Quarantined?
      requires move.quarantine.original == move.original
      modifies this`files, this`exposed, this`faults
      ensures Extends()
      ensures AgreeOutside(old(files), files, {move.original, move.quarantine})
      ensures AgreeBesidesSidecars(old(files), files)
      ensures NothingLost(old(files), files)
      ensures move.original in files ==>
        files[move.original] ==
          (if move.original in old(files) then old(files)[move.original] else MovedBytes(old(files), move))
      ensures move.original in files && move.original !in old(files) ==> move.quarantine in old(files)
      ensures faults == old(faults) && move.quarantine in old(files) ==> move.original in files
      ensures move.quarantine !in old(files) || move.original in old(files) ==>
        faults == old(faults) && files == old(files)
      ensures exposed == old(exposed) + {Logical(engine, files)}
    {
      if move.quarantine in files && move.original !in files {
        var _ := Rename(move.quarantine, move.original);
      }
    }

    method RestoreNext(moved: seq<Move>, i: nat, ghost before: Files, ghost start: Files)
      requires Valid() && i < |moved| && Records(moved[..i + 1], before, files)
      requires forall j :: 0 <= j < |moved| ==> IsSidecar(moved[j].original) && moved[j].quarantine.Quarantined?
      requires forall j, k :: 0 <= j < k < |moved| ==> moved[j].original != moved[k].original
      requires SidecarsDetached(before, files) && NothingLost(start, files) && AgreeBesidesSidecars(start, files)
      requires Waiting(moved, i + 1, start, files)
      modifies this`files, this`exposed, this`faults
      ensures Extends() && Records(moved[..i], before, files)
      ensures SidecarsDetached(before, files) && NothingLost(start, files) && AgreeBesidesSidecars(start, files)
      ensures exposed <= old(exposed) + {Logical(engine, before), Bare(engine, before)}
      ensures Waiting(moved, i, start, files)
      ensures faults == old(faults) && Back(moved, i + 1, before, start, old(files)) ==>
        Back(moved, i, before, start, files)
    {
      ghost var was := files;
      assert moved[..i + 1][i] == moved[i] && moved[..i + 1][..i] == moved[..i];
      assert Agree(start, was, moved[i].original);
      RestoreOne(moved[i]);
      BackNext(moved, i, before, start, was, files);
      NothingLostChain(start, was, files);
      assert Agree(was, files, Base);
      assert moved[i].original == Wal || Agree(was, files, Wal);
      StillRecorded(moved[..i + 1], i, before, was, files);
      BesidesChain(start, was, files);
    }

    /** _restore_quarantined_sidecars: best effort, in reverse, never overwriting. */
    method RestoreQuarantined(moved: seq<Move>, ghost before: Files)
      requires Valid() && Records(moved, before, files)
      requires SidecarsDetached(before, files)
      modifies this`files, this`exposed, this`faults
      ensures Extends()
      ensures SidecarsDetached(before, files)
      ensures exposed <= old(exposed) + {Logical(engine, before), Bare(engine, before)}
      ensures NothingLost(old(files), files)
      ensures AgreeBesidesSidecars(old(files), files)
      ensures moved == [] ==> files == old(files) && exposed == old(exposed)
      ensures faults == old(faults) ==> Back(moved, 0, before, old(files), files)
    {
      var i := |moved|;
      while i > 0
        invariant 0 <= i <= |moved|
        invariant i == |moved| ==> files == old(files) && exposed == old(exposed)
        invariant Extends() && SidecarsDetached(before, files)
        invariant Records(moved[..i], before, files)
        invariant exposed <= old(exposed) + {Logical(engine, before), Bare(engine, before)}
        invariant NothingLost(old(files), files)
        invariant AgreeBesidesSidecars(old(files), files)
        invariant Waiting(moved, i, old(files), files)
        invariant faults == old(faults) ==> Back(moved, i, before, old(files), files)
      {
        i := i - 1;
        RestoreNext(moved, i, before, old(files));
      }
    }

    /** One turn of the loop in _quarantine_sidecars. */
    method QuarantineOne(sidecar: Name, token: nat, moved: seq<Move>, ghost before: Files)
      returns (renamed: bool, privateMode: bool, extended: seq<Move>)
      requires Valid() && token < nextToken && IsSidecar(sidecar)
      requires Untouched(sidecar, before, files, token)
      requires SidecarsDetached(before, files) && Records(moved, before, files)
      requires forall i :: 0 <= i < |moved| ==> moved[i].original != sidecar
      modifies this`files, this`exposed, this`faults
      ensures Extends()
      ensures SidecarsDetached(before, files)
      ensures exposed <= old(exposed) + {Logical(engine, before), Bare(engine, before)}
      ensures renamed ==> Gone(sidecar, before, files, token)
      ensures !renamed ==> files == old(files) && extended == moved
      ensures renamed && privateMode ==> Records(extended, before, files)
      ensures extended == moved || extended == moved + [Move(sidecar, Quarantined(sidecar, token))]
      ensures AgreeOutside(old(files), files, {sidecar, Quarantined(sidecar, token)})
      ensures AgreeBesidesSidecars(old(files), files)
      ensures renamed && privateMode <==> faults == old(faults)
    {
      renamed, privateMode, extended := true, true, moved;
      if sidecar in files {
        renamed := Rename(sidecar, Quarantined(sidecar, token));
        if renamed {
          privateMode := Attempt();  // _set_private_file_mode
          if privateMode {
            extended := moved + [Move(sidecar, Quarantined(sidecar, token))];
          }
        }
      }
    }

    /** _quarantine_sidecars. Three exits: all sidecars moved and recorded; an OSError,
        after which the recorded moves are undone; or a chmod failure, which is not an
        OSError, so the renamed sidecars stay where they are and are forgotten. */
    method QuarantineSidecars() returns (ok: bool, moved: seq<Move>)
      requires Valid()
      modifies this`files, this`exposed, this`faults, this`nextToken
      ensures Extends()
      ensures SidecarsDetached(old(files), files)
      ensures exposed <= old(exposed) + {Logical(engine, old(files)), Bare(engine, old(files))}
      ensures ok ==> Wal !in files && Shm !in files
      ensures Records(moved, old(files), files)
      ensures Wal in old(files) ==> Survives(Wal, old(files)[Wal], files)
      ensures Shm in old(files) ==> Survives(Shm, old(files)[Shm], files)
      ensures AgreeBesidesSidecars(old(files), files)
      ensures ok <==> faults == old(faults)
    {
      moved := [];
      var token := FreshToken();
      var suffixes := [Wal, Shm];
      var i := 0;
      while i < |suffixes|
        invariant 0 <= i <= 2
        invariant Extends() && token < nextToken && faults == old(faults)
        invariant Detaching(old(files), files, moved, token, i)
        invariant exposed <= old(exposed) + {Logical(engine, old(files)), Bare(engine, old(files))}
      {
        ghost var was := files;
        var renamed, privateMode, extended := QuarantineOne(suffixes[i], token, moved, old(files));
        DetachingNext(old(files), was, files, moved, extended, token, i);
        if !renamed {
          RestoreQuarantined(moved, old(files));
          BesidesChain(old(files), was, files);
          SurvivesUndoing(was, files);
          return false, [];
        }
        if !privateMode {
          return false, [];
        }
        moved := extended;
        i := i + 1;
      }
      ok := true;
    }

    /** Lines 281-288: stage the backup and check its bytes. */
    method StageBackup(backup: Bytes) returns (ok: bool)
      requires Valid()
      modifies this`files, this`exposed, this`faults
      ensures Extends()
      ensures AgreeOutside(old(files), files, {Stage, StageWal, StageShm})
      ensures ok ==> Stage in files && files[Stage] == backup
      ensures exposed == old(exposed) + {Logical(engine, files)}
      ensures ok <==> faults == old(faults)
    {
      ok := OnlineBackupToStage();
      if ok {
        ok := Attempt();  // mode, inspection and manifest comparison
      }
      if ok && (Stage !in files || engine.digest(files[Stage]) != engine.digest(backup)) {
        ok, faults := false, faults + 1;
      }
      if ok {
        ok := Attempt();  // schema version
      }
    }

    /** Lines 290-324: preserve the stopped fileset, then inspect, back up and
        checkpoint a target that exists. */
    method PrepareTarget() returns (ok: bool, currentWasValid: bool)
      requires Valid() && rawPreserved == None
      modifies this`files, this`exposed, this`faults, this`rejections, this`rawPreserved
      ensures Extends()
      ensures Base in files <==> Base in old(files)
      ensures AgreeOutside(old(files), files, {Base, Wal, Shm})
      ensures Logical(engine, files) == old(Logical(engine, files))
      ensures exposed == old(exposed)
      ensures currentWasValid ==> Base in old(files)
      ensures !currentWasValid && Base in files ==> files[Base] == old(files)[Base]
      ensures !currentWasValid ==> WalBytes(files) == WalBytes(old(files))
      ensures ok && currentWasValid ==> WalBytes(files) == []
      ensures ok ==> rawPreserved == Preservable(old(files))
      ensures ok && Base in old(files) ==> (currentWasValid <==> rejections == old(rejections))
      ensures ok <==> faults == old(faults)
    {
      currentWasValid := false;
      var targetExisted := Base in files;
      if targetExisted || Wal in files || Shm in files {
        assert Base in Fileset(files) || Wal in Fileset(files) || Shm in Fileset(files);
        ok := PreserveRawFileset();
        if !ok {
          return;
        }
      } else {
        assert Fileset(files) == map[];
      }
      if targetExisted {
        currentWasValid := InspectTarget();
        assert Agree(old(files), files, Base);
        if currentWasValid {
          ok := Attempt();  // schema version
          if !ok {
            return;
          }
          ghost var inspected := files;
          ok := OpenForReading();  // create_sqlite_backup
          assert Agree(inspected, files, Base);
          AgreeChain(old(files), inspected, files, {Base, Wal, Shm});
          if !ok {
            faults := faults + 1;
            return;
          }
          ghost var backedUp := files;
          ok := CheckpointForSwitch();
          AgreeChain(old(files), backedUp, files, {Base, Wal, Shm});
          return;
        }
      }
      ok := true;
    }

    /** Lines 742-755: the preserved base by way of a private copy and an atomic
        rename, or no base at all. */
    method ReinstateBase(targetExisted: bool) returns (ok: bool)
      requires Valid() && (targetExisted ==> rawPreserved.Some? && Base in rawPreserved.value)
      requires Wal !in files && Shm !in files
      modifies this`files, this`exposed, this`faults, this`nextToken
      ensures Extends()
      ensures ok ==> Wal !in files && Shm !in files
      ensures ok ==> (Base in files <==> targetExisted) && (targetExisted ==> files[Base] == rawPreserved.value[Base])
      ensures exposed <= old(exposed) + {if targetExisted then Bare(engine, rawPreserved.value) else None}
      ensures ok ==> exposed == old(exposed) + {if targetExisted then Bare(engine, rawPreserved.value) else None}
      ensures ok <==> faults == old(faults)
    {
      if !targetExisted {
        ok := Unlink(Base);
        return;
      }
      var token := FreshToken();
      var copy := RollbackCopy(token);
      ok := CopyIn(rawPreserved.value[Base], copy);
      assert Agree(old(files), files, Wal) && Agree(old(files), files, Shm);
      if ok {
        ok := Attempt();  // mode and flush
      }
      if ok {
        ok := Rename(copy, Base);
      }
      if !ok {
        var _ := Unlink(copy);
      }
    }

    /** _rollback_failed_activation. */
    method Rollback(targetExisted: bool, quarantined: seq<Move>) returns (ok: bool)
      requires Valid() && (targetExisted ==> rawPreserved.Some? && Base in rawPreserved.value)
      requires rawPreserved.Some? ==> (Base in rawPreserved.value <==> targetExisted)
      requires forall i :: 0 <= i < |quarantined| ==> quarantined[i].quarantine.Quarantined?
      modifies this`files, this`exposed, this`faults, this`nextToken
      ensures Extends()
      ensures ok ==> Fileset(files) == if rawPreserved.Some? then Fileset(rawPreserved.value) else map[]
      // What it shows: the base it found, then the preserved one behind growing fronts of its log.
      ensures var raw := if rawPreserved.Some? then rawPreserved.value else map[];
        && exposed <= old(exposed) + {Bare(engine, old(files))} + Torn(engine, raw)
        && (ok ==> Torn(engine, raw) <= exposed)
      ensures ok <==> faults == old(faults)
      ensures ok ==> Discarded(quarantined, |quarantined|, files)
    {
      ghost var raw := if rawPreserved.Some? then rawPreserved.value else map[];
      TornEnds(engine, raw);
      var failed;
      ok, failed := QuarantineSidecars();
      if !ok {
        return;
      }
      ghost var detached := files;
      ok := DiscardQuarantined(failed);
      assert Agree(detached, files, Wal) && Agree(detached, files, Shm);
      if !ok {
        return;
      }
      ok := ReinstateBase(targetExisted);
      if !ok {
        return;
      }
      if rawPreserved.Some? {
        ok := RestoreSidecarCopies(rawPreserved.value);
        if !ok {
          return;
        }
      } else {
        assert Fileset(files) == map[];
      }
      ok := DiscardQuarantined(quarantined);
      if ok {
        ok := Attempt();  // directory flush
      }
    }

    /** None of the first n quarantined files is left. */
    ghost predicate Discarded(moved: seq<Move>, n: nat, now: Files) {
      forall i :: 0 <= i < n && i < |moved| ==> moved[i].quarantine !in now
    }

    /** The same after success, where a file that cannot be removed is kept for diagnosis. */
    method DiscardOrRetain(moved: seq<Move>) returns (retained: bool)
      requires Valid()
      requires forall i :: 0 <= i < |moved| ==> moved[i].quarantine.Quarantined?
      modifies this`files, this`exposed, this`faults
      ensures Extends()
      ensures forall n: Name :: !n.Quarantined? ==> Agree(old(files), files, n)
      ensures exposed == old(exposed)
      ensures retained <==> faults > old(faults)
      ensures !retained ==> Discarded(moved, |moved|, files)
      ensures faults - old(faults) <= |moved|
    {
      retained := false;
      for i := 0 to |moved|
        invariant Extends() && faults - old(faults) <= i
        invariant forall n: Name :: !n.Quarantined? ==> Agree(old(files), files, n)
        invariant exposed == old(exposed) && (retained <==> faults > old(faults))
        invariant !retained ==> Discarded(moved, i, files)
      {
        assert Agree(old(files), files, Base) && Agree(old(files), files, Wal);
        var ok := Unlink(moved[i].quarantine);
        retained := retained || !ok;
      }
    }

    /** Unlink every quarantined file; stop at the first failure. */
    method DiscardQuarantined(moved: seq<Move>) returns (ok: bool)
      requires Valid()
      requires forall i :: 0 <= i < |moved| ==> moved[i].quarantine.Quarantined?
      modifies this`files, this`exposed, this`faults
      ensures Extends()
      ensures forall n: Name :: !n.Quarantined? ==> Agree(old(files), files, n)
      ensures Fileset(files) == Fileset(old(files))
      ensures exposed == old(exposed)
      ensures ok <==> faults == old(faults)
      ensures ok ==> Discarded(moved, |moved|, files)
    {
      ok := true;
      var i := 0;
      while i < |moved|
        invariant 0 <= i <= |moved| && Extends()
        invariant forall n: Name :: !n.Quarantined? ==> Agree(old(files), files, n)
        invariant exposed == old(exposed) && ok && faults == old(faults)
        invariant Discarded(moved, i, files)
      {
        assert Agree(old(files), files, Base) && Agree(old(files), files, Wal);
        ok := Unlink(moved[i].quarantine);
        if !ok {
          break;
        }
        i := i + 1;
      }
      assert Agree(old(files), files, Base) && Agree(old(files), files, Wal) && Agree(old(files), files, Shm);
    }

    /** Lines 757-765: copy the preserved sidecars back under their canonical names. */
    method RestoreSidecarCopies(preserved: Files) returns (ok: bool)
      requires Valid() && Wal !in files && Shm !in files
      requires Base in preserved <==> Base in files
      requires Base in files ==> files[Base] == preserved[Base]
      modifies this`files, this`exposed, this`faults
      ensures Extends()
      ensures ok ==> Fileset(files) == Fileset(preserved)
      ensures exposed <= old(exposed) + Torn(engine, preserved)
      ensures ok ==> exposed == old(exposed) + Torn(engine, preserved)
      ensures ok <==> faults == old(faults)
    {
      ok := true;
      var suffixes := [Wal, Shm];
      var i := 0;
      while i < |suffixes|
        invariant 0 <= i <= |suffixes| && Extends()
        invariant Agree(preserved, files, Base)
        invariant forall j :: 0 <= j < i ==> Agree(preserved, files, suffixes[j])
        invariant forall j :: i <= j < |suffixes| ==> suffixes[j] !in files
        invariant ok && faults == old(faults)
        invariant exposed == old(exposed) + if i == 0 then {} else Torn(engine, preserved)
      {
        ghost var was := files;
        assert i > 0 ==> Agree(preserved, files, suffixes[0]);
        ok := RestoreSidecar(suffixes[i], preserved);
        if !ok {
          return;
        }
        assert Agree(was, files, Base) && Agree(was, files, if i == 0 then Shm else Wal);
        i := i + 1;
      }
      assert suffixes[0] == Wal && suffixes[1] == Shm;
    }

    /** One turn of its loop. */
    method RestoreSidecar(n: Name, preserved: Files) returns (ok: bool)
      requires Valid() && IsSidecar(n) && n !in files && Agree(preserved, files, Base)
      requires n == Wal || Agree(preserved, files, Wal)
      modifies this`files, this`exposed, this`faults
      ensures Extends() && AgreeOutside(old(files), files, {n})
      ensures ok ==> Agree(preserved, files, n)
      ensures exposed <= old(exposed) + Torn(engine, preserved)
      ensures ok ==> exposed == old(exposed) + if n == Wal then Torn(engine, preserved) else {}
      ensures ok <==> faults == old(faults)
    {
      ok := true;
      TornEnds(engine, preserved);
      if n in preserved {
        WritingIsTorn(engine, files, n, preserved);
        ok := CopyIn(preserved[n], n);
        if ok {
          ok := Attempt();  // mode and flush
        }
      }
    }

    /** The log adds nothing to the base file, or the inspection passed and the
        truncating checkpoint therefore ran before the sidecars were detached. */
    ghost predicate SafeToDetach(currentWasValid: bool, start: Files) {
      || currentWasValid
      || (Base in start ==> engine.content(start[Base], []) == engine.content(start[Base], WalBytes(start)))
    }

    /** What the steps up to the switch may have shown to a reader. */
    ghost function CrashView(start: Files, backup: Bytes, switched: bool): set<Option<Content>> {
      if switched then {Logical(engine, start), Some(engine.content(backup, []))} else {Logical(engine, start)}
    }

    /** Lines 280-324: the stage is written, the stopped fileset preserved, the log truncated. */
    method StageAndPrepare(backup: Bytes) returns (ok: bool, currentWasValid: bool)
      requires Valid() && rawPreserved == None && exposed == {Logical(engine, files)}
      modifies this
      ensures Extends() && exposed == old(exposed)
      ensures currentWasValid ==> Base in old(files)
      ensures ok ==> rawPreserved == Preservable(old(files)) && Stage in files && files[Stage] == backup
      ensures ok && currentWasValid ==> WalBytes(files) == []
      ensures PreparedBy(old(files), currentWasValid, [], files, files)
      ensures ok && Base in old(files) ==> (currentWasValid <==> rejections == old(rejections))
      ensures ok <==> faults == old(faults)
    {
      currentWasValid := false;
      ghost var start := files;
      ok := StageBackup(backup);
      ghost var staged := files;
      StagingKeepsCanonical(start, files);
      if ok {
        ok, currentWasValid := PrepareTarget();
        assert Agree(staged, files, Stage);
      }
    }

    /** Lines 280-332: everything up to and including the switch. */
    method ReachSwitch(backup: Bytes)
      returns (switched: bool, currentWasValid: bool, moved: seq<Move>, ghost prepared: Files)
      requires Valid() && rawPreserved == None && exposed == {Logical(engine, files)}
      modifies this
      ensures Extends()
      ensures currentWasValid ==> Base in old(files)
      ensures switched ==> rawPreserved == Preservable(old(files))
      ensures switched ==> Base in files && files[Base] == backup && Wal !in files && Shm !in files
      ensures forall i :: 0 <= i < |moved| ==> moved[i].quarantine.Quarantined?
      ensures SafeToDetach(currentWasValid, old(files)) ==> exposed == CrashView(old(files), backup, switched)
      ensures !switched ==> PreparedBy(old(files), currentWasValid, moved, prepared, files)
      ensures switched && !currentWasValid ==> Bare(engine, old(files)) in exposed
      ensures switched ==>
        && OldOrNew(engine, old(files), backup) <= exposed
        && exposed <= OldOrNew(engine, old(files), backup) + {Bare(engine, old(files))}
      ensures !switched && !currentWasValid ==> exposed <= {Logical(engine, old(files)), Bare(engine, old(files))}
      ensures switched && Base in old(files) ==> (currentWasValid <==> rejections == old(rejections))
      ensures switched <==> faults == old(faults)
    {
      switched, moved := false, [];
      ghost var start := files;
      var ok;
      ok, currentWasValid := StageAndPrepare(backup);
      prepared := files;
      if !ok {
        return;
      }
      ok, moved := QuarantineSidecars();
      assert Agree(prepared, files, Stage);
      assert PreparedBy(start, currentWasValid, moved, prepared, files);
      if ok {
        ok := Attempt();  // flush of the stage
      }
      if ok {
        switched := Rename(Stage, Base);
      }
    }

    /** The directory before the switch, when the switch did not happen: `prepared`
        is what the checkpoint left, and only sidecars have moved since. */
    ghost predicate PreparedBy(start: Files, currentWasValid: bool, moved: seq<Move>, prepared: Files, now: Files)
    {
      && Logical(engine, prepared) == Logical(engine, start)
      && (Base in prepared <==> Base in start)
      && (currentWasValid && WalBytes(prepared) != [] ==> now == prepared && moved == [])
      && (!currentWasValid && Base in start ==> prepared[Base] == start[Base])
      && (!currentWasValid ==> WalBytes(prepared) == WalBytes(start))
      && SidecarsDetached(prepared, now)
      && Records(moved, prepared, now)
      && (Wal in prepared ==> Survives(Wal, prepared[Wal], now))
    }

    /** The finally block: the stage and its sidecars are removed; a failure here
        replaces whatever error was being raised. */
    method CleanStage() returns (failed: bool)
      requires Valid()
      modifies this`files, this`exposed, this`faults
      ensures Extends()
      ensures AgreeOutside(old(files), files, {Stage, StageWal, StageShm})
      ensures exposed == old(exposed)
      ensures Agree(old(files), files, Base) && Agree(old(files), files, Wal) && Agree(old(files), files, Shm)
      ensures Fileset(files) == Fileset(old(files)) && Logical(engine, files) == old(Logical(engine, files))
      ensures forall bytes :: Survives(Wal, bytes, old(files)) ==> Survives(Wal, bytes, files)
      ensures failed <==> faults > old(faults)
      ensures !failed ==> Stage !in files && StageWal !in files && StageShm !in files
    {
      var names := [Stage, StageWal, StageShm];
      var i, ok := 0, true;
      while ok && i < |names|
        invariant 0 <= i <= |names| && Extends()
        invariant AgreeOutside(old(files), files, {Stage, StageWal, StageShm})
        invariant exposed == old(exposed) && (ok <==> faults == old(faults))
        invariant ok ==> forall j :: 0 <= j < i ==> names[j] !in files
      {
        ok := Unlink(names[i]);
        i := i + 1;
      }
      failed := !ok;
      StagingKeepsCanonical(old(files), files);
      assert Agree(old(files), files, Base) && Agree(old(files), files, Wal) && Agree(old(files), files, Shm);
      assert ok ==> names[0] !in files && names[1] !in files && names[2] !in files;
    }

    /** restore_sqlite_backup, from the first staged byte on. `backup` is the
        database of an artifact that passed validate_sqlite_backup. `crashView` is
        what a reader could have found after any step up to and including the switch. */
    method Restore(backup: Bytes)
      returns (outcome: Outcome, currentWasValid: bool, cleanupFailed: bool, ghost crashView: set<Option<Content>>)
      requires Valid() && rawPreserved == None && exposed == {Logical(engine, files)}
      modifies this
      ensures Valid()
      // Success means the backup, alone.
      ensures outcome.Success? ==> Base in files && files[Base] == backup && Wal !in files && Shm !in files
      // A reported rollback means the stopped fileset, byte for byte.
      ensures outcome.RolledBack? ==> Fileset(files) == Fileset(old(files))
      // Once switched, the raw fileset is kept whatever happens next.
      ensures !outcome.Refused? ==> rawPreserved == Preservable(old(files))
      // Crash consistency: the old database, then at the switch exactly the backup.
      ensures crashView <= exposed
      ensures SafeToDetach(currentWasValid, old(files)) ==>
        crashView == CrashView(old(files), backup, !outcome.Refused?)
      // An error before the switch leaves the old database, after every later step too.
      ensures outcome.Refused? && SafeToDetach(currentWasValid, old(files)) ==> exposed == {Logical(engine, old(files))}
      // Without a passed inspection the base bytes are still untouched and no log is lost ...
      ensures outcome.Refused? && !currentWasValid && Base in old(files) ==>
        Base in files && files[Base] == old(files)[Base]
      ensures outcome.Refused? && !currentWasValid && WalBytes(old(files)) != [] ==>
        Survives(Wal, WalBytes(old(files)), files)
      // ... but a completed switch has exposed the base without its log. So up to a switch a
      // reader finds only the old database or the backup exactly if the inspection passed or
      // the bare base is one of these two.
      ensures !outcome.Refused? && !currentWasValid ==> Bare(engine, old(files)) in crashView
      ensures !outcome.Refused? ==>
        (crashView <= OldOrNew(engine, old(files), backup) <==>
           currentWasValid || Bare(engine, old(files)) in OldOrNew(engine, old(files), backup))
      // After the switch: success shows nothing more. A rollback puts the stopped base back first
      // and then writes its log, so it shows the base behind every front of the log, whether or
      // not the inspection had passed; a failed one shows nothing else.
      ensures outcome.Success? ==> exposed == crashView
      ensures outcome.RolledBack? ==>
        && exposed == OldOrNew(engine, old(files), backup) + Torn(engine, old(files))
        && (exposed <= OldOrNew(engine, old(files), backup) <==>
              Torn(engine, old(files)) <= OldOrNew(engine, old(files), backup))
      ensures outcome.Refused? ==> exposed <= {Logical(engine, old(files)), Bare(engine, old(files))}
      ensures outcome.RollbackFailed? ==>
        exposed <= OldOrNew(engine, old(files), backup) + Torn(engine, old(files))
      ensures WalBytes(old(files)) == [] ==> Torn(engine, old(files)) <= OldOrNew(engine, old(files), backup)
      // Before a switch every target is inspected.
      ensures !outcome.Refused? && Base in old(files) ==> (currentWasValid <==> rejections == old(rejections))
      // It succeeds if no step fails; one failure is not enough to leave a failed rollback behind.
      ensures faults == old(faults) ==> outcome == Success(false) && !cleanupFailed && Stage !in files
      ensures outcome.RollbackFailed? ==> faults > old(faults) + 1
    {
      var targetExisted := Base in files;
      ghost var start := files;
      var switched, moved;
      ghost var prepared;
      switched, currentWasValid, moved, prepared := ReachSwitch(backup);
      crashView := exposed;
      TornEnds(engine, start);
      TornOfFileset(engine, start);
      if switched {
        assert targetExisted ==> Base in Fileset(start);
        outcome := FinishSwitched(targetExisted, moved);
        SwitchedShows(engine, start, backup, crashView, exposed);
      } else {
        outcome := Refused;
        FinishRefused(start, currentWasValid, moved, prepared);
      }
      cleanupFailed := CleanStage();
    }

    /** The finally block of a refused restore: the recorded sidecars go back. */
    method FinishRefused(ghost start: Files, ghost currentWasValid: bool, moved: seq<Move>, ghost prepared: Files)
      requires Valid() && PreparedBy(start, currentWasValid, moved, prepared, files)
      modifies this`files, this`exposed, this`faults
      ensures Extends()
      ensures Base in files <==> Base in start
      ensures !currentWasValid && Base in start ==> files[Base] == start[Base]
      ensures !currentWasValid && WalBytes(start) != [] ==> Survives(Wal, WalBytes(start), files)
      ensures SafeToDetach(currentWasValid, start) ==> exposed <= old(exposed) + {Logical(engine, start)}
      ensures exposed <= old(exposed) + {Logical(engine, start), Bare(engine, start)}
      ensures faults == old(faults) ==> Back(moved, 0, prepared, old(files), files)
    {
      ghost var quarantined := files;
      RestoreQuarantined(moved, prepared);
      SurvivesUndoing(quarantined, files);
    }

    /** Lines 333-361: verification, then either success or the automatic rollback. */
    method FinishSwitched(targetExisted: bool, moved: seq<Move>) returns (outcome: Outcome)
      requires Valid() && Base in files && Wal !in files && Shm !in files
      requires targetExisted ==> rawPreserved.Some?
      requires rawPreserved.Some? ==> (Base in rawPreserved.value <==> targetExisted)
      requires forall i :: 0 <= i < |moved| ==> moved[i].quarantine.Quarantined?
      modifies this`files, this`exposed, this`faults, this`nextToken
      ensures Extends() && !outcome.Refused?
      ensures outcome.Success? ==> Agree(old(files), files, Base) && Wal !in files && Shm !in files
      ensures outcome.RolledBack? ==>
        Fileset(files) == if rawPreserved.Some? then Fileset(rawPreserved.value) else map[]
      ensures outcome.Success? ==> exposed == old(exposed)
      ensures var raw := if rawPreserved.Some? then rawPreserved.value else map[];
        && exposed <= old(exposed) + Torn(engine, raw)
        && (outcome.RolledBack? ==> Torn(engine, raw) <= exposed)
      // One failure is rolled back; only a second one leaves the directory for manual recovery.
      ensures faults == old(faults) ==> outcome == Success(false) && Discarded(moved, |moved|, files)
      ensures outcome.Success? ==> (outcome.retainedQuarantine <==> faults > old(faults))
      ensures outcome.RolledBack? ==> faults == old(faults) + 1 && Discarded(moved, |moved|, files)
      ensures outcome.RollbackFailed? ==> faults > old(faults) + 1
    {
      var ok := Attempt();  // directory flush, hash, inspection and manifest comparison
      if ok {
        var retained := DiscardOrRetain(moved);
        assert Agree(old(files), files, Base) && Agree(old(files), files, Wal) && Agree(old(files), files, Shm);
        outcome := Success(retained);
      } else {
        ok := Rollback(targetExisted, moved);
        outcome := if ok then RolledBack else RollbackFailed;
      }
    }
  }
}
