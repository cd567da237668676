/**
 The job table and its applications: the preparation of incoming jobs and their
 replacement in backend/repository.py, which never loses an application.
 */
module JobStore {
  import opened Wrappers
  import opened Text

  type Id = string

  /** An incoming job. `content` stands for the columns that decide nothing here. */
  datatype Source = Source(legacyId: string, id: string, title: string, companyId: string, companyName: string,
                           sourceUrl: string, location: string, status: string, firstSeen: string, content: string)

  /** A job with its final identifier; `companyId` is "" when it belongs to no company. */
  datatype Prepared = Prepared(id: Id, legacyId: string, companyId: string, job: Source)

  /** A row of the table jobs. */
  datatype Job = Job(legacyId: string, company: Option<Id>, title: string, status: string, content: string,
                     firstSeen: string, created: string)

  // ---- Identifiers ----------------------------------------------------------

  /** str(n) */
  function Decimal(n: nat): (s: string)
    ensures s != ""
  {
    if n < 10 then [('0' as int + n) as char] else Decimal(n / 10) + [('0' as int + n % 10) as char]
  }

  lemma {:induction false} DecimalInjective(m: nat, n: nat)
    requires Decimal(m) == Decimal(n)
    ensures m == n
  {
    var s, t := Decimal(m), Decimal(n);
    assert s[|s| - 1] == ('0' as int + m % 10) as char && t[|t| - 1] == ('0' as int + n % 10) as char;
    if m >= 10 && n >= 10 {
      assert s[..|s| - 1] == Decimal(m / 10) && t[..|t| - 1] == Decimal(n / 10);
      DecimalInjective(m / 10, n / 10);
    }
  }

  /** The n-th identifier tried for a repeated legacy id: legacy--digest, then legacy--digest-2, ... */
  function Candidate(legacy: string, digest: string, n: nat): string
    requires n >= 1
  {
    var base := legacy + "--" + digest;
    if n == 1 then base else base + "-" + Decimal(n)
  }

  lemma CandidateInjective(legacy: string, digest: string, m: nat, n: nat)
    requires 1 <= m && 1 <= n && Candidate(legacy, digest, m) == Candidate(legacy, digest, n)
    ensures m == n
  {
    var base := legacy + "--" + digest;
    if m > 1 && n > 1 {
      assert Candidate(legacy, digest, m)[|base| + 1..] == Decimal(m);
      assert Candidate(legacy, digest, n)[|base| + 1..] == Decimal(n);
      DecimalInjective(m, n);
    }
  }

  /** The candidates before the n-th. */
  function Tried(legacy: string, digest: string, n: nat): set<Id>
    requires n >= 1
  {
    if n == 1 then {} else Tried(legacy, digest, n - 1) + {Candidate(legacy, digest, n - 1)}
  }

  lemma {:induction false} NotTried(legacy: string, digest: string, n: nat, k: nat)
    requires 1 <= n <= k
    ensures Candidate(legacy, digest, k) !in Tried(legacy, digest, n)
  {
    if n > 1 {
      NotTried(legacy, digest, n - 1, k);
      if Candidate(legacy, digest, k) == Candidate(legacy, digest, n - 1) {
        CandidateInjective(legacy, digest, k, n - 1);
      }
    }
  }

  lemma {:induction false} AllTried(legacy: string, digest: string, m: nat, n: nat)
    requires 1 <= m < n
    ensures Candidate(legacy, digest, m) in Tried(legacy, digest, n)
  {
    if m < n - 1 {
      AllTried(legacy, digest, m, n - 1);
    }
  }

  /** The identifier a job gets after the ones in `used`: its legacy id, or the first free candidate. */
  ghost predicate Assigned(id: Id, legacy: string, digest: string, used: set<Id>) {
    && id !in used
    && (legacy !in used ==> id == legacy)
    && (legacy in used ==>
          exists n: nat :: 1 <= n && id == Candidate(legacy, digest, n) && Tried(legacy, digest, n) <= used)
  }

  lemma AssignedIsDetermined(a: Id, b: Id, legacy: string, digest: string, used: set<Id>)
    requires Assigned(a, legacy, digest, used) && Assigned(b, legacy, digest, used)
    ensures a == b
  {
    if legacy in used {
      var m: nat :| 1 <= m && a == Candidate(legacy, digest, m)
        && Tried(legacy, digest, m) <= used;
      var n: nat :| 1 <= n && b == Candidate(legacy, digest, n)
        && Tried(legacy, digest, n) <= used;
      if m < n {
        AllTried(legacy, digest, m, n);
      } else if n < m {
        AllTried(legacy, digest, n, m);
      }
    }
  }

  /** After different used sets a job gets the same identifier exactly if neither identifier was
      taken on the other side. */
  lemma SameIdentifierExactly(a: Id, b: Id, legacy: string, digest: string, used: set<Id>, other: set<Id>)
    requires Assigned(a, legacy, digest, used) && Assigned(b, legacy, digest, other)
    ensures a == b <==> a !in other && b !in used
  {
    if a !in other && b !in used && legacy in used {
      assert legacy in other;
      var m: nat :| 1 <= m && a == Candidate(legacy, digest, m) && Tried(legacy, digest, m) <= used;
      var n: nat :| 1 <= n && b == Candidate(legacy, digest, n) && Tried(legacy, digest, n) <= other;
      if m < n {
        AllTried(legacy, digest, m, n);
      } else if n < m {
        AllTried(legacy, digest, n, m);
      }
    }
  }

  function LegacyId(source: Source): string {
    if source.legacyId != "" then source.legacyId else source.id
  }

  predicate Usable(source: Source) {
    LegacyId(source) != "" && Strip(source.title) != ""
  }

  /** The jobs that are not skipped, in order. */
  function Kept(sources: seq<Source>, n: nat): seq<Source>
    requires n <= |sources|
  {
    if n == 0 then []
    else if Usable(sources[n - 1]) then Kept(sources, n - 1) + [sources[n - 1]]
    else Kept(sources, n - 1)
  }

  /** What a job needs not to be skipped: an identifier and a title that is not blank. */
  lemma UsableExactly(source: Source)
    ensures Usable(source) <==> (source.legacyId != "" || source.id != "") && !Blank(source.title)
  {
    var i, j := StripCutsSpace(source.title);
    if Strip(source.title) == "" {
      assert source.title == source.title[..i] + source.title[j..];
    } else {
      assert !IsSpace(source.title[i]);
    }
  }

  /** Skipping loses no other job and changes no number of occurrences. */
  lemma {:induction false} KeptExactly(sources: seq<Source>, n: nat, source: Source)
    requires n <= |sources|
    ensures multiset(Kept(sources, n))[source] ==
      if (source.legacyId != "" || source.id != "") && !Blank(source.title) then multiset(sources[..n])[source] else 0
  {
    if n > 0 {
      KeptExactly(sources, n - 1, source);
      UsableExactly(sources[n - 1]);
      assert sources[..n] == sources[..n - 1] + [sources[n - 1]];
    }
  }

  function Basis(source: Source): string {
    source.companyId + "|" + source.title + "|" + source.sourceUrl + "|" + source.location
  }

  function Ids(prepared: seq<Prepared>): set<Id> {
    if prepared == [] then {} else Ids(prepared[..|prepared| - 1]) + {prepared[|prepared| - 1].id}
  }

  lemma {:induction false} IdAt(prepared: seq<Prepared>, k: nat)
    requires k < |prepared|
    ensures prepared[k].id in Ids(prepared)
  {
    if k < |prepared| - 1 {
      IdAt(prepared[..|prepared| - 1], k);
    }
  }

  lemma {:induction false} IndexOfId(prepared: seq<Prepared>, id: Id) returns (k: nat)
    requires id in Ids(prepared)
    ensures k < |prepared| && prepared[k].id == id
  {
    k := |prepared| - 1;
    if prepared[k].id != id {
      k := IndexOfId(prepared[..|prepared| - 1], id);
    }
  }

  predicate DistinctIds(prepared: seq<Prepared>) {
    forall i, j :: 0 <= i < j < |prepared| ==> prepared[i].id != prepared[j].id
  }

  /** What _prepare_jobs looks things up in. `digest` is the start of a SHA-256. */
  datatype Lookup = Lookup(fold: Folding, digest: string -> string, companyIds: set<Id>, byName: map<string, Id>)

  function ResolvedCompany(source: Source, lookup: Lookup): Id {
    if source.companyId in lookup.companyIds then source.companyId
    else
      var name := Fold(lookup.fold, source.companyName);
      if name in lookup.byName then lookup.byName[name] else ""
  }

  ghost predicate IsNext(p: Prepared, source: Source, lookup: Lookup, used: set<Id>) {
    && p.job == source && p.legacyId == LegacyId(source) && p.companyId == ResolvedCompany(source, lookup)
    && Assigned(p.id, LegacyId(source), lookup.digest(Basis(source)), used)
  }

  /** The dictionary by_name: of two companies with one folded name the later one wins. */
  function ByName(fold: Folding, companies: seq<(Id, string)>): map<string, Id> {
    if companies == [] then map[]
    else
      var last := companies[|companies| - 1];
      ByName(fold, companies[..|companies| - 1])[Fold(fold, last.1) := last.0]
  }

  function LookupOf(fold: Folding, digest: string -> string, companies: seq<(Id, string)>): Lookup {
    Lookup(fold, digest, set c | c in companies :: c.0, ByName(fold, companies))
  }

  /** The last company of a folded name in a listing. */
  ghost predicate LastNamed(companies: seq<(Id, string)>, fold: Folding, key: string, k: nat) {
    && k < |companies| && Fold(fold, companies[k].1) == key
    && forall j :: k < j < |companies| ==> Fold(fold, companies[j].1) != key
  }

  ghost predicate NoneNamed(companies: seq<(Id, string)>, fold: Folding, key: string) {
    forall j :: 0 <= j < |companies| ==> Fold(fold, companies[j].1) != key
  }

  lemma {:induction false} ByNameFinds(fold: Folding, companies: seq<(Id, string)>, key: string) returns (k: nat)
    ensures if key in ByName(fold, companies)
      then LastNamed(companies, fold, key, k) && ByName(fold, companies)[key] == companies[k].0
      else NoneNamed(companies, fold, key)
    decreases |companies|
  {
    k := 0;
    if companies != [] {
      var n := |companies| - 1;
      if Fold(fold, companies[n].1) == key {
        k := n;
      } else {
        k := ByNameFinds(fold, companies[..n], key);
      }
    }
  }

  /** The company of a job: its own if it is known, else the last one of its company's name, else none. */
  ghost predicate ResolvedTo(r: Id, source: Source, companies: seq<(Id, string)>, fold: Folding) {
    var known := exists k :: 0 <= k < |companies| && companies[k].0 == source.companyId;
    && (known ==> r == source.companyId)
    && (!known ==>
          var key := Fold(fold, source.companyName);
          if NoneNamed(companies, fold, key) then r == ""
          else exists k: nat :: LastNamed(companies, fold, key, k) && r == companies[k].0)
  }

  /** The foreign key to companies: a job refers to an existing company whenever one can be found. */
  lemma ResolvedCompanyExists(source: Source, fold: Folding, digest: string -> string, companies: seq<(Id, string)>)
    ensures ResolvedTo(ResolvedCompany(source, LookupOf(fold, digest, companies)), source, companies, fold)
  {
    var ids := LookupOf(fold, digest, companies).companyIds;
    if source.companyId in ids {
      var c :| c in companies && c.0 == source.companyId;
    } else {
      forall k | 0 <= k < |companies| ensures companies[k].0 != source.companyId {
        assert companies[k].0 in ids;
      }
      var k := ByNameFinds(fold, companies, Fold(fold, source.companyName));
    }
  }

  /** What _prepare_jobs makes of the usable sources. */
  ghost predicate PreparedFrom(prepared: seq<Prepared>, kept: seq<Source>, lookup: Lookup) {
    && |prepared| == |kept|
    && (kept == [] ||
        var front, last := prepared[..|prepared| - 1], prepared[|prepared| - 1];
        var source := kept[|kept| - 1];
        && PreparedFrom(front, kept[..|kept| - 1], lookup)
        && IsNext(last, source, lookup, Ids(front)))
  }

  lemma PreparedNext(prepared: seq<Prepared>, kept: seq<Source>, lookup: Lookup, p: Prepared, source: Source)
    requires PreparedFrom(prepared, kept, lookup)
    requires IsNext(p, source, lookup, Ids(prepared))
    ensures PreparedFrom(prepared + [p], kept + [source], lookup) && Ids(prepared + [p]) == Ids(prepared) + {p.id}
  {
    assert (prepared + [p])[..|prepared|] == prepared && (kept + [source])[..|kept|] == kept;
  }

  lemma {:induction false} PreparedIdsAreDistinct(prepared: seq<Prepared>, kept: seq<Source>, lookup: Lookup)
    requires PreparedFrom(prepared, kept, lookup)
    ensures DistinctIds(prepared)
    decreases |kept|
  {
    if kept != [] {
      var front := prepared[..|prepared| - 1];
      PreparedIdsAreDistinct(front, kept[..|kept| - 1], lookup);
      forall i | 0 <= i < |front| ensures prepared[i].id != prepared[|front|].id {
        IdAt(front, i);
      }
    }
  }

  lemma NextIsDetermined(p: Prepared, q: Prepared, source: Source, lookup: Lookup, used: set<Id>)
    requires IsNext(p, source, lookup, used) && IsNext(q, source, lookup, used)
    ensures p == q
  {
    AssignedIsDetermined(p.id, q.id, LegacyId(source), lookup.digest(Basis(source)), used);
  }

  lemma {:induction false} PreparedAt(prepared: seq<Prepared>, kept: seq<Source>, lookup: Lookup, k: nat)
    requires PreparedFrom(prepared, kept, lookup) && k < |kept|
    ensures IsNext(prepared[k], kept[k], lookup, Ids(prepared[..k]))
    decreases |kept|
  {
    var n := |kept| - 1;
    if k < n {
      PreparedAt(prepared[..n], kept[..n], lookup, k);
      assert prepared[..n][..k] == prepared[..k];
    }
  }

  /** A prepared job carries its source, identified by its own columns and filed under its company. */
  lemma PreparedSays(prepared: seq<Prepared>, kept: seq<Source>, fold: Folding, digest: string -> string,
                     companies: seq<(Id, string)>, k: nat)
    requires PreparedFrom(prepared, kept, LookupOf(fold, digest, companies)) && k < |kept|
    ensures prepared[k].job == kept[k]
    ensures prepared[k].legacyId == if kept[k].legacyId != "" then kept[k].legacyId else kept[k].id
    ensures ResolvedTo(prepared[k].companyId, kept[k], companies, fold)
  {
    PreparedAt(prepared, kept, LookupOf(fold, digest, companies), k);
    ResolvedCompanyExists(kept[k], fold, digest, companies);
  }

  lemma {:induction false} FrontsAgree<T>(a: seq<T>, b: seq<T>, k: nat)
    requires k <= |a| && k <= |b|
    requires forall j :: 0 <= j < k && a[..j] == b[..j] ==> a[j] == b[j]
    ensures a[..k] == b[..k]
  {
    if k > 0 {
      FrontsAgree(a, b, k - 1);
      assert a[..k] == a[..k - 1] + [a[k - 1]] && b[..k] == b[..k - 1] + [b[k - 1]];
    }
  }

  lemma EachIsDetermined(a: seq<Prepared>, b: seq<Prepared>, kept: seq<Source>, lookup: Lookup, k: nat)
    requires PreparedFrom(a, kept, lookup) && PreparedFrom(b, kept, lookup) && k < |kept| && a[..k] == b[..k]
    ensures a[k] == b[k]
  {
    PreparedAt(a, kept, lookup, k);
    PreparedAt(b, kept, lookup, k);
    NextIsDetermined(a[k], b[k], kept[k], lookup, Ids(a[..k]));
  }

  /** The incoming jobs alone fix every identifier. */
  lemma PreparationIsDetermined(a: seq<Prepared>, b: seq<Prepared>, kept: seq<Source>, lookup: Lookup)
    requires PreparedFrom(a, kept, lookup) && PreparedFrom(b, kept, lookup)
    ensures a == b
  {
    forall k | 0 <= k < |kept| && a[..k] == b[..k]
      ensures a[k] == b[k]
    {
      EachIsDetermined(a, b, kept, lookup, k);
    }
    FrontsAgree(a, b, |kept|);
    assert a == a[..|kept|] && b == b[..|kept|];
  }

  /** Between two replacements, whatever else is in them and wherever the job stands: it keeps its
      identifier exactly if no job before it has its old one now or had its new one then. */
  lemma IdentifierKeptExactly(
    a: seq<Prepared>, first: seq<Source>, i: nat, b: seq<Prepared>, second: seq<Source>, j: nat,
    lookup: Lookup, later: Lookup)
    requires PreparedFrom(a, first, lookup) && PreparedFrom(b, second, later) && lookup.digest == later.digest
    requires i < |first| && j < |second|
    requires LegacyId(first[i]) == LegacyId(second[j]) && Basis(first[i]) == Basis(second[j])
    ensures a[i].id == b[j].id <==> a[i].id !in Ids(b[..j]) && b[j].id !in Ids(a[..i])
  {
    PreparedAt(a, first, lookup, i);
    PreparedAt(b, second, later, j);
    SameIdentifierExactly(a[i].id, b[j].id, LegacyId(first[i]), lookup.digest(Basis(first[i])),
                          Ids(a[..i]), Ids(b[..j]));
  }

  /** Two jobs of one legacy id that swap places: the identifier that was the first job's, and the
      application filed under it, is the other job's afterwards. */
  lemma SwappedJobsTradeIdentifiers(a: seq<Prepared>, b: seq<Prepared>, s: Source, t: Source, lookup: Lookup)
    requires LegacyId(s) == LegacyId(t)
    requires PreparedFrom(a, [s, t], lookup) && PreparedFrom(b, [t, s], lookup)
    ensures a[0].id == b[0].id == LegacyId(s) && a[0].job == s && b[0].job == t
    ensures a[0].id != b[1].id && b[1].job == s
  {
    PreparedAt(a, [s, t], lookup, 0);
    PreparedAt(b, [t, s], lookup, 0);
    PreparedAt(b, [t, s], lookup, 1);
    IdAt(b[..1], 0);
  }

  /** Jobs whose legacy ids differ keep them. */
  lemma {:induction false} DistinctLegacyIdsAreKept(prepared: seq<Prepared>, kept: seq<Source>, lookup: Lookup)
    requires PreparedFrom(prepared, kept, lookup)
    requires forall i, j :: 0 <= i < j < |kept| ==> LegacyId(kept[i]) != LegacyId(kept[j])
    ensures forall k :: 0 <= k < |kept| ==> prepared[k].id == LegacyId(kept[k])
    decreases |kept|
  {
    if kept != [] {
      var n := |kept| - 1;
      DistinctLegacyIdsAreKept(prepared[..n], kept[..n], lookup);
      if LegacyId(kept[n]) in Ids(prepared[..n]) {
        var k := IndexOfId(prepared[..n], LegacyId(kept[n]));
        assert prepared[..n][k].id == LegacyId(kept[..n][k]);
      }
    }
  }

  // ---- The table after a replacement ----------------------------------------

  function CompanyColumn(p: Prepared): Option<Id> {
    if p.companyId == "" then None else Some(p.companyId)
  }

  /** INSERT ... ON CONFLICT(id) DO UPDATE: a known row keeps when it was first seen and created. */
  function Upserted(jobs: map<Id, Job>, p: Prepared, now: string): map<Id, Job> {
    var firstSeen := if p.job.firstSeen != "" then p.job.firstSeen else now;
    jobs[p.id :=
      Job(p.legacyId, CompanyColumn(p), p.job.title, p.job.status, p.job.content,
          if p.id in jobs then jobs[p.id].firstSeen else firstSeen,
          if p.id in jobs then jobs[p.id].created else now)]
  }

  function UpsertedAll(jobs: map<Id, Job>, prepared: seq<Prepared>, n: nat, now: string): map<Id, Job>
    requires n <= |prepared|
  {
    if n == 0 then jobs else Upserted(UpsertedAll(jobs, prepared, n - 1, now), prepared[n - 1], now)
  }

  /** A row has the columns of a prepared job. */
  predicate RowSays(job: Job, p: Prepared) {
    && job.legacyId == p.legacyId && job.title == p.job.title
    && job.status == p.job.status && job.content == p.job.content
    && (p.companyId == "" ==> job.company == None)
    && (p.companyId != "" ==> job.company == Some(p.companyId))
  }

  /** When a row was first seen and created: as before if it was there, else by the job or now. */
  predicate KeepsOrigin(job: Job, jobs: map<Id, Job>, p: Prepared, now: string) {
    && (p.id in jobs ==> job.firstSeen == jobs[p.id].firstSeen && job.created == jobs[p.id].created)
    && (p.id !in jobs ==> job.created == now)
    && (p.id !in jobs && p.job.firstSeen != "" ==> job.firstSeen == p.job.firstSeen)
    && (p.id !in jobs && p.job.firstSeen == "" ==> job.firstSeen == now)
  }

  /** The row of p in `after` comes from p, and from its row in `before` if there was one. */
  predicate RowWritten(before: map<Id, Job>, after: map<Id, Job>, p: Prepared, now: string) {
    p.id in after && RowSays(after[p.id], p) && KeepsOrigin(after[p.id], before, p, now)
  }

  /** Which rows a replacement may remove or archive. None is every company. */
  predicate InScope(job: Job, scope: Option<set<Id>>) {
    scope.None? || (job.company.Some? && job.company.value in scope.value)
  }

  function Pruned(jobs: map<Id, Job>, applied: set<Id>, keep: set<Id>, scope: Option<set<Id>>): map<Id, Job> {
    map id | id in jobs && (id in keep || id in applied || !InScope(jobs[id], scope)) ::
      if id !in keep && InScope(jobs[id], scope) then jobs[id].(status := "Archived") else jobs[id]
  }

  lemma {:induction false} UpsertedKeys(jobs: map<Id, Job>, prepared: seq<Prepared>, n: nat, now: string)
    requires n <= |prepared|
    ensures UpsertedAll(jobs, prepared, n, now).Keys == jobs.Keys + Ids(prepared[..n])
    ensures forall id :: id in jobs && id !in Ids(prepared[..n]) ==> UpsertedAll(jobs, prepared, n, now)[id] == jobs[id]
  {
    if n > 0 {
      UpsertedKeys(jobs, prepared, n - 1, now);
      assert prepared[..n][..n - 1] == prepared[..n - 1];
    }
  }

  lemma {:induction false} UpsertedOnce(jobs: map<Id, Job>, prepared: seq<Prepared>, n: nat, now: string, k: nat)
    requires k < n <= |prepared| && DistinctIds(prepared)
    ensures var id := prepared[k].id;
      && id in UpsertedAll(jobs, prepared, n, now)
      && UpsertedAll(jobs, prepared, n, now)[id] == Upserted(jobs, prepared[k], now)[id]
  {
    if k < n - 1 {
      UpsertedOnce(jobs, prepared, n - 1, now, k);
    } else {
      UpsertedKeys(jobs, prepared, n - 1, now);
      if prepared[k].id in Ids(prepared[..k]) {
        var i := IndexOfId(prepared[..k], prepared[k].id);
      }
    }
  }

  /** A prepared job ends up as a row with its own columns; a known row keeps its origin. */
  lemma UpsertedRow(jobs: map<Id, Job>, prepared: seq<Prepared>, n: nat, now: string, k: nat)
    requires k < n <= |prepared| && DistinctIds(prepared)
    ensures RowWritten(jobs, UpsertedAll(jobs, prepared, n, now), prepared[k], now)
  {
    UpsertedOnce(jobs, prepared, n, now, k);
  }

  /** What a replacement leaves: exactly the prepared jobs, the rows out of scope, and the
      rows with an application, which are archived when they are in scope and not mentioned. */
  lemma ReplacementKeepsApplied(
    jobs: map<Id, Job>, applied: set<Id>, prepared: seq<Prepared>, scope: Option<set<Id>>, now: string)
    requires applied <= jobs.Keys
    ensures var after := Pruned(UpsertedAll(jobs, prepared, |prepared|, now), applied, Ids(prepared), scope);
      && applied <= after.Keys
      && (forall id :: id in after <==>
            id in Ids(prepared) || (id in jobs && (id in applied || !InScope(jobs[id], scope))))
      && (forall id :: id in jobs && id !in Ids(prepared) && id in after ==>
            after[id] == if InScope(jobs[id], scope) then jobs[id].(status := "Archived") else jobs[id])
  {
    assert prepared[..|prepared|] == prepared;
    UpsertedKeys(jobs, prepared, |prepared|, now);
  }

  /** What becomes of a row that no incoming job mentions. */
  predicate Unmentioned(before: map<Id, Job>, after: map<Id, Job>, applied: set<Id>, scope: Option<set<Id>>, id: Id)
    requires id in before
  {
    var job := before[id];
    if scope.Some? && (job.company.None? || job.company.value !in scope.value) then
      id in after && after[id] == job
    else if id in applied then
      id in after && after[id] == job.(status := "Archived")
    else
      id !in after
  }

  /** Every row after a replacement, said by the columns of the jobs and of the rows before. */
  lemma AfterReplacement(
    jobs: map<Id, Job>, applied: set<Id>, prepared: seq<Prepared>, scope: Option<set<Id>>, now: string)
    requires applied <= jobs.Keys && DistinctIds(prepared)
    ensures var after := Pruned(UpsertedAll(jobs, prepared, |prepared|, now), applied, Ids(prepared), scope);
      && (forall k :: 0 <= k < |prepared| ==> RowWritten(jobs, after, prepared[k], now))
      && (forall id :: id in after && id !in jobs ==> exists k :: 0 <= k < |prepared| && prepared[k].id == id)
      && (forall id :: id in jobs && (forall k :: 0 <= k < |prepared| ==> prepared[k].id != id) ==>
            Unmentioned(jobs, after, applied, scope, id))
  {
    var after := Pruned(UpsertedAll(jobs, prepared, |prepared|, now), applied, Ids(prepared), scope);
    ReplacementKeepsApplied(jobs, applied, prepared, scope, now);
    forall k | 0 <= k < |prepared| ensures RowWritten(jobs, after, prepared[k], now) {
      UpsertedRow(jobs, prepared, |prepared|, now, k);
      IdAt(prepared, k);
    }
    forall id | id in Ids(prepared) ensures exists k :: 0 <= k < |prepared| && prepared[k].id == id {
      var k := IndexOfId(prepared, id);
    }
  }

  lemma UpsertedIsStable(
    jobs: map<Id, Job>, after: map<Id, Job>, prepared: seq<Prepared>, now: string, later: string, k: nat)
    requires k < |prepared| && DistinctIds(prepared) && prepared[k].id in after
    requires prepared[k].id in UpsertedAll(jobs, prepared, |prepared|, now)
    requires after[prepared[k].id] == UpsertedAll(jobs, prepared, |prepared|, now)[prepared[k].id]
    ensures prepared[k].id in UpsertedAll(after, prepared, |prepared|, later)
    ensures UpsertedAll(after, prepared, |prepared|, later)[prepared[k].id] == after[prepared[k].id]
  {
    UpsertedOnce(jobs, prepared, |prepared|, now, k);
    UpsertedOnce(after, prepared, |prepared|, later, k);
  }

  lemma UpsertingTwice(jobs: map<Id, Job>, applied: set<Id>, prepared: seq<Prepared>, scope: Option<set<Id>>,
                       now: string, later: string)
    requires DistinctIds(prepared)
    ensures var after := Pruned(UpsertedAll(jobs, prepared, |prepared|, now), applied, Ids(prepared), scope);
      UpsertedAll(after, prepared, |prepared|, later) == after
  {
    var after := Pruned(UpsertedAll(jobs, prepared, |prepared|, now), applied, Ids(prepared), scope);
    var second := UpsertedAll(after, prepared, |prepared|, later);
    assert prepared[..|prepared|] == prepared;
    UpsertedKeys(jobs, prepared, |prepared|, now);
    UpsertedKeys(after, prepared, |prepared|, later);
    forall id | id in Ids(prepared) ensures second[id] == after[id] {
      var k := IndexOfId(prepared, id);
      UpsertedIsStable(jobs, after, prepared, now, later, k);
    }
  }

  /** Replacing by the same jobs again changes nothing, however much later. */
  lemma ReplacementIsIdempotent(jobs: map<Id, Job>, applied: set<Id>, prepared: seq<Prepared>, scope: Option<set<Id>>,
                                now: string, later: string)
    requires DistinctIds(prepared)
    ensures var after := Pruned(UpsertedAll(jobs, prepared, |prepared|, now), applied, Ids(prepared), scope);
      Pruned(UpsertedAll(after, prepared, |prepared|, later), applied, Ids(prepared), scope) == after
  {
    UpsertingTwice(jobs, applied, prepared, scope, now, later);
  }

  class JobRepository {
    const fold: Folding
    const digest: string -> string
    var companies: seq<(Id, string)>         // list_companies(): identifiers and names
    var jobs: map<Id, Job>
    var applications: map<Id, string>        // by job, ON DELETE CASCADE

    /** The foreign key of applications. */
    ghost predicate Valid()
      reads this
    {
      applications.Keys <= jobs.Keys
    }

    constructor (fold: Folding, digest: string -> string, companies: seq<(Id, string)>)
      ensures Valid() && this.fold == fold && this.digest == digest && this.companies == companies
      ensures jobs == map[] && applications == map[]
    {
      this.fold, this.digest, this.companies, jobs, applications := fold, digest, companies, map[], map[];
    }

    /** The ordinal search of _prepare_jobs. It ends because `used` is finite. */
    method NextId(legacy: string, d: string, used: set<Id>) returns (id: Id)
      ensures Assigned(id, legacy, d, used)
    {
      id := legacy;
      if id in used {
        id := Candidate(legacy, d, 1);
        var ordinal := 2;
        while id in used
          invariant ordinal >= 2 && id == Candidate(legacy, d, ordinal - 1)
          invariant Tried(legacy, d, ordinal - 1) <= used
          decreases used - Tried(legacy, d, ordinal - 1)
        {
          NotTried(legacy, d, ordinal - 1, ordinal - 1);
          id := Candidate(legacy, d, ordinal);
          ordinal := ordinal + 1;
        }
      }
    }

    method CompaniesByName() returns (byName: map<string, Id>)
      ensures byName == ByName(fold, companies)
    {
      byName := map[];
      for n := 0 to |companies|
        invariant byName == ByName(fold, companies[..n])
      {
        assert companies[..n + 1][..n] == companies[..n];
        byName := byName[Fold(fold, companies[n].1) := companies[n].0];
      }
      assert companies[..|companies|] == companies;
    }

    /** _prepare_jobs */
    method PrepareJobs(sources: seq<Source>) returns (prepared: seq<Prepared>)
      ensures PreparedFrom(prepared, Kept(sources, |sources|), LookupOf(fold, digest, companies))
      ensures DistinctIds(prepared)
    {
      var byName := CompaniesByName();
      var lookup := Lookup(fold, digest, set c | c in companies :: c.0, byName);
      prepared := PrepareEach(sources, lookup);
      PreparedIdsAreDistinct(prepared, Kept(sources, |sources|), lookup);
    }

    /** The loop of _prepare_jobs. */
    method PrepareEach(sources: seq<Source>, lookup: Lookup) returns (prepared: seq<Prepared>)
      ensures PreparedFrom(prepared, Kept(sources, |sources|), lookup)
    {
      var used: set<Id> := {};
      prepared := [];
      for n := 0 to |sources|
        invariant used == Ids(prepared) && PreparedFrom(prepared, Kept(sources, n), lookup)
      {
        prepared, used := PrepareNext(prepared, used, sources[n], lookup, Kept(sources, n));
      }
    }

    method PrepareNext(prepared: seq<Prepared>, used: set<Id>, source: Source, lookup: Lookup, ghost kept: seq<Source>)
      returns (next: seq<Prepared>, nextUsed: set<Id>)
      requires used == Ids(prepared) && PreparedFrom(prepared, kept, lookup)
      ensures nextUsed == Ids(next)
      ensures PreparedFrom(next, if Usable(source) then kept + [source] else kept, lookup)
    {
      if LegacyId(source) == "" || Strip(source.title) == "" {
        return prepared, used;
      }
      var p := PrepareOne(source, lookup, used);
      PreparedNext(prepared, kept, lookup, p, source);
      next, nextUsed := prepared + [p], used + {p.id};
    }

    method PrepareOne(source: Source, lookup: Lookup, used: set<Id>) returns (p: Prepared)
      ensures IsNext(p, source, lookup, used)
    {
      var id := NextId(LegacyId(source), lookup.digest(Basis(source)), used);
      p := Prepared(id, LegacyId(source), ResolvedCompany(source, lookup), source);
    }

    /** insert_job */
    method InsertJob(p: Prepared, now: string)
      modifies this`jobs
      ensures jobs == Upserted(old(jobs), p, now)
    {
      var firstSeen := if p.job.firstSeen != "" then p.job.firstSeen else now;
      var created := now;
      if p.id in jobs {
        firstSeen, created := jobs[p.id].firstSeen, jobs[p.id].created;
      }
      jobs := jobs[p.id :=
        Job(p.legacyId, CompanyColumn(p), p.job.title, p.job.status, p.job.content, firstSeen, created)];
    }

    /** DELETE FROM jobs, with the cascade into applications. */
    method DeleteJobs(ids: set<Id>)
      requires Valid()
      modifies this`jobs, this`applications
      ensures Valid() && jobs == old(jobs) - ids && applications == old(applications) - ids
    {
      jobs, applications := jobs - ids, applications - ids;
    }

    /** prune_missing_jobs: one UPDATE and one DELETE. */
    method PruneMissingJobs(keep: set<Id>, scope: Option<set<Id>>)
      requires Valid()
      modifies this`jobs, this`applications
      ensures Valid() && applications == old(applications)
      ensures jobs == Pruned(old(jobs), applications.Keys, keep, scope)
    {
      if scope == Some({}) {
        return;
      }
      jobs := map id | id in jobs ::
        if id !in keep && InScope(jobs[id], scope) && id in applications
        then jobs[id].(status := "Archived") else jobs[id];
      DeleteJobs(set id | id in jobs && id !in keep && InScope(jobs[id], scope) && id !in applications);
    }

    method InsertAll(prepared: seq<Prepared>, now: string)
      requires Valid()
      modifies this`jobs
      ensures Valid() && jobs == UpsertedAll(old(jobs), prepared, |prepared|, now)
    {
      for n := 0 to |prepared|
        invariant jobs == UpsertedAll(old(jobs), prepared, n, now) && applications.Keys <= jobs.Keys
      {
        InsertJob(prepared[n], now);
      }
    }

    /** replace_jobs (scope None) and upsert_jobs_for_companies (scope Some): one transaction. */
    method ReplaceJobs(sources: seq<Source>, scope: Option<set<Id>>, now: string)
      returns (prepared: seq<Prepared>)
      requires Valid()
      modifies this`jobs, this`applications
      ensures Valid() && applications == old(applications)
      ensures PreparedFrom(prepared, Kept(sources, |sources|), LookupOf(fold, digest, companies))
      ensures DistinctIds(prepared)
      ensures jobs == Pruned(UpsertedAll(old(jobs), prepared, |prepared|, now), applications.Keys, Ids(prepared), scope)
      ensures forall id :: id in jobs <==>
        id in Ids(prepared) || (id in old(jobs) && (id in applications || !InScope(old(jobs)[id], scope)))
      ensures forall k :: 0 <= k < |prepared| ==> RowWritten(old(jobs), jobs, prepared[k], now)
      ensures forall id :: id in jobs && id !in old(jobs) ==> exists k :: 0 <= k < |prepared| && prepared[k].id == id
      ensures forall id :: id in old(jobs) && (forall k :: 0 <= k < |prepared| ==> prepared[k].id != id) ==>
        Unmentioned(old(jobs), jobs, applications.Keys, scope, id)
    {
      prepared := PrepareJobs(sources);
      InsertAll(prepared, now);
      PruneMissingJobs(Ids(prepared), scope);
      ReplacementKeepsApplied(old(jobs), applications.Keys, prepared, scope, now);
      AfterReplacement(old(jobs), applications.Keys, prepared, scope, now);
    }

    /** upsert_jobs */
    method UpsertJobs(sources: seq<Source>, now: string) returns (prepared: seq<Prepared>)
      requires Valid()
      modifies this`jobs
      ensures Valid() && PreparedFrom(prepared, Kept(sources, |sources|), LookupOf(fold, digest, companies))
      ensures jobs == UpsertedAll(old(jobs), prepared, |prepared|, now)
      ensures forall k :: 0 <= k < |prepared| ==> RowWritten(old(jobs), jobs, prepared[k], now)
      ensures jobs.Keys == old(jobs).Keys + Ids(prepared)
      ensures forall id :: id in old(jobs) && id !in Ids(prepared) ==> jobs[id] == old(jobs)[id]
    {
      prepared := PrepareJobs(sources);
      InsertAll(prepared, now);
      forall k | 0 <= k < |prepared| ensures RowWritten(old(jobs), jobs, prepared[k], now) {
        UpsertedRow(old(jobs), prepared, |prepared|, now, k);
      }
      UpsertedKeys(old(jobs), prepared, |prepared|, now);
      assert prepared[..|prepared|] == prepared;
    }
  }
}
