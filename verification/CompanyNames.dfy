/**
 Unique company names with tolerated legacy duplicates: the start-up backfill of
 backend/db.py and the company writes of backend/repository.py. The column
 normalized_name carries a partial unique index over its non-empty values.
 */
module CompanyNames {
  import opened Wrappers
  import opened Text

  type Id = string

  /** The columns that identify a company; the others never decide anything here. */
  datatype Company = Company(name: string, key: string, created: string)

  type Companies = map<Id, Company>

  datatype Result = Done(id: Id) | NameRequired | NotFound | Duplicate(of: Id)

  /** One incoming snapshot; `uuid` is the fresh identifier drawn if it needs one. */
  datatype Snapshot = Snapshot(id: Id, name: string, uuid: Id)

  // ---- What the tables promise ----------------------------------------------

  /** What the index enforces. */
  predicate Unique(companies: Companies) {
    forall i, j :: i in companies && j in companies && i != j && companies[i].key != "" ==>
      companies[i].key != companies[j].key
  }

  /** A stored key is the name's key or empty. */
  predicate KeysMatchNames(fold: Folding, companies: Companies) {
    forall i :: i in companies ==> companies[i].key == "" || companies[i].key == Normalize(fold, companies[i].name)
  }

  predicate Sound(fold: Folding, companies: Companies) {
    Unique(companies) && KeysMatchNames(fold, companies)
  }

  predicate Named(fold: Folding, companies: Companies, id: Id, name: string) {
    id in companies && Normalize(fold, companies[id].name) == name
  }

  predicate SameName(fold: Folding, companies: Companies, i: Id, j: Id) {
    && i in companies && j in companies
    && Normalize(fold, companies[i].name) == Normalize(fold, companies[j].name) != ""
  }

  /** No two companies share a (non-blank) name that did not share it before. */
  ghost predicate NoNewPair(fold: Folding, before: Companies, after: Companies) {
    forall i, j :: i != j && SameName(fold, after, i, j) ==> SameName(fold, before, i, j)
  }

  lemma NoNewPairChain(fold: Folding, a: Companies, b: Companies, c: Companies)
    requires NoNewPair(fold, a, b) && NoNewPair(fold, b, c)
    ensures NoNewPair(fold, a, c)
  {
  }

  // ---- ORDER BY created_at, id ----------------------------------------------

  predicate Before(companies: Companies, keyedFirst: bool, i: Id, j: Id)
    requires i in companies && j in companies
  {
    var a, b := companies[i], companies[j];
    if keyedFirst && (a.key == "") != (b.key == "") then a.key != ""
    else if a.created != b.created then Le(a.created, b.created)
    else Le(i, j)
  }

  /** Created earlier, or at the same time under an identifier that is not greater. */
  predicate Older(companies: Companies, i: Id, j: Id)
    requires i in companies && j in companies
  {
    && Le(companies[i].created, companies[j].created)
    && (companies[i].created == companies[j].created ==> Le(i, j))
  }

  /** Keyed rows first, then the older ones. */
  predicate KeyedOrOlder(companies: Companies, i: Id, j: Id)
    requires i in companies && j in companies
  {
    && (companies[i].key == "" ==> companies[j].key == "")
    && ((companies[i].key == "" <==> companies[j].key == "") ==> Older(companies, i, j))
  }

  lemma BeforeMeans(companies: Companies, i: Id, j: Id)
    requires i in companies && j in companies
    ensures Before(companies, false, i, j) <==> Older(companies, i, j)
    ensures Before(companies, true, i, j) <==> KeyedOrOlder(companies, i, j)
  {
    LeTotal(companies[i].created, companies[j].created);
  }

  /** The listing is sorted and has no repetition. */
  predicate Ordered(companies: Companies, keyedFirst: bool, rows: seq<Id>) {
    rows == [] ||
    var last := rows[|rows| - 1];
    && last in companies
    && Ordered(companies, keyedFirst, rows[..|rows| - 1])
    && forall i :: i in rows[..|rows| - 1] ==> i != last && i in companies && Before(companies, keyedFirst, i, last)
  }

  lemma {:induction false} OrderedAt(companies: Companies, keyedFirst: bool, rows: seq<Id>, a: nat, b: nat)
    requires Ordered(companies, keyedFirst, rows) && a < b < |rows|
    ensures rows[a] in companies && rows[b] in companies
    ensures rows[a] != rows[b] && Before(companies, keyedFirst, rows[a], rows[b])
  {
    var front := rows[..|rows| - 1];
    if b < |rows| - 1 {
      OrderedAt(companies, keyedFirst, front, a, b);
      assert front[a] == rows[a] && front[b] == rows[b];
    } else {
      assert rows[a] == front[a] && front[a] in front;
    }
  }

  lemma {:induction false} OrderedMember(companies: Companies, keyedFirst: bool, rows: seq<Id>, n: nat)
    requires Ordered(companies, keyedFirst, rows) && n < |rows|
    ensures rows[n] in companies
  {
    if n < |rows| - 1 {
      OrderedMember(companies, keyedFirst, rows[..|rows| - 1], n);
    }
  }

  lemma OrderedIsDistinct(companies: Companies, keyedFirst: bool, rows: seq<Id>)
    requires Ordered(companies, keyedFirst, rows)
    ensures Distinct(rows)
  {
    forall a, b | 0 <= a < b < |rows| ensures rows[a] != rows[b] {
      OrderedAt(companies, keyedFirst, rows, a, b);
    }
  }

  lemma BeforeTransitive(companies: Companies, keyedFirst: bool, i: Id, j: Id, k: Id)
    requires i in companies && j in companies && k in companies
    requires Before(companies, keyedFirst, i, j) && Before(companies, keyedFirst, j, k)
    ensures Before(companies, keyedFirst, i, k)
  {
    var a, b, c := companies[i].created, companies[j].created, companies[k].created;
    LeTotal(a, b);
    LeTotal(b, c);
    LeTotal(a, c);
    if Le(a, b) && Le(b, c) { LeTransitive(a, b, c); }
    if Le(i, j) && Le(j, k) { LeTransitive(i, j, k); }
  }

  lemma BeforeTotal(companies: Companies, keyedFirst: bool, i: Id, j: Id)
    requires i in companies && j in companies
    ensures Before(companies, keyedFirst, i, j) || Before(companies, keyedFirst, j, i)
    ensures Before(companies, keyedFirst, i, j) && Before(companies, keyedFirst, j, i) ==> i == j
  {
    LeTotal(companies[i].created, companies[j].created);
    LeTotal(i, j);
  }

  predicate IsFirst(companies: Companies, keyedFirst: bool, ids: set<Id>, m: Id) {
    m in ids && m in companies && forall i :: i in ids ==> i in companies && Before(companies, keyedFirst, m, i)
  }

  lemma {:induction false} FirstExists(companies: Companies, keyedFirst: bool, ids: set<Id>)
    requires ids != {} && ids <= companies.Keys
    ensures exists m :: IsFirst(companies, keyedFirst, ids, m)
    decreases |ids|
  {
    var x :| x in ids;
    var rest := ids - {x};
    BeforeTotal(companies, keyedFirst, x, x);
    if rest == {} {
      assert forall i :: i in ids ==> i == x || i in rest;
      assert IsFirst(companies, keyedFirst, ids, x);
    } else {
      FirstExists(companies, keyedFirst, rest);
      var m :| IsFirst(companies, keyedFirst, rest, m);
      FirstOfMore(companies, keyedFirst, rest, m, x);
      assert ids == rest + {x};
    }
  }

  lemma FirstOfMore(companies: Companies, keyedFirst: bool, rest: set<Id>, m: Id, x: Id)
    requires IsFirst(companies, keyedFirst, rest, m) && x in companies
    ensures IsFirst(companies, keyedFirst, rest + {x}, m) || IsFirst(companies, keyedFirst, rest + {x}, x)
  {
    BeforeTotal(companies, keyedFirst, x, x);
    BeforeTotal(companies, keyedFirst, x, m);
    if Before(companies, keyedFirst, x, m) {
      forall i | i in rest ensures Before(companies, keyedFirst, x, i) {
        BeforeTransitive(companies, keyedFirst, x, m, i);
      }
      assert IsFirst(companies, keyedFirst, rest + {x}, x);
    } else {
      assert IsFirst(companies, keyedFirst, rest + {x}, m);
    }
  }

  /** A listing in the making: `rows` are listed, `rest` still comes behind all of them. */
  predicate Listing(companies: Companies, keyedFirst: bool, wanted: set<Id>, rows: seq<Id>, rest: set<Id>) {
    && wanted <= companies.Keys && rest <= wanted && Ordered(companies, keyedFirst, rows)
    && (forall i :: i in rows ==> i in wanted && i !in rest)
    && (forall i :: i in wanted && i !in rest ==> i in rows)
    && (forall i, j :: i in rows && j in rest ==> i in companies && Before(companies, keyedFirst, i, j))
  }

  lemma ListingNext(companies: Companies, keyedFirst: bool, wanted: set<Id>, rows: seq<Id>, rest: set<Id>, m: Id)
    requires Listing(companies, keyedFirst, wanted, rows, rest) && IsFirst(companies, keyedFirst, rest, m)
    ensures Listing(companies, keyedFirst, wanted, rows + [m], rest - {m})
  {
    var next := rows + [m];
    assert next[..|next| - 1] == rows && next[|next| - 1] == m;
    assert Ordered(companies, keyedFirst, next);
    assert forall i :: i in next <==> i in rows || i == m;
  }

  // ---- Backfill -------------------------------------------------------------

  /** The first row of its name, in the order (created_at, id). */
  predicate OwnsName(fold: Folding, companies: Companies, id: Id)
    requires id in companies
  {
    var name := Normalize(fold, companies[id].name);
    name != "" && forall other :: other in companies && Normalize(fold, companies[other].name) == name ==>
      Before(companies, false, id, other)
  }

  function DesiredKey(fold: Folding, companies: Companies, id: Id): string
    requires id in companies
  {
    if OwnsName(fold, companies, id) then Normalize(fold, companies[id].name) else ""
  }

  predicate Backfilled(fold: Folding, companies: Companies) {
    forall i :: i in companies ==> companies[i].key == DesiredKey(fold, companies, i)
  }

  /** The same rows up to the key column. */
  predicate SameNames(a: Companies, b: Companies) {
    a.Keys == b.Keys && forall i :: i in a ==> a[i].name == b[i].name && a[i].created == b[i].created
  }

  lemma SameOwners(fold: Folding, a: Companies, b: Companies, id: Id)
    requires SameNames(a, b) && id in a
    ensures OwnsName(fold, a, id) == OwnsName(fold, b, id)
  {
    assert forall j :: j in a ==> Before(a, false, id, j) == Before(b, false, id, j);
  }

  /** The names alone determine the keys, so a second backfill changes nothing. */
  lemma BackfillIsIdempotent(fold: Folding, a: Companies, b: Companies)
    requires Backfilled(fold, a) && Backfilled(fold, b) && SameNames(a, b)
    ensures a == b
  {
    forall i | i in a ensures a[i] == b[i] {
      SameOwners(fold, a, b, i);
    }
  }

  lemma BackfillMeetsDesire(fold: Folding, before: Companies, after: Companies)
    requires SameNames(before, after)
    requires forall i :: i in after ==> after[i].key == DesiredKey(fold, before, i)
    ensures Backfilled(fold, after)
    ensures Backfilled(fold, before) ==> after == before
  {
    forall i | i in after ensures DesiredKey(fold, before, i) == DesiredKey(fold, after, i) {
      SameOwners(fold, before, after, i);
    }
    if Backfilled(fold, before) {
      BackfillIsIdempotent(fold, before, after);
    }
  }

  lemma DesiredKeysDiffer(fold: Folding, companies: Companies, i: Id, j: Id)
    requires i in companies && j in companies && i != j && DesiredKey(fold, companies, i) != ""
    ensures DesiredKey(fold, companies, i) != DesiredKey(fold, companies, j)
  {
    BeforeTotal(companies, false, i, j);
  }

  /** Every name has exactly one keyed row, the first of its class. */
  lemma BackfilledIsSound(fold: Folding, companies: Companies)
    requires Backfilled(fold, companies)
    ensures Sound(fold, companies)
    ensures forall name: string, id: Id :: name != "" && Named(fold, companies, id, name) ==> HasOwner(companies, name)
  {
    forall i, j | i in companies && j in companies && i != j && companies[i].key != ""
      ensures companies[i].key != companies[j].key
    {
      DesiredKeysDiffer(fold, companies, i, j);
    }
    forall name: string, id: Id | name != "" && Named(fold, companies, id, name)
      ensures HasOwner(companies, name)
    {
      var class_ := set i | i in companies && Normalize(fold, companies[i].name) == name;
      assert id in class_;
      FirstExists(companies, false, class_);
      var owner :| IsFirst(companies, false, class_, owner);
      assert OwnsName(fold, companies, owner);
      assert companies[owner].key == name;
    }
  }

  /** The keyed row of a name is the oldest one that has the name. */
  lemma KeyedRowIsOldest(fold: Folding, companies: Companies, i: Id, j: Id)
    requires Backfilled(fold, companies) && i in companies && companies[i].key != ""
    requires Named(fold, companies, j, companies[i].key)
    ensures Older(companies, i, j)
  {
    assert OwnsName(fold, companies, i);
    BeforeMeans(companies, i, j);
  }

  /** The table after the first pass has seen the rows in `seen`. */
  function Cleared(before: Companies, desired: map<Id, string>, seen: set<Id>): Companies
    requires before.Keys == desired.Keys
  {
    map i | i in before :: if i in seen && before[i].key != desired[i] then before[i].(key := "") else before[i]
  }

  /** The table after the second pass has seen the rows in `seen`. */
  function Assigned(before: Companies, desired: map<Id, string>, seen: set<Id>): Companies
    requires before.Keys == desired.Keys
  {
    map i | i in before ::
      if before[i].key == desired[i] || i in seen then before[i].(key := desired[i]) else before[i].(key := "")
  }

  lemma ClearedNext(before: Companies, desired: map<Id, string>, seen: set<Id>, id: Id)
    requires before.Keys == desired.Keys && id in before
    ensures var now := Cleared(before, desired, seen);
      && Cleared(before, desired, seen + {id}) ==
           (if before[id].key == desired[id] then now else now[id := now[id].(key := "")])
      && (before[id].key == "" ==> now[id].key == "")
  {
  }

  lemma AssignedNothing(before: Companies, desired: map<Id, string>)
    requires before.Keys == desired.Keys
    ensures Assigned(before, desired, {}) == Cleared(before, desired, desired.Keys)
  {
  }

  lemma AssignedNext(before: Companies, desired: map<Id, string>, seen: set<Id>, id: Id)
    requires before.Keys == desired.Keys && id in before
    ensures var now := Assigned(before, desired, seen);
      && Assigned(before, desired, seen + {id}) == now[id := now[id].(key := desired[id])]
      && (desired[id] == "" || before[id].key == desired[id] ==> now[id].key == desired[id])
      && forall i :: i in now ==> now[i].key == "" || now[i].key == desired[i]
  {
  }

  function Seen(rows: seq<Id>, n: nat): set<Id>
    requires n <= |rows|
  {
    set i | i in rows[..n]
  }

  predicate Distinct(rows: seq<Id>) {
    forall a, b :: 0 <= a < b < |rows| ==> rows[a] != rows[b]
  }

  lemma SeenNext(rows: seq<Id>, n: nat)
    requires n < |rows|
    ensures Seen(rows, n + 1) == Seen(rows, n) + {rows[n]} && rows[n] in Seen(rows, |rows|)
    ensures Distinct(rows) ==> rows[n] !in Seen(rows, n)
  {
    assert rows[..n + 1] == rows[..n] + [rows[n]];
    assert rows[..|rows|] == rows;
  }

  function NamesOf(fold: Folding, companies: Companies, rows: seq<Id>): (names: seq<string>)
    requires forall i :: i in rows ==> i in companies
    ensures |names| == |rows| && forall a :: 0 <= a < |rows| ==> names[a] == Normalize(fold, companies[rows[a]].name)
  {
    seq(|rows|, a requires 0 <= a < |rows| => Normalize(fold, companies[rows[a]].name))
  }

  /** The dictionary `preferred` after n rows: setdefault keeps the first of each name. */
  function Preferred(names: seq<string>, rows: seq<Id>, n: nat): map<string, Id>
    requires n <= |rows| == |names|
  {
    if n == 0 then map[]
    else
      var p := Preferred(names, rows, n - 1);
      if names[n - 1] == "" || names[n - 1] in p then p else p[names[n - 1] := rows[n - 1]]
  }

  /** The dictionary `desired` after n rows. */
  function Desired(names: seq<string>, rows: seq<Id>, n: nat): map<Id, string>
    requires n <= |rows| == |names|
  {
    if n == 0 then map[]
    else
      var p := Preferred(names, rows, n);
      var owns := names[n - 1] in p && p[names[n - 1]] == rows[n - 1];
      Desired(names, rows, n - 1)[rows[n - 1] := if owns then names[n - 1] else ""]
  }

  lemma {:induction false} PreferredKeepsFirst(names: seq<string>, rows: seq<Id>, n: nat)
    requires n <= |rows| == |names| && Distinct(rows)
    ensures forall name :: name in Preferred(names, rows, n) <==> name != "" && name in names[..n]
    ensures forall name :: name in Preferred(names, rows, n) ==> Preferred(names, rows, n)[name] in rows[..n]
  {
    if n > 0 {
      PreferredKeepsFirst(names, rows, n - 1);
      assert names[..n] == names[..n - 1] + [names[n - 1]];
      assert rows[..n] == rows[..n - 1] + [rows[n - 1]];
    }
  }

  lemma {:induction false} DesiredHasSeen(names: seq<string>, rows: seq<Id>, n: nat)
    requires n <= |rows| == |names|
    ensures Desired(names, rows, n).Keys == Seen(rows, n)
  {
    if n > 0 {
      SeenNext(rows, n - 1);
      DesiredHasSeen(names, rows, n - 1);
    }
  }

  lemma {:induction false} DesiredGoesToFirst(names: seq<string>, rows: seq<Id>, n: nat, k: nat)
    requires k < n <= |rows| == |names| && Distinct(rows)
    ensures rows[k] in Desired(names, rows, n)
    ensures Desired(names, rows, n)[rows[k]] == if names[k] !in names[..k] then names[k] else ""
  {
    if k < n - 1 {
      DesiredGoesToFirst(names, rows, n - 1, k);
    } else {
      PreferredKeepsFirst(names, rows, k);
    }
  }

  lemma LaterRowOwnsNothing(fold: Folding, companies: Companies, rows: seq<Id>, a: nat, n: nat)
    requires a < n < |rows| && Ordered(companies, false, rows) && forall i :: i in rows ==> i in companies
    requires Normalize(fold, companies[rows[a]].name) == Normalize(fold, companies[rows[n]].name)
    ensures !OwnsName(fold, companies, rows[n])
  {
    OrderedAt(companies, false, rows, a, n);
    BeforeTotal(companies, false, rows[a], rows[n]);
  }

  lemma EarliestRowOwns(fold: Folding, companies: Companies, rows: seq<Id>, n: nat)
    requires n < |rows| && Ordered(companies, false, rows) && forall i :: i in rows <==> i in companies
    requires var name := Normalize(fold, companies[rows[n]].name);
      name != "" && forall a :: 0 <= a < n ==> Normalize(fold, companies[rows[a]].name) != name
    ensures OwnsName(fold, companies, rows[n])
  {
    forall i | i in companies && Normalize(fold, companies[i].name) == Normalize(fold, companies[rows[n]].name)
      ensures Before(companies, false, rows[n], i)
    {
      var a :| 0 <= a < |rows| && rows[a] == i;
      BeforeTotal(companies, false, i, i);
      if n < a {
        OrderedAt(companies, false, rows, n, a);
      }
    }
  }

  lemma FirstRowOwns(fold: Folding, companies: Companies, rows: seq<Id>, n: nat)
    requires n < |rows| && Ordered(companies, false, rows) && forall i :: i in rows <==> i in companies
    ensures var names := NamesOf(fold, companies, rows);
      DesiredKey(fold, companies, rows[n]) == if names[n] !in names[..n] then names[n] else ""
  {
    var names := NamesOf(fold, companies, rows);
    if names[n] in names[..n] {
      var a :| 0 <= a < n && names[a] == names[n];
      LaterRowOwnsNothing(fold, companies, rows, a, n);
    } else if names[n] != "" {
      forall a | 0 <= a < n
        ensures Normalize(fold, companies[rows[a]].name) != names[n]
      {
        assert names[..n][a] == names[a];
      }
      EarliestRowOwns(fold, companies, rows, n);
    }
  }

  lemma DesiredAt(fold: Folding, companies: Companies, rows: seq<Id>, n: nat)
    requires n < |rows| && Ordered(companies, false, rows) && forall i :: i in rows <==> i in companies
    ensures var desired := Desired(NamesOf(fold, companies, rows), rows, |rows|);
      && rows[n] in desired && desired[rows[n]] == DesiredKey(fold, companies, rows[n])
      && desired.Keys == Seen(rows, |rows|)
  {
    OrderedIsDistinct(companies, false, rows);
    FirstRowOwns(fold, companies, rows, n);
    DesiredHasSeen(NamesOf(fold, companies, rows), rows, |rows|);
    DesiredGoesToFirst(NamesOf(fold, companies, rows), rows, |rows|, n);
  }

  function Goal(fold: Folding, companies: Companies): map<Id, string> {
    map i | i in companies :: DesiredKey(fold, companies, i)
  }

  lemma SameOverRows(rows: seq<Id>, a: map<Id, string>, b: map<Id, string>)
    requires a.Keys == b.Keys == Seen(rows, |rows|)
    requires forall n :: 0 <= n < |rows| ==> rows[n] in a && a[rows[n]] == b[rows[n]]
    ensures a == b
  {
    forall i | i in a ensures a[i] == b[i] {
      var n :| 0 <= n < |rows| && rows[n] == i;
    }
  }

  /** The dictionary gives every row the key its place in (created_at, id) earns it. */
  lemma DesiredIsTheGoal(fold: Folding, companies: Companies, rows: seq<Id>)
    requires Ordered(companies, false, rows) && forall i :: i in rows <==> i in companies
    ensures Desired(NamesOf(fold, companies, rows), rows, |rows|) == Goal(fold, companies)
  {
    var desired, goal := Desired(NamesOf(fold, companies, rows), rows, |rows|), Goal(fold, companies);
    assert Seen(rows, |rows|) == companies.Keys by {
      assert rows[..|rows|] == rows;
    }
    if rows != [] {
      DesiredAt(fold, companies, rows, 0);
    }
    forall n | 0 <= n < |rows| ensures rows[n] in desired && desired[rows[n]] == goal[rows[n]] {
      DesiredAt(fold, companies, rows, n);
    }
    SameOverRows(rows, desired, goal);
  }

  // ---- Writing one row ------------------------------------------------------

  /** Some other company already carries the name. */
  ghost predicate Taken(fold: Folding, companies: Companies, key: string, except: Option<Id>) {
    exists i :: Named(fold, companies, i, key) && Some(i) != except
  }

  predicate HasOwner(companies: Companies, key: string) {
    exists i :: i in companies && companies[i].key == key
  }

  predicate Known(companies: Companies, source: Snapshot) {
    Strip(source.id) != "" && Strip(source.id) in companies
  }

  /** A blank incoming name stands for the stored one. */
  function EffectiveName(companies: Companies, source: Snapshot): string {
    if Known(companies, source) && Strip(source.name) == "" then companies[Strip(source.id)].name else source.name
  }

  /** normalized_name_for_existing_company */
  function StoredKey(current: string, key: string, duplicate: bool): string {
    if current == key then key else if duplicate then "" else key
  }

  /** A row as the writers store it: under a name that is free or that the row had already, with
      the key that normalized_name_for_existing_company chooses. */
  ghost predicate KeepsNames(fold: Folding, companies: Companies, id: Id, row: Company) {
    var key := Normalize(fold, row.name);
    var duplicate := Taken(fold, companies, key, Some(id));
    && key != ""
    && row.key == (if id in companies then StoredKey(companies[id].key, key, duplicate) else key)
    && (duplicate ==> Named(fold, companies, id, key))
  }

  /** A write under a name that is free, or that the row had already, meets no index conflict,
      keeps stored keys sound and creates no second holder of a name. */
  lemma WriteKeepsNames(fold: Folding, companies: Companies, id: Id, row: Company)
    requires Sound(fold, companies) && KeepsNames(fold, companies, id, row)
    ensures Sound(fold, companies[id := row]) && NoNewPair(fold, companies, companies[id := row])
  {
    var key := Normalize(fold, row.name);
    var after := companies[id := row];
    forall i | i in companies && i != id && row.key != "" ensures companies[i].key != row.key {
      if companies[i].key == row.key {
        assert Named(fold, companies, i, key);
      }
    }
    forall i, j | i != j && SameName(fold, after, i, j) ensures SameName(fold, companies, i, j) {
      if i == id {
        assert Named(fold, companies, j, key);
      } else if j == id {
        assert Named(fold, companies, i, key);
      }
    }
  }

  /** After one row was written or deleted: a name has a keyed row exactly if it is the row's new
      key, or had one that is not the row's old key. */
  ghost predicate OwnersMoved(before: Companies, id: Id, after: Companies) {
    forall key | key != "" :: HasOwner(after, key) <==>
      || (id in after && after[id].key == key)
      || (HasOwner(before, key) && !(id in before && before[id].key == key))
  }

  lemma OwnersMove(before: Companies, id: Id, after: Companies)
    requires Unique(before) && after - {id} == before - {id}
    ensures OwnersMoved(before, id, after)
  {
    forall i | i != id
      ensures i in before <==> i in after
      ensures i in before ==> before[i] == after[i]
    {
      assert i in before - {id} <==> i in after - {id};
      if i in before {
        assert (before - {id})[i] == (after - {id})[i];
      }
    }
    forall key | key != "" && HasOwner(before, key) && !(id in before && before[id].key == key)
      ensures HasOwner(after, key)
    {
      var i :| i in before && before[i].key == key;
      assert i in after && after[i].key == key;
    }
    forall key | key != "" && HasOwner(after, key) && !(id in after && after[id].key == key)
      ensures HasOwner(before, key) && !(id in before && before[id].key == key)
    {
      var i :| i in after && after[i].key == key;
      assert i in before && before[i].key == key;
    }
  }

  /** A name that some company carries and no keyed row stands for: the index no longer guards it. */
  ghost predicate Stranded(fold: Folding, companies: Companies, name: string) {
    name != "" && (exists i :: Named(fold, companies, i, name)) && !HasOwner(companies, name)
  }

  /** A write strands a name exactly if it takes the key from the name's owner while another
      company carries the name; a stranded name stays so as long as another company carries it.
      `row` is None for a deletion. */
  lemma StrandsExactly(fold: Folding, companies: Companies, id: Id, row: Option<Company>, name: string)
    requires Sound(fold, companies) && (row.Some? ==> KeepsNames(fold, companies, id, row.value)) && name != ""
    ensures var after := if row.Some? then companies[id := row.value] else companies - {id};
      && (Stranded(fold, after, name) && !Stranded(fold, companies, name) <==>
            && id in companies && companies[id].key == name && !(row.Some? && row.value.key == name)
            && Taken(fold, companies, name, Some(id)))
      && (Stranded(fold, companies, name) && Taken(fold, companies, name, Some(id)) ==>
            Stranded(fold, after, name))
  {
    var after := if row.Some? then companies[id := row.value] else companies - {id};
    OwnersMove(companies, id, after);
    forall i | i != id
      ensures Named(fold, after, i, name) <==> Named(fold, companies, i, name)
    {
    }
    assert HasOwner(after, name) <==>
      || (id in after && after[id].key == name)
      || (HasOwner(companies, name) && !(id in companies && companies[id].key == name));
    if id in companies && companies[id].key == name {
      assert HasOwner(companies, name);
    }
  }

  /** Renaming the owner strands the other holder, under any folding. */
  lemma RenamingStrands(fold: Folding, former: string, next: string)
    requires Normalize(fold, former) != "" && Normalize(fold, next) !in {"", Normalize(fold, former)}
    ensures exists companies: Companies, row: Company ::
      && Sound(fold, companies) && KeepsNames(fold, companies, "a", row)
      && !Stranded(fold, companies, Normalize(fold, former))
      && Stranded(fold, companies["a" := row], Normalize(fold, former))
  {
    var owner, other := Company(former, Normalize(fold, former), ""), Company(former, "", "");
    var row := Company(next, Normalize(fold, next), "");
    var companies: Companies := map["a" := owner, "b" := other];
    assert companies.Keys == {"a", "b"} && "a" != "b";
    assert Sound(fold, companies);
    assert Named(fold, companies, "b", Normalize(fold, former));
    assert !Taken(fold, companies, Normalize(fold, next), Some("a"));
    assert HasOwner(companies, Normalize(fold, former)) by {
      assert companies["a"].key == Normalize(fold, former);
    }
    StrandsExactly(fold, companies, "a", Some(row), Normalize(fold, former));
    assert Taken(fold, companies, Normalize(fold, former), Some("a"));
    assert KeepsNames(fold, companies, "a", row);
    assert !Stranded(fold, companies, Normalize(fold, former));
    assert Stranded(fold, companies["a" := row], Normalize(fold, former));
  }

  /** What one source of upsert_company_snapshots does when it is accepted: a known identifier is
      updated; else a known name absorbs the snapshot, in the row that Find prefers; else a row is added. */
  ghost predicate Upserted(fold: Folding, before: Companies, source: Snapshot, now: string, id: Id, after: Companies) {
    var name := EffectiveName(before, source);
    var key := Normalize(fold, name);
    && key != "" && id in after
    && after == before[id := after[id]]
    && if Known(before, source) then
         && id == Strip(source.id)
         && after[id] == Company(Strip(name), StoredKey(before[id].key, key, Taken(fold, before, key, Some(id))),
                                 before[id].created)
       else if Taken(fold, before, key, None) then
         && Named(fold, before, id, key)
         && (forall i :: Named(fold, before, i, key) ==> KeyedOrOlder(before, id, i))
         && after[id] == before[id].(key := StoredKey(before[id].key, key, Taken(fold, before, key, Some(id))))
       else
         && id == (if Strip(source.id) != "" then Strip(source.id) else source.uuid)
         && after[id] == Company(Strip(name), key, now)
  }

  /** Why a source is refused: a blank name, or a rename onto a name that another company has. */
  ghost predicate RefusedSource(fold: Folding, before: Companies, source: Snapshot) {
    var name := EffectiveName(before, source);
    || Strip(name) == ""
    || (&& Known(before, source)
        && Taken(fold, before, Normalize(fold, name), Some(Strip(source.id)))
        && !Named(fold, before, Strip(source.id), Normalize(fold, name)))
  }

  /** A batch that is applied one source after the other, through these tables. */
  ghost predicate Applied(fold: Folding, sources: seq<Snapshot>, now: string, tables: seq<Companies>, ids: seq<Id>) {
    && |tables| == |ids| + 1 && |ids| <= |sources|
    && forall n :: 0 <= n < |ids| ==> Upserted(fold, tables[n], sources[n], now, ids[n], tables[n + 1])
  }

  lemma AppliedNext(
    fold: Folding, sources: seq<Snapshot>, now: string, tables: seq<Companies>, ids: seq<Id>, id: Id, after: Companies)
    requires Applied(fold, sources, now, tables, ids) && |ids| < |sources|
    requires Upserted(fold, tables[|ids|], sources[|ids|], now, id, after)
    ensures Applied(fold, sources, now, tables + [after], ids + [id])
  {
    var more := tables + [after];
    forall n | 0 <= n < |ids| + 1
      ensures Upserted(fold, more[n], sources[n], now, (ids + [id])[n], more[n + 1])
    {
      if n < |ids| {
        assert more[n] == tables[n] && more[n + 1] == tables[n + 1] && (ids + [id])[n] == ids[n];
      } else {
        assert more[n] == tables[n] && more[n + 1] == after && (ids + [id])[n] == id;
      }
    }
  }

  // ---- The table and its writers --------------------------------------------

  /** The first listed row of a name comes before all others of it that are listed. */
  lemma FirstMatch(fold: Folding, companies: Companies, rows: seq<Id>, key: string, n: nat)
    requires n < |rows| && Ordered(companies, true, rows)
    requires forall a :: 0 <= a < n ==> !Named(fold, companies, rows[a], key)
    ensures rows[n] in companies
    ensures forall i :: i in rows && Named(fold, companies, i, key) ==> KeyedOrOlder(companies, rows[n], i)
  {
    OrderedMember(companies, true, rows, n);
    forall i | i in rows && Named(fold, companies, i, key) ensures KeyedOrOlder(companies, rows[n], i) {
      var a :| 0 <= a < |rows| && rows[a] == i;
      BeforeMeans(companies, rows[n], i);
      if a == n {
        BeforeTotal(companies, true, i, i);
      } else {
        OrderedAt(companies, true, rows, n, a);
      }
    }
  }

  class CompanyRepository {
    const fold: Folding
    var companies: Companies
    var indexed: bool          // idx_companies_normalized_name_unique exists

    /** Between any two statements: what the index, if it exists, enforces. */
    ghost predicate IndexHolds()
      reads this
    {
      indexed ==> Unique(companies)
    }

    ghost predicate Valid()
      reads this
    {
      indexed && Sound(fold, companies)
    }

    constructor (fold: Folding, companies: Companies, indexed: bool)
      requires indexed ==> Unique(companies)
      ensures IndexHolds() && this.fold == fold && this.companies == companies && this.indexed == indexed
    {
      this.fold, this.companies, this.indexed := fold, companies, indexed;
    }

    /** SELECT ... ORDER BY [keyed first,] created_at, id, without one row. */
    method Rows(keyedFirst: bool, exclude: Option<Id>) returns (rows: seq<Id>)
      ensures Ordered(companies, keyedFirst, rows)
      ensures forall i :: i in rows <==> i in companies && Some(i) != exclude
    {
      rows := [];
      var wanted := set i | i in companies && Some(i) != exclude;
      var rest := wanted;
      while rest != {}
        invariant Listing(companies, keyedFirst, wanted, rows, rest)
        decreases |rest|
      {
        FirstExists(companies, keyedFirst, rest);
        var first :| IsFirst(companies, keyedFirst, rest, first);
        ListingNext(companies, keyedFirst, wanted, rows, rest, first);
        rest := rest - {first};
        rows := rows + [first];
      }
    }

    /** One UPDATE of the key column. The statement fails unless the key is free. */
    method SetKey(id: Id, key: string)
      requires id in companies && IndexHolds()
      requires indexed && key != "" ==> forall i :: i in companies && i != id ==> companies[i].key != key
      modifies this`companies
      ensures IndexHolds()
      ensures companies == old(companies)[id := old(companies)[id].(key := key)]
    {
      companies := companies[id := companies[id].(key := key)];
    }

    /** The dictionaries of backfill_company_normalized_names. */
    method DesiredKeys(rows: seq<Id>) returns (desired: map<Id, string>)
      requires forall i :: i in rows ==> i in companies
      ensures desired == Desired(NamesOf(fold, companies, rows), rows, |rows|)
    {
      ghost var names := NamesOf(fold, companies, rows);
      var preferred: map<string, Id> := map[];
      desired := map[];
      for n := 0 to |rows|
        invariant preferred == Preferred(names, rows, n) && desired == Desired(names, rows, n)
        invariant "" !in preferred
      {
        var name := Normalize(fold, companies[rows[n]].name);
        preferred, desired := NextDesired(name, rows[n], preferred, desired);
      }
    }

    /** One turn of its loop. */
    method NextDesired(name: string, id: Id, preferred: map<string, Id>, desired: map<Id, string>)
      returns (nextPreferred: map<string, Id>, nextDesired: map<Id, string>)
      requires "" !in preferred
      ensures nextPreferred == if name == "" || name in preferred then preferred else preferred[name := id]
      ensures nextDesired ==
        desired[id := if name in nextPreferred && nextPreferred[name] == id then name else ""]
    {
      nextPreferred := preferred;
      if name == "" {
        nextDesired := desired[id := ""];
      } else {
        if name !in preferred {
          nextPreferred := preferred[name := id];
        }
        nextDesired := desired[id := if nextPreferred[name] == id then name else ""];
      }
    }

    /** backfill_company_normalized_names: no statement of it can violate the index, even
        where the index already exists. */
    method Backfill()
      requires IndexHolds()
      modifies this`companies
      ensures IndexHolds() && Backfilled(fold, companies) && SameNames(old(companies), companies)
      ensures Backfilled(fold, old(companies)) ==> companies == old(companies)
    {
      var rows := Rows(false, None);
      var desired := DesiredKeys(rows);
      var before := companies;
      DesiredIsTheGoal(fold, companies, rows);
      OrderedIsDistinct(companies, false, rows);
      assert Seen(rows, |rows|) == companies.Keys by {
        assert rows[..|rows|] == rows;
      }
      ClearStaleKeys(rows, desired);
      forall i, j | i in before && j in before && i != j && desired[i] != "" ensures desired[i] != desired[j] {
        DesiredKeysDiffer(fold, before, i, j);
      }
      AssignOwners(rows, desired, before);
      BackfillMeetsDesire(fold, before, companies);
    }

    /** The first pass. */
    method ClearStaleKeys(rows: seq<Id>, desired: map<Id, string>)
      requires IndexHolds() && desired.Keys == companies.Keys == Seen(rows, |rows|)
      modifies this`companies
      ensures IndexHolds() && companies == Cleared(old(companies), desired, desired.Keys)
    {
      var before := companies;
      assert Cleared(before, desired, {}) == before;
      for n := 0 to |rows|
        invariant IndexHolds() && companies == Cleared(before, desired, Seen(rows, n))
      {
        var id := rows[n];
        SeenNext(rows, n);
        ClearedNext(before, desired, Seen(rows, n), id);
        if before[id].key != "" && before[id].key != desired[id] {
          SetKey(id, "");
        }
      }
    }

    /** The second pass. Like the first, it tests the keys as read before the first pass. */
    method AssignOwners(rows: seq<Id>, desired: map<Id, string>, before: Companies)
      requires IndexHolds() && desired.Keys == before.Keys == Seen(rows, |rows|)
      requires companies == Cleared(before, desired, desired.Keys)
      requires forall i, j :: i in before && j in before && i != j && desired[i] != "" ==> desired[i] != desired[j]
      modifies this`companies
      ensures IndexHolds() && companies == Assigned(before, desired, desired.Keys)
    {
      AssignedNothing(before, desired);
      for n := 0 to |rows|
        invariant IndexHolds() && companies == Assigned(before, desired, Seen(rows, n))
      {
        SeenNext(rows, n);
        AssignOwner(rows[n], desired, before, Seen(rows, n));
      }
    }

    method AssignOwner(id: Id, desired: map<Id, string>, before: Companies, ghost seen: set<Id>)
      requires IndexHolds() && desired.Keys == before.Keys && id in before
      requires companies == Assigned(before, desired, seen)
      requires forall i, j :: i in before && j in before && i != j && desired[i] != "" ==> desired[i] != desired[j]
      modifies this`companies
      ensures IndexHolds() && companies == Assigned(before, desired, seen + {id})
    {
      AssignedNext(before, desired, seen, id);
      if desired[id] != "" && before[id].key != desired[id] {
        SetKey(id, desired[id]);
      }
    }

    /** The part of initialize_schema that concerns names: CREATE UNIQUE INDEX cannot fail. */
    method InitializeSchema()
      requires IndexHolds()
      modifies this`companies, this`indexed
      ensures Valid() && Backfilled(fold, companies) && SameNames(old(companies), companies)
    {
      Backfill();
      BackfilledIsSound(fold, companies);
      assert Unique(companies);
      indexed := true;
    }

    /** find_company_by_normalized_name: a keyed row first, then the oldest. */
    method Find(key: string, exclude: Option<Id>) returns (found: Option<Id>)
      ensures found.None? ==> key == "" || forall i :: Named(fold, companies, i, key) ==> Some(i) == exclude
      ensures found.Some? ==> key != "" && found != exclude && Named(fold, companies, found.value, key)
      ensures found.Some? ==> forall i :: Named(fold, companies, i, key) && Some(i) != exclude ==>
        KeyedOrOlder(companies, found.value, i)
    {
      if key == "" {
        return None;
      }
      var rows := Rows(true, exclude);
      var n := FirstNamed(rows, key);
      if n == |rows| {
        assert forall i :: i in rows ==> !Named(fold, companies, i, key);
        return None;
      }
      FirstMatch(fold, companies, rows, key, n);
      assert rows[n] in rows;
      return Some(rows[n]);
    }

    /** The first of the rows that carries the name, or the number of rows. */
    method FirstNamed(rows: seq<Id>, key: string) returns (n: nat)
      requires forall i :: i in rows ==> i in companies
      ensures n <= |rows| && forall a :: 0 <= a < n ==> !Named(fold, companies, rows[a], key)
      ensures n < |rows| ==> Named(fold, companies, rows[n], key)
    {
      n := 0;
      while n < |rows|
        invariant n <= |rows| && forall a :: 0 <= a < n ==> !Named(fold, companies, rows[a], key)
      {
        if Normalize(fold, companies[rows[n]].name) == key {
          return;
        }
        n := n + 1;
      }
    }

    /** create_company. `id` is a fresh identifier. */
    method Create(id: Id, name: string, now: string) returns (result: Result)
      requires Valid() && id !in companies
      modifies this`companies
      ensures Valid() && NoNewPair(fold, old(companies), companies)
      ensures result.NameRequired? <==> Strip(name) == ""
      ensures result.Duplicate? <==> Strip(name) != "" && Taken(fold, old(companies), Normalize(fold, name), None)
      ensures result.Duplicate? ==> Named(fold, old(companies), result.of, Normalize(fold, name))
      ensures result.NameRequired? || result.Duplicate? || result == Done(id)
      ensures companies == if result.Done?
        then old(companies)[id := Company(Strip(name), Normalize(fold, name), now)] else old(companies)
      ensures OwnersMoved(old(companies), id, companies)
    {
      NormalizeIgnoresStrip(fold, name);
      var key := Normalize(fold, Strip(name));
      OwnersMove(companies, id, companies);
      if key == "" {
        return NameRequired;
      }
      var duplicate := Find(key, None);
      if duplicate.Some? {
        return Duplicate(duplicate.value);
      }
      var row := Company(Strip(name), key, now);
      WriteKeepsNames(fold, companies, id, row);
      OwnersMove(companies, id, companies[id := row]);
      companies := companies[id := row];
      return Done(id);
    }

    /** update_company, as far as it concerns the name. */
    method Update(id: Id, name: string) returns (result: Result)
      requires Valid()
      modifies this`companies
      ensures Valid() && NoNewPair(fold, old(companies), companies)
      ensures result.NameRequired? <==> Strip(name) == ""
      ensures result.NotFound? <==> Strip(name) != "" && id !in old(companies)
      // A name another company has is refused, unless this row had it too.
      ensures result.Duplicate? <==>
        && Strip(name) != "" && id in old(companies)
        && Taken(fold, old(companies), Normalize(fold, name), Some(id))
        && !Named(fold, old(companies), id, Normalize(fold, name))
      ensures result.Duplicate? ==> result.of != id && Named(fold, old(companies), result.of, Normalize(fold, name))
      ensures result.Done? ==>
        && result.id == id && id in old(companies) && id in companies
        && companies == old(companies)[id := Company(Strip(name), companies[id].key, old(companies)[id].created)]
        && (companies[id].key == "" <==>
              && Taken(fold, old(companies), Normalize(fold, name), Some(id))
              && old(companies)[id].key != Normalize(fold, name))
      ensures !result.Done? ==> companies == old(companies)
      ensures OwnersMoved(old(companies), id, companies)
    {
      NormalizeIgnoresStrip(fold, name);
      var key := Normalize(fold, Strip(name));
      OwnersMove(companies, id, companies);
      if key == "" {
        return NameRequired;
      }
      if id !in companies {
        return NotFound;
      }
      var duplicate := Find(key, Some(id));
      if duplicate.Some? && key != Normalize(fold, companies[id].name) {
        return Duplicate(duplicate.value);
      }
      assert duplicate.Some? <==> Taken(fold, companies, key, Some(id));
      var row := Company(Strip(name), StoredKey(companies[id].key, key, duplicate.Some?), companies[id].created);
      WriteKeepsNames(fold, companies, id, row);
      OwnersMove(companies, id, companies[id := row]);
      companies := companies[id := row];
      return Done(id);
    }

    /** delete_company. The name's other holders stay without a key. */
    method Delete(id: Id) returns (result: Result)
      requires Valid()
      modifies this`companies
      ensures Valid() && NoNewPair(fold, old(companies), companies)
      ensures result == if id in old(companies) then Done(id) else NotFound
      ensures companies == old(companies) - {id}
      ensures OwnersMoved(old(companies), id, companies)
    {
      OwnersMove(companies, id, companies - {id});
      if id !in companies {
        assert companies - {id} == companies;
        return NotFound;
      }
      companies := companies - {id};
      return Done(id);
    }

    /** One source of upsert_company_snapshots. */
    method UpsertSnapshot(source: Snapshot, now: string) returns (result: Result)
      requires Valid() && source.uuid !in companies
      modifies this`companies
      ensures Valid() && NoNewPair(fold, old(companies), companies)
      ensures result.Done? <==> !RefusedSource(fold, old(companies), source)
      ensures result.NameRequired? <==> Strip(EffectiveName(old(companies), source)) == ""
      ensures result.Done? || result.NameRequired? || result.Duplicate?
      ensures result.Done? ==> Upserted(fold, old(companies), source, now, result.id, companies)
      ensures result.Done? ==> OwnersMoved(old(companies), result.id, companies)
      ensures !result.Done? ==> companies == old(companies)
    {
      var incoming := Strip(source.id);
      var name := Strip(source.name);
      NormalizeIgnoresStrip(fold, source.name);
      if incoming == "" || incoming !in companies {
        result := AbsorbOrAdd(source, name, incoming, now);
        return;
      }
      NormalizeIgnoresStrip(fold, companies[incoming].name);
      StripTwice(source.name);
      if name == "" {
        name := companies[incoming].name;
      }
      result := UpdateKnown(source, Strip(name), incoming, now);
    }

    /** The branch for a known identifier. */
    method UpdateKnown(source: Snapshot, name: string, id: Id, now: string) returns (result: Result)
      requires Valid() && Known(companies, source) && id == Strip(source.id)
      requires name == Strip(EffectiveName(companies, source))
      requires Normalize(fold, name) == Normalize(fold, EffectiveName(companies, source))
      requires Normalize(fold, name) == "" <==> name == ""
      modifies this`companies
      ensures Valid() && NoNewPair(fold, old(companies), companies)
      ensures result.Done? <==> !RefusedSource(fold, old(companies), source)
      ensures result.NameRequired? <==> name == ""
      ensures result.Done? || result.NameRequired? || result.Duplicate?
      ensures result.Done? ==> Upserted(fold, old(companies), source, now, result.id, companies)
      ensures result.Done? ==> OwnersMoved(old(companies), result.id, companies)
      ensures !result.Done? ==> companies == old(companies)
    {
      var key := Normalize(fold, name);
      if key == "" {
        return NameRequired;
      }
      var duplicate := Find(key, Some(id));
      assert duplicate.Some? <==> Taken(fold, companies, key, Some(id));
      if duplicate.Some? && key != Normalize(fold, companies[id].name) {
        return Duplicate(duplicate.value);
      }
      var row := Company(name, StoredKey(companies[id].key, key, duplicate.Some?), companies[id].created);
      WriteKeepsNames(fold, companies, id, row);
      OwnersMove(companies, id, companies[id := row]);
      companies := companies[id := row];
      return Done(id);
    }

    /** The branch for an unknown identifier. */
    method AbsorbOrAdd(source: Snapshot, name: string, incoming: Id, now: string) returns (result: Result)
      requires Valid() && source.uuid !in companies && !Known(companies, source)
      requires name == Strip(source.name) && incoming == Strip(source.id)
      requires Normalize(fold, name) == Normalize(fold, source.name) && (Normalize(fold, name) == "" <==> name == "")
      modifies this`companies
      ensures Valid() && NoNewPair(fold, old(companies), companies)
      ensures result == NameRequired || result.Done?
      ensures result.NameRequired? <==> name == ""
      ensures result.Done? ==> Upserted(fold, old(companies), source, now, result.id, companies)
      ensures result.Done? ==> OwnersMoved(old(companies), result.id, companies)
      ensures !result.Done? ==> companies == old(companies)
    {
      var key := Normalize(fold, name);
      if key == "" {
        return NameRequired;
      }
      var duplicate := Find(key, None);
      assert duplicate.Some? <==> Taken(fold, companies, key, None);
      var id: Id, row: Company;
      if duplicate.Some? {
        id := duplicate.value;
        var other := Find(key, Some(id));
        assert other.Some? <==> Taken(fold, companies, key, Some(id));
        row := companies[id].(key := StoredKey(companies[id].key, key, other.Some?));
      } else {
        id := if incoming != "" then incoming else source.uuid;
        row := Company(name, key, now);
      }
      WriteKeepsNames(fold, companies, id, row);
      OwnersMove(companies, id, companies[id := row]);
      companies := companies[id := row];
      return Done(id);
    }

    /** upsert_company_snapshots: one transaction. `tables` are the tables that the sources lead
        through, one by one, up to the refused source if there is one. */
    method UpsertSnapshots(sources: seq<Snapshot>, now: string)
      returns (result: Option<Result>, ghost tables: seq<Companies>, ghost ids: seq<Id>)
      requires Valid()
      requires forall i :: 0 <= i < |sources| ==> sources[i].uuid !in companies
      requires forall i, j :: 0 <= i < j < |sources| ==> sources[i].uuid != sources[j].uuid
      requires forall i, j :: 0 <= i < |sources| && 0 <= j < |sources| ==> sources[j].uuid != Strip(sources[i].id)
      modifies this`companies
      ensures Valid() && NoNewPair(fold, old(companies), companies)
      ensures old(companies).Keys <= companies.Keys
      ensures Applied(fold, sources, now, tables, ids) && tables[0] == old(companies)
      // Either every source was applied, or one was refused and nothing is left of the batch.
      ensures result.None? <==> |ids| == |sources|
      ensures result.None? ==> companies == tables[|sources|]
      ensures result.Some? ==>
        && !result.value.Done? && RefusedSource(fold, tables[|ids|], sources[|ids|])
        && companies == old(companies)
    {
      var saved := companies;
      tables, ids := [companies], [];
      for n := 0 to |sources|
        invariant Valid() && NoNewPair(fold, old(companies), companies)
        invariant old(companies).Keys <= companies.Keys
        invariant forall i :: n <= i < |sources| ==> sources[i].uuid !in companies
        invariant Applied(fold, sources, now, tables, ids) && |ids| == n
        invariant tables[0] == old(companies) && tables[n] == companies
      {
        ghost var before := companies;
        var one := UpsertSnapshot(sources[n], now);
        if !one.Done? {
          companies := saved;
          return Some(one), tables, ids;
        }
        NoNewPairChain(fold, old(companies), before, companies);
        AppliedNext(fold, sources, now, tables, ids, one.id, companies);
        tables, ids := tables + [companies], ids + [one.id];
      }
      return None, tables, ids;
    }
  }
}
