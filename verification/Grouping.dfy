/**
 Grouping rows by a key and sorting them by a name, for any rows: what a dictionary of
 groups and a stable sort do to a list.
 */
module Grouping {
  import opened Text
  import opened Wrappers

  // ---- Groups ---------------------------------------------------------------

  /** The place of the group with this key, or the number of groups. */
  function IndexOf<T>(key: T -> string, groups: seq<T>, k: string): (i: nat)
    ensures i <= |groups| && (i < |groups| ==> key(groups[i]) == k)
    ensures forall j :: 0 <= j < i ==> key(groups[j]) != k
  {
    if groups == [] then 0 else if key(groups[0]) == k then 0 else 1 + IndexOf(key, groups[1..], k)
  }

  /** One row joins its group or starts one. */
  function Joined<T>(key: T -> string, merge: (T, T) -> T, groups: seq<T>, row: T): seq<T> {
    var i := IndexOf(key, groups, key(row));
    if i < |groups| then groups[i := merge(groups[i], row)] else groups + [row]
  }

  /** The groups in the order of their first rows. */
  function Grouped<T>(key: T -> string, merge: (T, T) -> T, rows: seq<T>): seq<T> {
    if rows == [] then [] else Joined(key, merge, Grouped(key, merge, rows[..|rows| - 1]), rows[|rows| - 1])
  }

  predicate DistinctKeys<T>(key: T -> string, rows: seq<T>) {
    forall i, j :: 0 <= i < j < |rows| ==> key(rows[i]) != key(rows[j])
  }

  /** `absorbs` is a preorder on rows of one key, and a merge absorbs both rows it merges. */
  ghost predicate MergeLaws<T(!new)>(key: T -> string, merge: (T, T) -> T, absorbs: (T, T) -> bool) {
    && (forall a, b :: key(a) == key(b) ==> absorbs(merge(a, b), a) && absorbs(merge(a, b), b))
    && (forall a, b :: absorbs(a, b) ==> key(a) == key(b))
    && (forall a :: absorbs(a, a))
    && (forall a, b, c :: absorbs(a, b) && absorbs(b, c) ==> absorbs(a, c))
  }

  lemma JoinedAbsorbs<T(!new)>(key: T -> string, merge: (T, T) -> T, absorbs: (T, T) -> bool, groups: seq<T>, row: T)
    requires MergeLaws(key, merge, absorbs) && DistinctKeys(key, groups)
    ensures var next := Joined(key, merge, groups, row);
      && DistinctKeys(key, next) && |groups| <= |next|
      && (forall j :: 0 <= j < |groups| ==> absorbs(next[j], groups[j]))
      && (exists j :: 0 <= j < |next| && absorbs(next[j], row))
  {
    var i := IndexOf(key, groups, key(row));
    var next := Joined(key, merge, groups, row);
    assert absorbs(next[i], row);
  }

  /** Output keys are distinct, and every input row is absorbed by an output row. */
  lemma {:induction false} GroupedAbsorbs<T(!new)>(
    key: T -> string, merge: (T, T) -> T, absorbs: (T, T) -> bool, rows: seq<T>)
    requires MergeLaws(key, merge, absorbs)
    ensures var groups := Grouped(key, merge, rows);
      && DistinctKeys(key, groups)
      && forall k :: 0 <= k < |rows| ==> exists j :: 0 <= j < |groups| && absorbs(groups[j], rows[k])
    decreases |rows|
  {
    if rows != [] {
      var front, last := rows[..|rows| - 1], rows[|rows| - 1];
      var groups := Grouped(key, merge, front);
      var next := Joined(key, merge, groups, last);
      GroupedAbsorbs(key, merge, absorbs, front);
      JoinedAbsorbs(key, merge, absorbs, groups, last);
      forall k | 0 <= k < |rows| ensures exists j :: 0 <= j < |next| && absorbs(next[j], rows[k]) {
        if k < |front| {
          var j :| 0 <= j < |groups| && absorbs(groups[j], front[k]);
          assert absorbs(next[j], rows[k]);
        }
      }
    }
  }

  /** No group is made up: each key stems from an input row. */
  lemma {:induction false} GroupsStemFromRows<T(!new)>(
    key: T -> string, merge: (T, T) -> T, absorbs: (T, T) -> bool, rows: seq<T>, j: nat)
    requires MergeLaws(key, merge, absorbs) && j < |Grouped(key, merge, rows)|
    ensures exists k :: 0 <= k < |rows| && key(rows[k]) == key(Grouped(key, merge, rows)[j])
    decreases |rows|
  {
    if rows != [] {
      var front, last := rows[..|rows| - 1], rows[|rows| - 1];
      var groups := Grouped(key, merge, front);
      var i := IndexOf(key, groups, key(last));
      if j == i {
        assert key(rows[|rows| - 1]) == key(Grouped(key, merge, rows)[j]);
      } else {
        GroupsStemFromRows(key, merge, absorbs, front, j);
        var k :| 0 <= k < |front| && key(front[k]) == key(groups[j]);
        assert key(rows[k]) == key(Grouped(key, merge, rows)[j]);
      }
    }
  }

  lemma {:induction false} DistinctRowsStayApart<T>(key: T -> string, merge: (T, T) -> T, rows: seq<T>)
    requires DistinctKeys(key, rows)
    ensures Grouped(key, merge, rows) == rows
    decreases |rows|
  {
    if rows != [] {
      var front := rows[..|rows| - 1];
      DistinctRowsStayApart(key, merge, front);
      assert IndexOf(key, front, key(rows[|rows| - 1])) == |front|;
    }
  }

  /** A dictionary by key, with its insertion order, stands for a list of groups. */
  ghost predicate StandsFor<T>(key: T -> string, grouped: map<string, T>, order: seq<string>, groups: seq<T>) {
    && |order| == |groups|
    && (forall i :: 0 <= i < |groups| ==>
          order[i] == key(groups[i]) && order[i] in grouped && grouped[order[i]] == groups[i])
    && (forall k :: k in grouped ==> k in order)
  }

  lemma GroupOfKey<T>(key: T -> string, grouped: map<string, T>, order: seq<string>, groups: seq<T>, k: string)
    requires StandsFor(key, grouped, order, groups) && DistinctKeys(key, groups)
    ensures var i := IndexOf(key, groups, k);
      && (k in grouped <==> i < |groups|)
      && (i < |groups| ==> grouped[k] == groups[i] && order[i] == k)
      && forall j :: 0 <= j < |groups| && j != i ==> order[j] != k
  {
    var i := IndexOf(key, groups, k);
    if k in grouped {
      var j :| 0 <= j < |order| && order[j] == k;
      assert key(groups[j]) == k;
    }
    forall j | 0 <= j < |groups| && j != i ensures order[j] != k {
      assert order[j] == key(groups[j]);
    }
  }

  lemma ReplacedStandsFor<T>(
    key: T -> string, grouped: map<string, T>, order: seq<string>, groups: seq<T>, i: nat, better: T)
    requires StandsFor(key, grouped, order, groups) && i < |groups| && key(better) == order[i]
    requires forall j :: 0 <= j < |groups| && j != i ==> order[j] != order[i]
    ensures StandsFor(key, grouped[order[i] := better], order, groups[i := better])
  {
  }

  lemma AddedStandsFor<T>(key: T -> string, grouped: map<string, T>, order: seq<string>, groups: seq<T>, row: T)
    requires StandsFor(key, grouped, order, groups) && key(row) !in grouped
    ensures StandsFor(key, grouped[key(row) := row], order + [key(row)], groups + [row])
  {
  }

  lemma MergeHasTheKey<T(!new)>(key: T -> string, merge: (T, T) -> T, absorbs: (T, T) -> bool, a: T, b: T)
    requires MergeLaws(key, merge, absorbs) && key(a) == key(b)
    ensures key(merge(a, b)) == key(a)
  {
    assert absorbs(merge(a, b), a);
  }

  /** What one more row does to the dictionary. */
  lemma JoinedStandsFor<T(!new)>(key: T -> string, merge: (T, T) -> T, absorbs: (T, T) -> bool,
                                 grouped: map<string, T>, order: seq<string>, groups: seq<T>, row: T)
    requires MergeLaws(key, merge, absorbs) && StandsFor(key, grouped, order, groups) && DistinctKeys(key, groups)
    ensures var k, next := key(row), Joined(key, merge, groups, row);
      if k in grouped then |next| == |groups| && StandsFor(key, grouped[k := merge(grouped[k], row)], order, next)
      else |next| == |groups| + 1 && StandsFor(key, grouped[k := row], order + [k], next)
  {
    var k := key(row);
    var i := IndexOf(key, groups, k);
    GroupOfKey(key, grouped, order, groups, k);
    if i < |groups| {
      MergeHasTheKey(key, merge, absorbs, groups[i], row);
      ReplacedStandsFor(key, grouped, order, groups, i, merge(groups[i], row));
    } else {
      AddedStandsFor(key, grouped, order, groups, row);
    }
  }

  /** The dictionary after the rows in `kept`. */
  ghost predicate Stands<T>(
    key: T -> string, merge: (T, T) -> T, grouped: map<string, T>, order: seq<string>, kept: seq<T>)
  {
    var groups := Grouped(key, merge, kept);
    StandsFor(key, grouped, order, groups) && DistinctKeys(key, groups)
  }

  /** A row joins the group of its key in the dictionary, or starts one. */
  method AddToGroup<T(!new)>(key: T -> string, merge: (T, T) -> T, ghost absorbs: (T, T) -> bool,
                             grouped: map<string, T>, order: seq<string>, ghost kept: seq<T>, row: T)
    returns (nextGrouped: map<string, T>, nextOrder: seq<string>, duplicate: bool)
    requires MergeLaws(key, merge, absorbs) && Stands(key, merge, grouped, order, kept)
    ensures Stands(key, merge, nextGrouped, nextOrder, kept + [row])
    ensures var now := |Grouped(key, merge, kept)|;
      |Grouped(key, merge, kept + [row])| == if duplicate then now else now + 1
  {
    ghost var groups := Grouped(key, merge, kept);
    GroupedNext(key, merge, kept, row);
    JoinedStandsFor(key, merge, absorbs, grouped, order, groups, row);
    JoinedAbsorbs(key, merge, absorbs, groups, row);
    var k := key(row);
    duplicate := k in grouped;
    if duplicate {
      nextGrouped, nextOrder := grouped[k := merge(grouped[k], row)], order;
    } else {
      nextGrouped, nextOrder := grouped[k := row], order + [k];
    }
  }

  /** The rows that normalization keeps, in order. */
  function KeptOf<R, T>(raws: seq<R>, normalize: R -> Option<T>): seq<T> {
    if raws == [] then []
    else
      var row := normalize(raws[|raws| - 1]);
      KeptOf(raws[..|raws| - 1], normalize) + if row.Some? then [row.value] else []
  }

  lemma KeptNext<R, T>(seen: seq<R>, raw: R, normalize: R -> Option<T>)
    ensures KeptOf(seen + [raw], normalize) ==
      if normalize(raw).Some? then KeptOf(seen, normalize) + [normalize(raw).value] else KeptOf(seen, normalize)
  {
    assert (seen + [raw])[..|seen|] == seen;
  }

  lemma GroupedNext<T>(key: T -> string, merge: (T, T) -> T, kept: seq<T>, row: T)
    ensures Grouped(key, merge, kept + [row]) == Joined(key, merge, Grouped(key, merge, kept), row)
  {
    assert (kept + [row])[..|kept|] == kept;
  }

  /** The state of the grouping loop after the raw rows in `seen`. */
  ghost predicate Progress<R, T>(seen: seq<R>, normalize: R -> Option<T>, key: T -> string, merge: (T, T) -> T,
                                 grouped: map<string, T>, order: seq<string>, inputRows: nat, duplicateRows: nat)
  {
    var kept := KeptOf(seen, normalize);
    && Stands(key, merge, grouped, order, kept)
    && inputRows == |kept| && inputRows == |Grouped(key, merge, kept)| + duplicateRows
  }

  /** One turn of the grouping loop: normalize, skip, count, merge. */
  method GroupOne<R, T(!new)>(
    ghost seen: seq<R>, raw: R, normalize: R -> Option<T>, key: T -> string, merge: (T, T) -> T,
    ghost absorbs: (T, T) -> bool, grouped: map<string, T>, order: seq<string>, inputRows: nat, duplicateRows: nat)
    returns (nextGrouped: map<string, T>, nextOrder: seq<string>, nextInput: nat, nextDuplicate: nat)
    requires MergeLaws(key, merge, absorbs)
    requires Progress(seen, normalize, key, merge, grouped, order, inputRows, duplicateRows)
    ensures Progress(seen + [raw], normalize, key, merge, nextGrouped, nextOrder, nextInput, nextDuplicate)
  {
    KeptNext(seen, raw, normalize);
    nextGrouped, nextOrder, nextInput, nextDuplicate := grouped, order, inputRows, duplicateRows;
    var row := normalize(raw);
    if row.Some? {
      var duplicate;
      nextInput := inputRows + 1;
      nextGrouped, nextOrder, duplicate :=
        AddToGroup(key, merge, absorbs, grouped, order, KeptOf(seen, normalize), row.value);
      if duplicate {
        nextDuplicate := duplicateRows + 1;
      }
    }
  }

  method GroupRows<R, T(!new)>(raws: seq<R>, normalize: R -> Option<T>, key: T -> string, merge: (T, T) -> T,
                               ghost absorbs: (T, T) -> bool)
    returns (grouped: map<string, T>, order: seq<string>, inputRows: nat, duplicateRows: nat)
    requires MergeLaws(key, merge, absorbs)
    ensures Progress(raws, normalize, key, merge, grouped, order, inputRows, duplicateRows)
  {
    grouped, order, inputRows, duplicateRows := map[], [], 0, 0;
    for n := 0 to |raws|
      invariant Progress(raws[..n], normalize, key, merge, grouped, order, inputRows, duplicateRows)
    {
      grouped, order, inputRows, duplicateRows :=
        GroupOne(raws[..n], raws[n], normalize, key, merge, absorbs, grouped, order, inputRows, duplicateRows);
      assert raws[..n + 1] == raws[..n] + [raws[n]];
    }
    assert raws[..|raws|] == raws;
  }

  /** list(grouped.values()) */
  method Values<T>(key: T -> string, grouped: map<string, T>, order: seq<string>, ghost groups: seq<T>)
    returns (output: seq<T>)
    requires StandsFor(key, grouped, order, groups)
    ensures output == groups
  {
    output := [];
    for n := 0 to |order|
      invariant output == groups[..n]
    {
      output := output + [grouped[order[n]]];
    }
  }

  // ---- list.sort(key=...) ---------------------------------------------------

  /** Behind every row whose name is at most as great. */
  function Inserted<T>(name: T -> string, sorted: seq<T>, row: T): seq<T> {
    if sorted == [] || Le(name(sorted[|sorted| - 1]), name(row)) then sorted + [row]
    else Inserted(name, sorted[..|sorted| - 1], row) + [sorted[|sorted| - 1]]
  }

  function SortedBy<T>(name: T -> string, rows: seq<T>): seq<T> {
    if rows == [] then [] else Inserted(name, SortedBy(name, rows[..|rows| - 1]), rows[|rows| - 1])
  }

  predicate IsSorted<T>(name: T -> string, rows: seq<T>) {
    forall i, j :: 0 <= i < j < |rows| ==> Le(name(rows[i]), name(rows[j]))
  }

  /** The rows of one name, in order. */
  function WithName<T>(name: T -> string, rows: seq<T>, n: string): seq<T> {
    if rows == [] then []
    else WithName(name, rows[..|rows| - 1], n) + if name(rows[|rows| - 1]) == n then [rows[|rows| - 1]] else []
  }

  lemma {:induction false} InsertedIsSorted<T>(name: T -> string, sorted: seq<T>, row: T)
    requires IsSorted(name, sorted)
    ensures var next := Inserted(name, sorted, row);
      && |next| == |sorted| + 1 && IsSorted(name, next) && multiset(next) == multiset(sorted) + multiset{row}
    decreases |sorted|
  {
    var next := Inserted(name, sorted, row);
    if sorted != [] {
      var front, last := sorted[..|sorted| - 1], sorted[|sorted| - 1];
      assert sorted == front + [last];
      if Le(name(last), name(row)) {
        forall i | 0 <= i < |sorted| ensures Le(name(sorted[i]), name(row)) {
          if i < |front| { LeTransitive(name(sorted[i]), name(last), name(row)); }
        }
      } else {
        InsertedIsSorted(name, front, row);
        LeTotal(name(last), name(row));
        var inner := Inserted(name, front, row);
        forall i | 0 <= i < |inner| ensures Le(name(inner[i]), name(last)) {
          assert inner[i] in multiset(inner);
          assert inner[i] == row || inner[i] in front;
        }
      }
    }
  }

  lemma {:induction false} SortedByIsSorted<T>(name: T -> string, rows: seq<T>)
    ensures |SortedBy(name, rows)| == |rows|
    ensures IsSorted(name, SortedBy(name, rows)) && multiset(SortedBy(name, rows)) == multiset(rows)
    decreases |rows|
  {
    if rows != [] {
      var front, last := rows[..|rows| - 1], rows[|rows| - 1];
      assert rows == front + [last];
      SortedByIsSorted(name, front);
      InsertedIsSorted(name, SortedBy(name, front), last);
    }
  }

  /** A sorted list is left alone. */
  lemma {:induction false} SortedStays<T>(name: T -> string, rows: seq<T>)
    requires IsSorted(name, rows)
    ensures SortedBy(name, rows) == rows
    decreases |rows|
  {
    if rows != [] {
      var front := rows[..|rows| - 1];
      SortedStays(name, front);
      assert front + [rows[|rows| - 1]] == rows;
    }
  }

  lemma {:induction false} InsertedIsStable<T>(name: T -> string, sorted: seq<T>, row: T, n: string)
    ensures WithName(name, Inserted(name, sorted, row), n) ==
      WithName(name, sorted, n) + if name(row) == n then [row] else []
    decreases |sorted|
  {
    if sorted == [] || Le(name(sorted[|sorted| - 1]), name(row)) {
      assert (sorted + [row])[..|sorted|] == sorted;
    } else {
      var front, last := sorted[..|sorted| - 1], sorted[|sorted| - 1];
      var inner := Inserted(name, front, row);
      InsertedIsStable(name, front, row, n);
      assert (inner + [last])[..|inner|] == inner;
      LeTotal(name(last), name(row));
    }
  }

  /** Rows of one name keep their order. */
  lemma {:induction false} SortedByIsStable<T>(name: T -> string, rows: seq<T>, n: string)
    ensures WithName(name, SortedBy(name, rows), n) == WithName(name, rows, n)
    decreases |rows|
  {
    if rows != [] {
      SortedByIsStable(name, rows[..|rows| - 1], n);
      InsertedIsStable(name, SortedBy(name, rows[..|rows| - 1]), rows[|rows| - 1], n);
    }
  }

  /** Sorting the groups invents none either. */
  lemma SortedGroupsStemFromRows<T(!new)>(
    key: T -> string, merge: (T, T) -> T, absorbs: (T, T) -> bool, name: T -> string, rows: seq<T>, row: T)
    requires MergeLaws(key, merge, absorbs) && row in SortedBy(name, Grouped(key, merge, rows))
    ensures exists k :: 0 <= k < |rows| && key(rows[k]) == key(row)
  {
    var groups := Grouped(key, merge, rows);
    SortedByIsSorted(name, groups);
    assert row in multiset(SortedBy(name, groups));
    assert row in groups;
    var i :| 0 <= i < |groups| && groups[i] == row;
    GroupsStemFromRows(key, merge, absorbs, rows, i);
  }
}
