/** Which company records share one lookup in backend/utility_tasks.py. */
module RefreshGroups {
  import opened Buckets
  import opened Wrappers

  /** What grouping looks at: the normalized name, the plausible first-party domains, and the
      fields missing_company_information_fields reports. */
  datatype Company = Company(id: string, nameKey: string, domains: set<string>, verified: bool, missing: set<string>)

  /** What the dictionary keys "name|domain:..." and "name|record:..." are made of. */
  datatype Identity = ByDomain(name: string, domain: string) | ByRecord(name: string, id: string)

  datatype Group = Group(records: seq<Company>, selected: seq<Company>, requested: set<string>)

  function Only(s: set<string>): (x: string)
    requires |s| == 1
    ensures s == {x}
  {
    SingletonHasOne(s);
    var x :| x in s;
    x
  }

  lemma SingletonHasOne(s: set<string>)
    requires |s| == 1
    ensures exists x :: x in s
    ensures forall x, y :: x in s && y in s ==> x == y
  {
    var x :| x in s;
    var rest := s - {x};
    assert |rest| == 0 && rest == {};
    assert forall y :: y in s ==> y == x || y in rest;
  }

  /** confirmed_company_domain */
  function Confirmed(c: Company): Option<string> {
    if c.verified && |c.domains| == 1 then Some(Only(c.domains)) else None
  }

  /** A record confirms a domain exactly if it was verified and no other domain is plausible for it. */
  lemma ConfirmedExactly(c: Company, domain: string)
    ensures Confirmed(c) == Some(domain) <==> c.verified && c.domains == {domain}
  {
    if c.domains == {domain} {
      assert |c.domains| == 1;
    }
  }

  /** The name under which a record is filed; a nameless record is filed under its id. */
  function NameGroup(c: Company): string {
    if c.nameKey != "" then c.nameKey else c.id
  }

  function ConfirmedIn(companies: seq<Company>, name: string): set<string> {
    set c | c in companies && NameGroup(c) == name && Confirmed(c).Some? :: Confirmed(c).value
  }

  /** The key one record gets, given the confirmed domains of its name. */
  function IdentityUnder(confirmed: set<string>, c: Company): Identity {
    if |confirmed| == 1 && (c.domains == {} || c.domains == confirmed) then ByDomain(NameGroup(c), Only(confirmed))
    else if Confirmed(c).Some? then ByDomain(NameGroup(c), Confirmed(c).value)
    else ByRecord(NameGroup(c), c.id)
  }

  function IdentityOf(companies: seq<Company>, c: Company): Identity {
    IdentityUnder(ConfirmedIn(companies, NameGroup(c)), c)
  }

  predicate DistinctIds(companies: seq<Company>) {
    forall i, j :: 0 <= i < j < |companies| ==> companies[i].id != companies[j].id
  }

  // ---- The dictionary key is text -------------------------------------------

  function Header(x: Identity): string {
    if x.ByDomain? then "|domain:" else "|record:"
  }

  function Value(x: Identity): string {
    if x.ByDomain? then x.domain else x.id
  }

  function KeyText(x: Identity): string {
    x.name + (Header(x) + Value(x))
  }

  /** The value of y ends like the key of x, and the name of x is all that is before it. */
  predicate Swallows(y: Identity, x: Identity) {
    && |Header(x) + Value(x)| <= |Value(y)|
    && var front := |Value(y)| - |Header(x) + Value(x)|;
       Value(y)[front..] == Header(x) + Value(x) && x.name == y.name + Header(y) + Value(y)[..front]
  }

  lemma SwallowedText(y: Identity, x: Identity)
    requires Swallows(y, x)
    ensures KeyText(x) == KeyText(y)
  {
    var tail := Header(x) + Value(x);
    var front := |Value(y)| - |tail|;
    Regroup(y.name, Header(y), Value(y)[..front], tail);
    assert Value(y) == Value(y)[..front] + tail;
  }

  lemma Regroup(a: string, b: string, c: string, d: string)
    ensures (a + b + c) + d == a + (b + (c + d))
  {
  }

  /** Of two ways to split a text, the one with the longer front takes it from the other's rest. */
  lemma Resplit(front: string, rest: string, other: string, otherRest: string)
    requires front + rest == other + otherRest && |front| >= |other|
    ensures var m := |front| - |other|;
      m <= |otherRest| && front == other + otherRest[..m] && rest == otherRest[m..]
  {
    var text, m := front + rest, |front| - |other|;
    assert front == text[..|front|] && other == text[..|other|];
    assert rest == text[|front|..] && otherRest == text[|other|..];
    assert text[|other|..][m..] == text[|front|..];
    assert text[..|front|] == text[..|other|] + text[|other|..][..m];
  }

  /** A tail within a tail starts behind the header. */
  /** A text that begins with a bar and ends a header and its value begins in the value. */
  lemma BarAfterHeader(header: string, value: string, tail: string, m: nat)
    requires |header| == 8 && forall i :: 0 < i < 8 ==> header[i] != '|'
    requires 0 < m <= |header + value| && tail != "" && tail[0] == '|' && tail == (header + value)[m..]
    ensures 8 <= m && (header + value)[..m] == header + value[..m - 8] && tail == value[m - 8..]
  {
    assert (header + value)[m] == '|';
  }

  lemma TailInTail(y: Identity, x: Identity, m: nat)
    requires 0 < m <= |Header(y) + Value(y)| && Header(x) + Value(x) == (Header(y) + Value(y))[m..]
    ensures 8 <= m && (Header(y) + Value(y))[..m] == Header(y) + Value(y)[..m - 8]
    ensures Header(x) + Value(x) == Value(y)[m - 8..]
    ensures |Header(x) + Value(x)| == |Value(y)| - (m - 8)
  {
    assert (Header(x) + Value(x))[0] == '|';
    assert |Header(y)| == 8 && forall i :: 0 < i < 8 ==> Header(y)[i] != '|';
    BarAfterHeader(Header(y), Value(y), Header(x) + Value(x), m);
  }

  /** The longer of two names that give one text: the rest of it begins the other's tail. */
  lemma LongerNameIsSwallowed(y: Identity, x: Identity)
    requires KeyText(x) == KeyText(y) && |x.name| > |y.name|
    ensures Swallows(y, x)
  {
    var m := |x.name| - |y.name|;
    Resplit(x.name, Header(x) + Value(x), y.name, Header(y) + Value(y));
    TailInTail(y, x, m);
    assert y.name + (Header(y) + Value(y)[..m - 8]) == y.name + Header(y) + Value(y)[..m - 8];
  }

  /** Two identities have one key exactly if they are equal or one swallows the other, which
      takes a separator in an identifier or a domain. */
  lemma KeyTextExactly(x: Identity, y: Identity)
    ensures KeyText(x) == KeyText(y) <==> x == y || Swallows(x, y) || Swallows(y, x)
    ensures '|' !in Value(x) ==> !Swallows(x, y)
    ensures Swallows(x, y) ==> |x.name| < |y.name|
  {
    if Swallows(x, y) {
      SwallowedText(x, y);
      assert Value(x)[|Value(x)| - |Header(y) + Value(y)|] == '|';
    }
    if Swallows(y, x) {
      SwallowedText(y, x);
    }
    if KeyText(x) == KeyText(y) {
      if |x.name| > |y.name| {
        LongerNameIsSwallowed(y, x);
      } else if |y.name| > |x.name| {
        LongerNameIsSwallowed(x, y);
      } else {
        Resplit(x.name, Header(x) + Value(x), y.name, Header(y) + Value(y));
        assert (Header(x) + Value(x))[1] == Header(x)[1] && (Header(y) + Value(y))[1] == Header(y)[1];
        assert Value(x) == (Header(x) + Value(x))[8..] == Value(y);
      }
    }
  }

  function KeyOf(companies: seq<Company>, c: Company): string {
    KeyText(IdentityOf(companies, c))
  }

  /** Whether the keys of two records coincide although their identities differ. */
  predicate Collide(companies: seq<Company>, a: Company, b: Company) {
    Swallows(IdentityOf(companies, a), IdentityOf(companies, b))
    || Swallows(IdentityOf(companies, b), IdentityOf(companies, a))
  }

  // ---- What a group has in common -------------------------------------------

  /** Records in one group have one filing name and at most one domain between them, unless
      their keys collide. */
  lemma GroupsAreCoherent(companies: seq<Company>, a: Company, b: Company)
    requires a in companies && b in companies && DistinctIds(companies) && a != b
    requires KeyOf(companies, a) == KeyOf(companies, b)
    ensures NameGroup(a) == NameGroup(b) <==> !Collide(companies, a, b)
    ensures !Collide(companies, a, b) ==> |a.domains + b.domains| <= 1
    ensures !Collide(companies, a, b) ==>
      IdentityOf(companies, a).ByDomain? && a.domains + b.domains <= {IdentityOf(companies, a).domain}
  {
    var key := IdentityOf(companies, a);
    KeyTextExactly(key, IdentityOf(companies, b));
    KeyTextExactly(IdentityOf(companies, b), key);
    if !Collide(companies, a, b) {
      if key.ByRecord? {
        IdsIdentify(companies, a, b);
      } else {
        assert a.domains <= {key.domain} && b.domains <= {key.domain};
        SubsetOfOne(a.domains + b.domains, key.domain);
      }
    }
  }

  lemma IdsIdentify(companies: seq<Company>, a: Company, b: Company)
    requires a in companies && b in companies && DistinctIds(companies) && a.id == b.id
    ensures a == b
  {
    var i :| 0 <= i < |companies| && companies[i] == a;
    var j :| 0 <= j < |companies| && companies[j] == b;
    assert !(i < j) && !(j < i);
  }

  lemma SubsetOfOne(s: set<string>, x: string)
    requires s <= {x}
    ensures |s| <= 1
  {
    assert s == {} || s == {x};
  }

  /** Two records under one name with one confirmed domain always share a group. */
  lemma SameConfirmedDomainShares(companies: seq<Company>, a: Company, b: Company)
    requires a in companies && b in companies && NameGroup(a) == NameGroup(b)
    requires Confirmed(a).Some? && Confirmed(a) == Confirmed(b)
    ensures IdentityOf(companies, a) == IdentityOf(companies, b)
  {
    var confirmed := ConfirmedIn(companies, NameGroup(a));
    assert Confirmed(a).value in confirmed;
    if |confirmed| == 1 {
      assert Confirmed(a).value == Only(confirmed);
      assert a.domains == confirmed == b.domains;
    }
  }

  /** A record fits a domain: it is confirmed for it, or it has no other and the domain is the
      only one that is confirmed under its name. */
  predicate Fits(companies: seq<Company>, c: Company, domain: string) {
    Confirmed(c) == Some(domain) || (c.domains <= {domain} && ConfirmedIn(companies, NameGroup(c)) == {domain})
  }

  /** Two records have one identity exactly if they have one filing name and fit one domain. */
  lemma ShareExactly(companies: seq<Company>, a: Company, b: Company)
    requires a in companies && b in companies && DistinctIds(companies) && a != b
    ensures IdentityOf(companies, a) == IdentityOf(companies, b) <==>
      NameGroup(a) == NameGroup(b) && exists d :: Fits(companies, a, d) && Fits(companies, b, d)
  {
    FitsExactly(companies, a);
    FitsExactly(companies, b);
    if IdentityOf(companies, a) == IdentityOf(companies, b) {
      if IdentityOf(companies, a).ByRecord? {
        IdsIdentify(companies, a, b);
      } else {
        var d := IdentityOf(companies, a).domain;
        assert Fits(companies, a, d) && Fits(companies, b, d);
      }
    }
  }

  lemma FitsExactly(companies: seq<Company>, c: Company)
    requires c in companies
    ensures forall d :: Fits(companies, c, d) <==> IdentityOf(companies, c) == ByDomain(NameGroup(c), d)
  {
    var confirmed := ConfirmedIn(companies, NameGroup(c));
    if Confirmed(c).Some? {
      assert Confirmed(c).value in confirmed && c.domains == {Confirmed(c).value};
    }
    forall d
      ensures Fits(companies, c, d) <==> IdentityOf(companies, c) == ByDomain(NameGroup(c), d)
    {
      if c.domains <= {d} && confirmed == {d} {
        assert c.domains == {} || c.domains == {d};
        assert d in confirmed && Only(confirmed) == d;
      }
    }
  }

  /** A group mixes filing names exactly if keys collide, and name keys under one filing name
      exactly if a nameless record's id is the others' name key. */
  lemma MixedNamesExactly(companies: seq<Company>, a: Company, b: Company)
    requires a in companies && b in companies && KeyOf(companies, a) == KeyOf(companies, b)
    ensures NameGroup(a) != NameGroup(b) <==> Collide(companies, a, b)
    ensures !Collide(companies, a, b) ==>
      (a.nameKey != b.nameKey <==>
        (a.nameKey == "" && b.nameKey == a.id != "") || (b.nameKey == "" && a.nameKey == b.id != ""))
  {
    KeyTextExactly(IdentityOf(companies, a), IdentityOf(companies, b));
    KeyTextExactly(IdentityOf(companies, b), IdentityOf(companies, a));
  }

  /** Both happen: a nameless record whose id is a name key, and an id that holds a separator. */
  lemma NamesCanMix()
    ensures exists companies: seq<Company> ::
      && DistinctIds(companies) && |companies| == 2 && companies[0].nameKey != companies[1].nameKey
      && KeyOf(companies, companies[0]) == KeyOf(companies, companies[1])
      && !Collide(companies, companies[0], companies[1])
    ensures exists companies: seq<Company> ::
      && DistinctIds(companies) && |companies| == 2 && companies[0].nameKey != "" && companies[1].nameKey != ""
      && KeyOf(companies, companies[0]) == KeyOf(companies, companies[1])
      && Collide(companies, companies[0], companies[1])
  {
    MixedByIdentifier();
    MixedBySeparator();
  }

  lemma MixedByIdentifier()
    ensures exists companies: seq<Company> ::
      && DistinctIds(companies) && |companies| == 2 && companies[0].nameKey != companies[1].nameKey
      && KeyOf(companies, companies[0]) == KeyOf(companies, companies[1])
      && !Collide(companies, companies[0], companies[1])
  {
    NamelessJoins("acme", "e.test", "c");
  }

  /** A nameless record whose id is a name key joins the one verified record of that name. */
  lemma NamelessJoins(name: string, domain: string, id: string)
    requires name != "" && id != name
    ensures var a, b := Company(id, name, {domain}, true, {}), Company(name, "", {}, false, {});
      && DistinctIds([a, b]) && [a, b][0] == a && [a, b][1] == b && a.nameKey != b.nameKey
      && KeyOf([a, b], a) == KeyOf([a, b], b) && !Collide([a, b], a, b)
  {
    var a, b := Company(id, name, {domain}, true, {}), Company(name, "", {}, false, {});
    SoleConfirmed([a, b], a, name, domain);
    assert IdentityOf([a, b], a) == IdentityOf([a, b], b);
  }

  lemma MixedBySeparator()
    ensures exists companies: seq<Company> ::
      && DistinctIds(companies) && |companies| == 2 && companies[0].nameKey != "" && companies[1].nameKey != ""
      && KeyOf(companies, companies[0]) == KeyOf(companies, companies[1])
      && Collide(companies, companies[0], companies[1])
  {
    SeparatorJoins("acme", "z", "e.test", "c");
  }

  /** A record whose id holds a separator joins a verified record with a longer name. */
  lemma SeparatorJoins(name: string, z: string, domain: string, id: string)
    requires name != "" && id != z + ("|domain:" + domain)
    ensures var a := Company(id, name + "|record:" + z, {domain}, true, {});
      var b := Company(z + ("|domain:" + domain), name, {}, false, {});
      && DistinctIds([a, b]) && [a, b][0] == a && [a, b][1] == b && a.nameKey != "" && b.nameKey != ""
      && KeyOf([a, b], a) == KeyOf([a, b], b) && Collide([a, b], a, b)
  {
    var a := Company(id, name + "|record:" + z, {domain}, true, {});
    var b := Company(z + ("|domain:" + domain), name, {}, false, {});
    SoleConfirmed([a, b], a, a.nameKey, domain);
    assert |a.nameKey| > |name|;
    NoneConfirmed([a, b], name);
    SwallowsByHand(domain, z, name);
    SwallowedText(IdentityOf([a, b], b), IdentityOf([a, b], a));
  }

  lemma SwallowsByHand(domain: string, z: string, name: string)
    ensures Swallows(ByRecord(name, z + ("|domain:" + domain)), ByDomain(name + "|record:" + z, domain))
  {
    var tail := "|domain:" + domain;
    assert (z + tail)[|z|..] == tail && (z + tail)[..|z|] == z;
  }

  lemma SoleConfirmed(companies: seq<Company>, a: Company, name: string, domain: string)
    requires a in companies && NameGroup(a) == name && a.verified && a.domains == {domain}
    requires forall c :: c in companies && Confirmed(c).Some? ==> c == a
    ensures Confirmed(a) == Some(domain) && ConfirmedIn(companies, name) == {domain}
    ensures |ConfirmedIn(companies, name)| == 1 && Only(ConfirmedIn(companies, name)) == domain
  {
    assert |a.domains| == 1 && Only(a.domains) == domain;
    assert Confirmed(a).value in ConfirmedIn(companies, name);
    assert ConfirmedIn(companies, name) == {domain};
  }

  lemma NoneConfirmed(companies: seq<Company>, name: string)
    requires forall c :: c in companies && NameGroup(c) == name ==> Confirmed(c).None?
    ensures ConfirmedIn(companies, name) == {}
  {
  }

  // ---- Building the groups --------------------------------------------------

  function NameKey(): Company -> string {
    (c: Company) => NameGroup(c)
  }

  function IdentityKey(companies: seq<Company>): Company -> string {
    (c: Company) => KeyOf(companies, c)
  }

  /** The records that need information, in order. */
  function Needing(s: seq<Company>): seq<Company> {
    if s == [] then []
    else Needing(s[..|s| - 1]) + if s[|s| - 1].missing != {} then [s[|s| - 1]] else []
  }

  function SelectedOf(groups: seq<Group>): seq<Company> {
    if groups == [] then [] else SelectedOf(groups[..|groups| - 1]) + groups[|groups| - 1].selected
  }

  function Missing(s: seq<Company>): set<string> {
    set c, f | c in s && f in c.missing :: f
  }

  lemma {:induction false} NeedingCommutes(s: seq<Company>, key: Company -> string, k: string)
    ensures Needing(KeyedBy(s, key, k)) == KeyedBy(Needing(s), key, k)
    decreases |s|
  {
    if s != [] {
      var front, last := s[..|s| - 1], s[|s| - 1];
      NeedingCommutes(front, key, k);
      NeedingAppended(KeyedBy(front, key, k), last);
      Appended(Needing(front), last, key);
      assert KeyedBy(s, key, k) == if key(last) == k then KeyedBy(front, key, k) + [last] else KeyedBy(front, key, k);
      assert Needing(s) == if last.missing != {} then Needing(front) + [last] else Needing(front);
      assert KeyedBy(Needing(front) + [last], key, k) ==
        KeyedBy(Needing(front), key, k) + if key(last) == k then [last] else [];
    }
  }

  lemma NeedingAppended(s: seq<Company>, c: Company)
    ensures Needing(s + [c]) == Needing(s) + if c.missing != {} then [c] else []
  {
    assert (s + [c])[..|s|] == s;
  }

  lemma NeedingCountNext(front: seq<Company>, last: Company, c: Company)
    requires multiset(Needing(front))[c] == if c.missing != {} then multiset(front)[c] else 0
    ensures multiset(Needing(front + [last]))[c] == if c.missing != {} then multiset(front + [last])[c] else 0
  {
    NeedingAppended(front, last);
    CountAppended(front, last, c);
    CountAppended(Needing(front), last, c);
  }

  lemma {:induction false} NeedingCount(s: seq<Company>, c: Company)
    ensures multiset(Needing(s))[c] == if c.missing != {} then multiset(s)[c] else 0
    decreases |s|
  {
    if s != [] {
      var front, last := s[..|s| - 1], s[|s| - 1];
      NeedingCount(front, c);
      assert s == front + [last];
      NeedingCountNext(front, last, c);
    }
  }

  lemma {:induction false} NeedingMembers(s: seq<Company>)
    ensures forall c :: c in Needing(s) <==> c in s && c.missing != {}
    decreases |s|
  {
    if s != [] {
      NeedingMembers(s[..|s| - 1]);
      assert s == s[..|s| - 1] + [s[|s| - 1]];
    }
  }

  lemma NeedingPermutes(a: seq<Company>, b: seq<Company>)
    requires multiset(a) == multiset(b)
    ensures multiset(Needing(a)) == multiset(Needing(b))
  {
    forall c: Company ensures multiset(Needing(a))[c] == multiset(Needing(b))[c] {
      NeedingCount(a, c);
      NeedingCount(b, c);
    }
  }

  /** A group is all the records of one identity, with those that need information picked out. */
  ghost predicate IsGroup(g: Group, filed: seq<Company>, key: Company -> string, k: string) {
    && g.records == KeyedBy(filed, key, k)
    && g.selected == Needing(g.records) && g.selected != []
    && (forall f :: f in g.requested <==> exists c :: c in g.selected && f in c.missing)
  }

  /** The dictionary by_name. */
  method FileByName(companies: seq<Company>) returns (names: seq<string>, byName: map<string, seq<Company>>)
    ensures Covers(names, companies, NameKey()) && Holds(names, byName, companies, NameKey())
  {
    names, byName := AppendAll(companies, NameKey(), [], map[], [], NameKey());
    assert [] + companies == companies;
  }

  /** The confirmed domains among the records of a name decide the identities of all of them. */
  lemma ConfirmedDecides(companies: seq<Company>, name: string, confirmed: set<string>)
    requires confirmed == set c | c in KeyedBy(companies, NameKey(), name) && Confirmed(c).Some? :: Confirmed(c).value
    ensures forall c :: c in KeyedBy(companies, NameKey(), name) ==>
      KeyText(IdentityUnder(confirmed, c)) == IdentityKey(companies)(c)
  {
    KeyedByMembers(companies, NameKey(), name);
    assert ConfirmedIn(companies, name) == confirmed;
  }

  /** The records of one name, filed under their identities. */
  method FileRecords(companies: seq<Company>, name: string, records: seq<Company>, keys: seq<string>,
                     buckets: map<string, seq<Company>>, ghost filed: seq<Company>)
    returns (nextKeys: seq<string>, nextBuckets: map<string, seq<Company>>)
    requires records == KeyedBy(companies, NameKey(), name)
    requires Covers(keys, filed, IdentityKey(companies)) && Holds(keys, buckets, filed, IdentityKey(companies))
    ensures Covers(nextKeys, filed + records, IdentityKey(companies))
    ensures Holds(nextKeys, nextBuckets, filed + records, IdentityKey(companies))
  {
    var confirmed := set c | c in records && Confirmed(c).Some? :: Confirmed(c).value;
    ConfirmedDecides(companies, name, confirmed);
    var under := (c: Company) => KeyText(IdentityUnder(confirmed, c));
    nextKeys, nextBuckets := AppendAll(records, under, keys, buckets, filed, IdentityKey(companies));
  }

  /** The dictionary by_identity. */
  method FileByIdentity(companies: seq<Company>, names: seq<string>, byName: map<string, seq<Company>>)
    returns (keys: seq<string>, buckets: map<string, seq<Company>>, ghost filed: seq<Company>)
    requires Covers(names, companies, NameKey()) && Holds(names, byName, companies, NameKey())
    ensures multiset(filed) == multiset(companies)
    ensures Covers(keys, filed, IdentityKey(companies)) && Holds(keys, buckets, filed, IdentityKey(companies))
  {
    keys, buckets, filed := [], map[], [];
    for m := 0 to |names|
      invariant filed == Chained(companies, NameKey(), names[..m])
      invariant Covers(keys, filed, IdentityKey(companies)) && Holds(keys, buckets, filed, IdentityKey(companies))
    {
      assert names[m] in names;
      keys, buckets := FileRecords(companies, names[m], byName[names[m]], keys, buckets, filed);
      filed := filed + byName[names[m]];
      assert names[..m + 1][..m] == names[..m];
    }
    assert names[..|names|] == names;
    BucketsPartition(companies, NameKey(), names);
  }

  /** What has been collected after the buckets of `done`. */
  ghost predicate Collected(groups: seq<Group>, duplicates: nat, ids: seq<string>, filed: seq<Company>,
                            key: Company -> string, done: seq<string>)
  {
    && SelectedOf(groups) == Chained(Needing(filed), key, done)
    && |groups| + duplicates == |SelectedOf(groups)|
    && |ids| == |groups| && Distinct(ids) && (forall k :: k in ids ==> k in done)
    && (forall i :: 0 <= i < |groups| ==> IsGroup(groups[i], filed, key, ids[i]))
  }

  lemma CollectedNext(groups: seq<Group>, duplicates: nat, ids: seq<string>, filed: seq<Company>,
                      key: Company -> string, done: seq<string>, k: string, selected: seq<Company>)
    requires Collected(groups, duplicates, ids, filed, key, done) && k !in done
    requires selected == Needing(KeyedBy(filed, key, k))
    ensures selected == [] ==> Collected(groups, duplicates, ids, filed, key, done + [k])
    ensures selected != [] ==>
      Collected(groups + [Group(KeyedBy(filed, key, k), selected, Missing(selected))], duplicates + |selected| - 1,
                ids + [k], filed, key, done + [k])
  {
    NeedingCommutes(filed, key, k);
    assert (done + [k])[..|done|] == done;
    var g := Group(KeyedBy(filed, key, k), selected, Missing(selected));
    assert (groups + [g])[..|groups|] == groups;
  }

  method CollectGroups(keys: seq<string>, buckets: map<string, seq<Company>>, ghost filed: seq<Company>,
                       ghost key: Company -> string)
    returns (groups: seq<Group>, duplicatesSkipped: nat, ghost ids: seq<string>)
    requires Covers(keys, filed, key) && Holds(keys, buckets, filed, key)
    ensures Collected(groups, duplicatesSkipped, ids, filed, key, keys)
  {
    groups, duplicatesSkipped, ids := [], 0, [];
    for n := 0 to |keys|
      invariant Collected(groups, duplicatesSkipped, ids, filed, key, keys[..n])
    {
      assert keys[n] in keys;
      NextIsFresh(keys, n);
      groups, duplicatesSkipped, ids :=
        CollectGroup(groups, duplicatesSkipped, ids, filed, key, keys[..n], keys[n], buckets[keys[n]]);
    }
    assert keys[..|keys|] == keys;
  }

  lemma NextIsFresh(keys: seq<string>, n: nat)
    requires n < |keys| && Distinct(keys)
    ensures keys[n] !in keys[..n] && keys[..n + 1] == keys[..n] + [keys[n]]
  {
  }

  method CollectGroup(groups: seq<Group>, duplicates: nat, ghost ids: seq<string>, ghost filed: seq<Company>,
                      ghost key: Company -> string, ghost done: seq<string>, k: string, records: seq<Company>)
    returns (nextGroups: seq<Group>, nextDuplicates: nat, ghost nextIds: seq<string>)
    requires Collected(groups, duplicates, ids, filed, key, done) && k !in done && records == KeyedBy(filed, key, k)
    ensures Collected(nextGroups, nextDuplicates, nextIds, filed, key, done + [k])
  {
    var selected := Needing(records);
    CollectedNext(groups, duplicates, ids, filed, key, done, k, selected);
    if selected == [] {
      return groups, duplicates, ids;
    }
    nextGroups, nextIds := groups + [Group(records, selected, Missing(selected))], ids + [k];
    nextDuplicates := duplicates + |selected| - 1;
  }

  /** _company_refresh_groups, up to the order of the result. */
  method CompanyRefreshGroups(companies: seq<Company>)
    returns (groups: seq<Group>, duplicatesSkipped: nat, ghost ids: seq<string>, ghost filed: seq<Company>)
    ensures multiset(filed) == multiset(companies)
    // Every record that needs information is in exactly one group, as often as it is listed.
    ensures multiset(SelectedOf(groups)) == multiset(Needing(companies))
    ensures |groups| + duplicatesSkipped == |Needing(companies)|
    ensures |ids| == |groups| && Distinct(ids)
    ensures forall i :: 0 <= i < |groups| ==> IsGroup(groups[i], filed, IdentityKey(companies), ids[i])
  {
    var names, byName := FileByName(companies);
    var keys, buckets;
    keys, buckets, filed := FileByIdentity(companies, names, byName);
    groups, duplicatesSkipped, ids := CollectGroups(keys, buckets, filed, IdentityKey(companies));
    CollectedPartitions(groups, duplicatesSkipped, ids, filed, IdentityKey(companies), keys);
    NeedingPermutes(filed, companies);
    assert |multiset(SelectedOf(groups))| == |multiset(Needing(companies))|;
  }

  lemma CollectedPartitions(groups: seq<Group>, duplicates: nat, ids: seq<string>, filed: seq<Company>,
                            key: Company -> string, keys: seq<string>)
    requires Collected(groups, duplicates, ids, filed, key, keys) && Covers(keys, filed, key)
    ensures multiset(SelectedOf(groups)) == multiset(Needing(filed))
  {
    NeedingMembers(filed);
    BucketsPartition(Needing(filed), key, keys);
  }
}
