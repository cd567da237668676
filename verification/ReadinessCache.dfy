/**
 The single-flight cache of backend/health.py. Callers run concurrently; each method below
 is one section under the condition variable, so an interleaving is any sequence of calls.
 */
module ReadinessCache {
  import opened Wrappers

  type Key = string          // the resolved paths and the version
  type Caller = int          // one call of get
  type Time = int

  /** The status code and the payload, as values: its own status and that of its components. */
  datatype Content = Content(statusCode: int, status: string, components: map<string, string>)

  /** The dictionary of one component. */
  class Component {
    var status: string

    constructor (status: string)
      ensures this.status == status
    {
      this.status := status;
    }
  }

  class ReadinessResult {
    const statusCode: int
    var status: string
    var components: map<string, Component>

    ghost function Value(): Content
      reads this, components.Values
    {
      Content(statusCode, status, map n | n in components :: components[n].status)
    }

    constructor (statusCode: int, status: string, components: map<string, Component>)
      ensures this.statusCode == statusCode && this.status == status && this.components == components
    {
      this.statusCode, this.status, this.components := statusCode, status, components;
    }

    /** _clone_result: a deep copy shares nothing with the original. */
    method Clone() returns (copy: ReadinessResult)
      ensures copy.Value() == Value() && fresh(copy) && fresh(copy.components.Values)
    {
      var copies: map<string, Component> := map[];
      var rest := components.Keys;
      while rest != {}
        invariant rest <= components.Keys && copies.Keys == components.Keys - rest
        invariant forall n :: n in copies ==> fresh(copies[n]) && copies[n].status == components[n].status
        decreases |rest|
      {
        var name :| name in rest;
        var component := new Component(components[name].status);
        copies, rest := copies[name := component], rest - {name};
      }
      copy := new ReadinessResult(statusCode, status, copies);
    }
  }

  /** What one pass of the waiting loop decides. */
  datatype Admission = Hit(result: ReadinessResult) | Check | Wait

  /** A check that has completed. */
  datatype Record = Record(key: Key, at: Time, content: Content)

  class Cache {
    const ttl: Time
    var entries: map<Key, (Time, ReadinessResult)>
    var inFlight: set<Key>
    ghost var checking: map<Caller, Key>      // the callers between admission and completion
    ghost var log: seq<Record>
    ghost var owner: map<Key, Caller>         // and the one each key in flight belongs to
    ghost var origin: map<Key, nat>           // the record an entry stems from
    ghost var held: map<Key, Content>         // and what it said
    ghost var results: set<ReadinessResult>   // the objects only the cache knows
    ghost var parts: set<Component>

    /** A key is in flight exactly while one caller checks it. */
    ghost predicate SingleFlight()
      reads this`inFlight, this`owner, this`checking
    {
      && inFlight == owner.Keys
      && (forall k :: k in owner ==> owner[k] in checking && checking[owner[k]] == k)
      && (forall c :: c in checking ==> checking[c] in owner && owner[checking[c]] == c)
    }

    /** An entry stems from the check that expires with it. */
    ghost predicate Recorded()
      reads this`entries, this`held, this`origin, this`log
    {
      forall k :: k in entries ==>
        k in held && k in origin && origin[k] < |log| && log[origin[k]] == Record(k, entries[k].0 - ttl, held[k])
    }

    /** And is a private copy of what that check found. */
    ghost predicate Unaltered()
      reads this`entries, this`held, this`results, this`parts, results, parts
    {
      forall k :: k in entries ==>
        && k in held && entries[k].1 in results && entries[k].1.components.Values <= parts
        && entries[k].1.Value() == held[k]
    }

    ghost predicate Valid()
      reads this, results, parts
    {
      SingleFlight() && Recorded() && Unaltered()
    }

    constructor (ttl: Time)
      requires ttl > 0
      ensures Valid() && this.ttl == ttl && entries == map[] && inFlight == {} && checking == map[]
    {
      this.ttl, entries, inFlight, checking, log := ttl, map[], {}, map[], [];
      owner, origin, held, results, parts := map[], map[], map[], {}, {};
    }

    method Enter(c: Caller, k: Key)
      requires SingleFlight() && c !in checking && k !in inFlight
      modifies this`inFlight, this`checking, this`owner
      ensures SingleFlight() && inFlight == old(inFlight) + {k} && checking == old(checking)[c := k]
    {
      inFlight := inFlight + {k};
      checking, owner := checking[c := k], owner[k := c];
    }

    method Leave(c: Caller, k: Key)
      requires SingleFlight() && c in checking && checking[c] == k
      modifies this`inFlight, this`checking, this`owner
      ensures SingleFlight() && inFlight == old(inFlight) - {k} && checking == old(checking) - {c}
    {
      inFlight := inFlight - {k};
      checking, owner := checking - {c}, owner - {k};
    }

    /** The entry, without its record. */
    method Install(k: Key, now: Time, kept: ReadinessResult, ghost found: Content)
      requires Unaltered() && kept.Value() == found
      modifies this`entries, this`held, this`results, this`parts
      ensures Unaltered() && entries == old(entries)[k := (now + ttl, kept)] && held == old(held)[k := found]
      ensures results == old(results) + {kept} && parts == old(parts) + kept.components.Values
    {
      held := held[k := found];
      results, parts := results + {kept}, parts + kept.components.Values;
      entries := entries[k := (now + ttl, kept)];
    }

    /** The record of the check that this entry stems from. */
    ghost method Log(k: Key, now: Time, others: set<Key>)
      requires entries.Keys == others + {k} && k in held && entries[k].0 == now + ttl
      requires forall q :: q in others && q != k ==>
        q in held && q in origin && origin[q] < |log| && log[origin[q]] == Record(q, entries[q].0 - ttl, held[q])
      modifies this`origin, this`log
      ensures Recorded() && log == old(log) + [Record(k, now, held[k])]
    {
      log, origin := log + [Record(k, now, held[k])], origin[k := |log|];
    }

    /** A new entry, an object that nobody else knows. */
    method Store(k: Key, now: Time, kept: ReadinessResult, ghost found: Content)
      requires Recorded() && Unaltered() && kept.Value() == found
      modifies this`entries, this`held, this`origin, this`log, this`results, this`parts
      ensures Recorded() && Unaltered() && entries == old(entries)[k := (now + ttl, kept)]
      ensures log == old(log) + [Record(k, now, found)]
      ensures results == old(results) + {kept} && parts == old(parts) + kept.components.Values
    {
      ghost var others := entries.Keys;
      Install(k, now, kept, found);
      Log(k, now, others);
    }

    method Evict(k: Key)
      requires Recorded() && Unaltered()
      modifies this`entries
      ensures Recorded() && Unaltered() && entries == old(entries) - {k}
    {
      entries := entries - {k};
    }

    /** The copy of an entry that has not expired. */
    method Lookup(k: Key, now: Time) returns (found: Option<ReadinessResult>)
      requires Recorded() && Unaltered()
      ensures Recorded() && Unaltered()
      ensures found.Some? <==> k in entries && now < entries[k].0
      ensures found.Some? ==>
        && fresh(found.value) && fresh(found.value.components.Values)
        && exists i :: 0 <= i < |log| && log[i].key == k && now < log[i].at + ttl
                       && log[i].content == found.value.Value()
    {
      if k !in entries || now >= entries[k].0 {
        return None;
      }
      var copy := entries[k].1.Clone();
      assert log[origin[k]].content == copy.Value();
      return Some(copy);
    }

    /** One pass of the loop in get: a caller that waits comes here again when it is woken. */
    method Admit(c: Caller, k: Key, now: Time) returns (admission: Admission)
      requires Valid() && c !in checking
      modifies this`entries, this`inFlight, this`checking, this`owner
      ensures Valid()
      ensures admission.Hit? <==> k in old(entries) && now < old(entries)[k].0
      // A hit is the content of a completed check that is younger than the time to live.
      ensures admission.Hit? ==>
        && entries == old(entries) && inFlight == old(inFlight) && checking == old(checking)
        && fresh(admission.result) && fresh(admission.result.components.Values)
        && exists i :: 0 <= i < |log| && log[i].key == k && now < log[i].at + ttl
                       && log[i].content == admission.result.Value()
      ensures !admission.Hit? ==> entries == old(entries) - {k}
      ensures admission.Check? ==>
        k !in old(inFlight) && inFlight == old(inFlight) + {k} && checking == old(checking)[c := k]
      ensures admission.Wait? ==> k in inFlight && inFlight == old(inFlight) && checking == old(checking)
    {
      var found := Lookup(k, now);
      if found.Some? {
        return Hit(found.value);
      }
      Evict(k);
      var enters := k !in inFlight;
      if enters {
        Enter(c, k);
      }
      return if enters then Check else Wait;
    }

    /** The section after a check: the cache keeps a copy of its own. */
    method Complete(c: Caller, k: Key, result: ReadinessResult, now: Time)
      requires Valid() && c in checking && checking[c] == k
      modifies this
      ensures Valid() && k in entries && entries[k].0 == now + ttl && entries == old(entries)[k := entries[k]]
      ensures fresh(entries[k].1) && fresh(entries[k].1.components.Values)
      ensures results == old(results) + {entries[k].1} && parts == old(parts) + entries[k].1.components.Values
      ensures inFlight == old(inFlight) - {k} && checking == old(checking) - {c}
      ensures log == old(log) + [Record(k, now, old(result.Value()))]
    {
      ghost var found := result.Value();
      var kept := result.Clone();
      Store(k, now, kept, found);
      Leave(c, k);
    }

    /** The checker returned `result`; its caller gets a copy and the cache keeps another. */
    method Publish(c: Caller, k: Key, result: ReadinessResult, now: Time) returns (copy: ReadinessResult)
      requires Valid() && c in checking && checking[c] == k
      modifies this
      ensures Valid() && fresh(copy) && fresh(copy.components.Values) && copy.Value() == old(result.Value())
      ensures k in entries && entries[k].0 == now + ttl && entries == old(entries)[k := entries[k]]
      ensures copy !in results && copy.components.Values !! parts
      ensures inFlight == old(inFlight) - {k} && checking == old(checking) - {c}
      ensures log == old(log) + [Record(k, now, old(result.Value()))]
    {
      Complete(c, k, result, now);
      copy := result.Clone();
    }

    /** The checker raised: somebody else may check, and no entry appears. */
    method Abandon(c: Caller, k: Key)
      requires Valid() && c in checking && checking[c] == k
      modifies this`inFlight, this`checking, this`owner
      ensures Valid()
      ensures inFlight == old(inFlight) - {k} && checking == old(checking) - {c}
    {
      Leave(c, k);
    }

    method Clear()
      requires Valid()
      modifies this
      ensures Valid() && entries == map[] && inFlight == old(inFlight) && checking == old(checking)
      ensures log == old(log) && results == old(results) && parts == old(parts)
    {
      entries := map[];
    }

    /** At most one caller checks a key. */
    lemma OneChecker(c: Caller, d: Caller)
      requires Valid() && c in checking && d in checking && checking[c] == checking[d]
      ensures c == d && checking[c] in inFlight
    {
      assert owner[checking[c]] == c && owner[checking[d]] == d;
    }

    /** Whoever got a result may change it and the components in it: only its own copy changes. */
    method CallerChanges(mine: ReadinessResult, status: string, name: string)
      requires Valid() && mine !in results && mine.components.Values !! parts
      modifies mine, mine.components.Values
      ensures Valid() && forall k :: k in entries ==> entries[k].1.Value() == old(entries[k].1.Value())
      ensures mine.status == status && (name in mine.components ==> mine.components[name].status == status)
    {
      mine.status := status;
      if name in mine.components {
        mine.components[name].status := status;
      }
    }
  }
}
