/** The pattern handle together with every counter pattern it ever started: what a run of the
    repository sees of them. */
module Fetchers {
  import opened Names
  import opened Storage
  import opened FastRepo
  import opened CounterFetch
  import PatternTable
  import opened PatternHandle

  class Fetchers {
    const handle: PatternHandle
    ghost var byId: map<nat, CounterPattern>  // every pattern started so far
    ghost var fetches: map<nat, Fetch>        // the states they are in
    ghost var table: map<Name, nat>           // the active ones, by fetch prefix

    ghost predicate Valid()
      reads this, handle, handle.repr
    {
      Shows(fetches, table)
    }

    /** The patterns are in the states `fetches`, and the active ones are those in `table`. */
    ghost predicate Shows(fetches: map<nat, Fetch>, table: map<Name, nat>)
      reads this`byId, handle, handle.repr
    {
      && PatternHandle.Recorded(handle.commands, handle.table, handle.patterns.Keys)
      && Matched(byId, fetches, table, handle.patterns)
      && AllWorking(byId, handle.repr, fetches)
    }

    /** The pattern is the one that runs by the name id. */
    ghost predicate Named(id: nat, pattern: CounterPattern)
      reads this`byId
    {
      id in byId && byId[id] == pattern
    }

    static ghost predicate AllWorking(byId: map<nat, CounterPattern>, repr: set<CounterPattern>,
                                      fetches: map<nat, Fetch>)
      reads repr
    {
      forall id :: id in byId && id in fetches ==> byId[id] in repr && Working(id, byId[id], fetches[id])
    }

    static ghost predicate Working(id: nat, pattern: CounterPattern, f: Fetch)
      reads pattern
    {
      pattern.id == id && pattern.Valid() && pattern.started && pattern.state == f
    }

    /** The tables against each other. */
    static ghost predicate Matched(byId: map<nat, CounterPattern>, fetches: map<nat, Fetch>,
                                   table: map<Name, nat>, patterns: map<Name, CounterPattern>) {
      && fetches.Keys == byId.Keys && table.Keys == patterns.Keys
      && forall p :: p in table && p in patterns ==> Active(byId, fetches, p, table[p], patterns[p])
    }

    static ghost predicate Active(byId: map<nat, CounterPattern>, fetches: map<nat, Fetch>,
                                  p: Name, id: nat, pattern: CounterPattern) {
      id in byId && byId[id] == pattern && id in fetches && fetches[id].prefix == p
    }

    /** What the handle relies on follows. */
    lemma HandleIsValid(fetches: map<nat, Fetch>, table: map<Name, nat>)
      requires Shows(fetches, table)
      ensures handle.Valid()
    {
      forall p | p in handle.patterns
        ensures handle.patterns[p] in handle.repr && PatternHandle.Fetching(handle.patterns[p], p)
      {
        assert Active(byId, fetches, p, table[p], handle.patterns[p]);
        assert Working(table[p], handle.patterns[p], fetches[table[p]]);
      }
    }

    static lemma StillMatched(byId: map<nat, CounterPattern>, fetches: map<nat, Fetch>,
                              table: map<Name, nat>, patterns: map<Name, CounterPattern>,
                              id: nat, e: CounterFetch.Event)
      requires Matched(byId, fetches, table, patterns) && id in fetches && Enabled(fetches[id], e)
      ensures Matched(byId, fetches[id := Step(fetches[id], e)], table, patterns)
    {
      forall p | p in table && p in patterns
        ensures Active(byId, fetches[id := Step(fetches[id], e)], p, table[p], patterns[p])
      {
        assert Active(byId, fetches, p, table[p], patterns[p]);
      }
    }

    constructor ()
      ensures Valid() && byId == map[] && fetches == map[] && table == map[]
      ensures fresh(handle) && handle.repr == {}
    {
      handle := new PatternHandle();
      byId, fetches, table := map[], map[], map[];
      new;
      assert handle.patterns == map[];
    }

    /** The patterns have got to these states. */
    ghost method Settle(fetches': map<nat, Fetch>, table': map<Name, nat>)
      requires Shows(fetches', table')
      modifies this`fetches, this`table
      ensures Valid() && fetches == fetches' && table == table'
    {
      fetches, table := fetches', table';
    }

    method DoFetch(ghost id: nat, pattern: CounterPattern)
      requires Valid() && Named(id, pattern) && pattern.timers > 0
      modifies pattern, this`fetches, this`table
      ensures Valid() && id in old(fetches) && Enabled(old(fetches)[id], Timer)
      ensures fetches == old(fetches)[id := Step(old(fetches)[id], Timer)] && table == old(table)
    {
      assert Working(id, pattern, fetches[id]);
      pattern.DoFetch();
      StillMatched(byId, fetches, table, handle.patterns, id, Timer);
      Settle(fetches[id := Step(fetches[id], Timer)], table);
    }

    method InterestLost(ghost id: nat, pattern: CounterPattern, interest: Name)
      requires Valid() && Named(id, pattern) && interest in pattern.outstanding
      modifies pattern, this`fetches, this`table
      ensures Valid() && id in old(fetches) && Enabled(old(fetches)[id], Lost)
      ensures fetches == old(fetches)[id := Step(old(fetches)[id], Lost)] && table == old(table)
    {
      assert Working(id, pattern, fetches[id]);
      pattern.InterestLost(interest);
      StillMatched(byId, fetches, table, handle.patterns, id, Lost);
      Settle(fetches[id := Step(fetches[id], Lost)], table);
    }

    /** Data answers an interest only if its name extends the interest's, which extends the pattern's prefix. */
    method OnData(ghost id: nat, pattern: CounterPattern, interest: Name, data: Packet, ok: bool,
                  storage: StorageEngine)
      requires Valid() && Named(id, pattern) && interest in pattern.outstanding
      requires storage.Consistent() && WellFormed(data.name) && interest <= data.name
      modifies pattern, this`fetches, this`table, storage`keys, storage`values
      ensures Valid() && id in old(fetches) && Enabled(old(fetches)[id], Event.Data)
      ensures old(fetches)[id].prefix <= data.name
      ensures fetches == old(fetches)[id := Step(old(fetches)[id], Event.Data)] && table == old(table)
      ensures storage.Consistent()
      ensures StorageEngine.Stores(old(storage.values), storage.values, storage.renamePrefix, data, ok)
      ensures storage.Stored() == old(storage.Stored()) + if ok then {Parse(storage.renamePrefix) + data.name} else {}
    {
      assert Working(id, pattern, fetches[id]);
      pattern.OnData(interest, data, ok, storage);
      PrefixTransitive(fetches[id].prefix, interest, data.name);
      StillMatched(byId, fetches, table, handle.patterns, id, Event.Data);
      Settle(fetches[id := Step(fetches[id], Event.Data)], table);
    }

    /** A fetch request; `id` names the pattern if one starts. */
    method OnInterest(prefix: Name, known: bool, ghost id: nat, storage: StorageEngine, repo: FastRepo)
        returns (code: nat)
      requires Valid() && id !in byId
      modifies this, handle, repo`dataPrefixes, repo`listened
      ensures Valid() && code == if prefix in old(table) then 402 else if known then 100 else 404
      ensures code == 100 ==>
                && fetches == old(fetches)[id := Begin(prefix)] && table == old(table)[prefix := id]
                && repo.dataPrefixes
                   == Announced(repo.slots, old(repo.dataPrefixes), Parse(storage.renamePrefix) + prefix)
      ensures code != 100 ==>
                fetches == old(fetches) && table == old(table) && repo.dataPrefixes == old(repo.dataPrefixes)
      ensures repo.listened == old(repo.listened) + repo.dataPrefixes[|old(repo.dataPrefixes)|..]
    {
      ghost var before := handle.patterns;
      HandleIsValid(fetches, table);
      code := handle.OnInterest(PatternTable.Start(prefix, known), id, storage, repo);
      if code == PatternTable.STARTED {
        Adopt(id, prefix, before, fetches, table);
        Settle(fetches[id := Begin(prefix)], table[prefix := id]);
      }
    }

    /** The handle has just started a pattern. */
    ghost method Adopt(id: nat, prefix: Name, before: map<Name, CounterPattern>, fetches: map<nat, Fetch>,
                       table: map<Name, nat>)
      requires id !in byId && Matched(byId, fetches, table, before) && AllWorking(byId, handle.repr, fetches)
      requires handle.Valid() && handle.StartedNow(before, prefix, id)
      modifies this`byId
      ensures Shows(fetches[id := Begin(prefix)], table[prefix := id])
    {
      var pattern := handle.patterns[prefix];
      assert PatternHandle.Fetching(pattern, prefix);
      MatchedMore(byId, fetches, table, before, id, prefix, pattern);
      WorkingMore(byId, handle.repr, fetches, id, prefix, pattern);
      byId := byId[id := pattern];
    }

    static lemma MatchedMore(byId: map<nat, CounterPattern>, fetches: map<nat, Fetch>, table: map<Name, nat>,
                             patterns: map<Name, CounterPattern>, id: nat, prefix: Name, pattern: CounterPattern)
      requires Matched(byId, fetches, table, patterns) && id !in byId
      ensures Matched(byId[id := pattern], fetches[id := Begin(prefix)], table[prefix := id],
                      patterns[prefix := pattern])
    {
      var table', patterns' := table[prefix := id], patterns[prefix := pattern];
      forall p | p in table' && p in patterns'
        ensures Active(byId[id := pattern], fetches[id := Begin(prefix)], p, table'[p], patterns'[p])
      {
        assert p != prefix ==> Active(byId, fetches, p, table[p], patterns[p]);
      }
    }

    static lemma WorkingMore(byId: map<nat, CounterPattern>, repr: set<CounterPattern>, fetches: map<nat, Fetch>,
                             id: nat, prefix: Name, pattern: CounterPattern)
      requires AllWorking(byId, repr, fetches) && id !in byId && fetches.Keys == byId.Keys
      requires pattern in repr && Working(id, pattern, Begin(prefix))
      ensures AllWorking(byId[id := pattern], repr, fetches[id := Begin(prefix)])
      ensures fetches[id := Begin(prefix)].Keys == byId[id := pattern].Keys
    {
    }

    /** A cancel request stops the pattern that the table names. */
    method OnCancelRequest(prefix: Name) returns (code: nat)
      requires Valid()
      modifies this`fetches, this`table, handle`patterns, handle`commands, handle`table, handle.At(prefix)
      ensures Valid() && code == if prefix in old(table) then 101 else 402
      ensures prefix in old(table) ==>
                var id := old(table)[prefix];
                && id in old(fetches) && fetches == old(fetches)[id := Step(old(fetches)[id], Event.Cancel)]
                && table == old(table) - {prefix}
      ensures prefix !in old(table) ==> fetches == old(fetches) && table == old(table)
    {
      HandleIsValid(fetches, table);
      if prefix in handle.patterns {
        code := CancelActive(prefix, handle.patterns[prefix]);
      } else {
        code := Refuse(prefix);
      }
    }

    method Refuse(prefix: Name) returns (code: nat)
      requires handle.Valid() && prefix !in handle.patterns
      modifies handle`patterns, handle`commands, handle`table
      ensures handle.Valid() && handle.patterns == old(handle.patterns) && code == 402
    {
      code := handle.OnCancelRequest(PatternTable.Stop(prefix));
    }

    /** The same for an active prefix. */
    method CancelActive(prefix: Name, ghost pattern: CounterPattern) returns (code: nat)
      requires Valid() && prefix in table && prefix in handle.patterns && pattern == handle.patterns[prefix]
      modifies this`fetches, this`table, handle`patterns, handle`commands, handle`table, pattern
      ensures Valid() && table == old(table) - {prefix} && code == 101
      ensures var id := old(table)[prefix];
                id in old(fetches) && fetches == old(fetches)[id := Step(old(fetches)[id], Event.Cancel)]
    {
      Owner(prefix);
      HandleIsValid(fetches, table);
      code := Stop(prefix, pattern, fetches, table);
      Settle(fetches[table[prefix] := Step(fetches[table[prefix]], Event.Cancel)], table - {prefix});
    }

    method Stop(prefix: Name, ghost pattern: CounterPattern,
                ghost fetches: map<nat, Fetch>, ghost table: map<Name, nat>)
      returns (code: nat)
      requires handle.Valid() && Shows(fetches, table) && prefix in handle.patterns
      requires pattern == handle.patterns[prefix]
      requires table[prefix] in fetches && Named(table[prefix], pattern)
      requires pattern.id == table[prefix] && pattern.state == fetches[table[prefix]]
      modifies handle`patterns, handle`commands, handle`table, pattern
      ensures Shows(fetches[table[prefix] := Step(fetches[table[prefix]], Event.Cancel)], table - {prefix})
      ensures code == 101
    {
      ghost var before := handle.patterns;
      code := Drop(prefix, pattern, byId, fetches);
      StillMatched(byId, fetches, table, before, table[prefix], Event.Cancel);
      MatchedLess(byId, fetches[table[prefix] := Step(fetches[table[prefix]], Event.Cancel)], table, before, prefix);
    }

    method Drop(prefix: Name, ghost pattern: CounterPattern, ghost byId: map<nat, CounterPattern>,
                ghost fetches: map<nat, Fetch>) returns (code: nat)
      requires handle.Valid() && prefix in handle.patterns && handle.patterns[prefix] == pattern
      requires AllWorking(byId, handle.repr, fetches) && pattern.id in byId && byId[pattern.id] == pattern
      requires pattern.id in fetches && pattern.state == fetches[pattern.id]
      modifies handle`patterns, handle`commands, handle`table, pattern
      ensures handle.Valid() && handle.patterns == old(handle.patterns) - {prefix} && code == 101
      ensures AllWorking(byId, handle.repr, fetches[pattern.id := Step(fetches[pattern.id], Event.Cancel)])
    {
      code := handle.OnCancelRequest(PatternTable.Stop(prefix));
    }

    lemma Owner(prefix: Name)
      requires Valid() && prefix in table
      ensures table[prefix] in fetches && Named(table[prefix], handle.patterns[prefix])
      ensures Working(table[prefix], handle.patterns[prefix], fetches[table[prefix]])
      ensures handle.patterns[prefix].id == table[prefix]
    {
      assert Active(byId, fetches, prefix, table[prefix], handle.patterns[prefix]);
    }

    static lemma MatchedLess(byId: map<nat, CounterPattern>, fetches: map<nat, Fetch>,
                             table: map<Name, nat>, patterns: map<Name, CounterPattern>, prefix: Name)
      requires Matched(byId, fetches, table, patterns)
      ensures Matched(byId, fetches, table - {prefix}, patterns - {prefix})
    {
    }
  }
}
