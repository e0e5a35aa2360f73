/** The handle that starts and cancels fetch patterns on request. */
module PatternHandle {
  import opened Names
  import opened Storage
  import opened FastRepo
  import opened CounterFetch
  import opened PatternTable

  class PatternHandle {
    var patterns: map<Name, CounterPattern>
    ghost var repr: set<CounterPattern>
    ghost var commands: seq<Command>   // the requests answered so far
    ghost var table: Table             // and what their clients have seen

    ghost predicate Valid()
      reads this, repr
    {
      Recorded(commands, table, patterns.Keys) && AllFetching()
    }

    static ghost predicate Recorded(commands: seq<Command>, table: Table, active: set<Name>) {
      table == PatternTable.Run(commands) && active == table.active
    }

    ghost predicate AllFetching()
      reads this`patterns, this`repr, repr
    {
      forall p :: p in patterns ==> patterns[p] in repr && Fetching(patterns[p], p)
    }

    static ghost predicate Fetching(pattern: CounterPattern, prefix: Name)
      reads pattern
    {
      pattern.Valid() && pattern.started && pattern.state.prefix == prefix
    }

    /** The pattern that fetches under a prefix, if any. */
    ghost function At(prefix: Name): set<CounterPattern>
      reads this`patterns
    {
      if prefix in patterns then {patterns[prefix]} else {}
    }

    constructor ()
      ensures Valid() && patterns == map[] && commands == [] && repr == {}
    {
      patterns, repr, commands := map[], {}, [];
      table := Table({}, []);
    }

    /** A fetch request; `id` names the pattern if one starts. The prefix of a pattern that starts is
        announced under its stored name. */
    method OnInterest(command: Command, ghost id: nat, storage: StorageEngine, repo: FastRepo) returns (code: nat)
      requires Valid() && !command.Stop?
      modifies this, repo`dataPrefixes, repo`listened
      ensures Valid() && commands == old(commands) + [command]
      ensures table == PatternTable.Step(old(table), command) && code == Answer(old(table), command)
      ensures old(repr) <= repr
      ensures code == STARTED ==> StartedNow(old(patterns), command.prefix, id) && fresh(patterns[command.prefix])
      ensures code == STARTED ==>
                repo.dataPrefixes
                == Announced(repo.slots, old(repo.dataPrefixes), Parse(storage.renamePrefix) + command.prefix)
      ensures code != STARTED ==> patterns == old(patterns) && repo.dataPrefixes == old(repo.dataPrefixes)
      ensures repo.listened == old(repo.listened) + repo.dataPrefixes[|old(repo.dataPrefixes)|..]
    {
      Note(command);
      if command.Garbled? {
        return MALFORMED;
      }
      var fetchPrefix := command.prefix;
      if fetchPrefix in patterns {
        return REFUSED;
      }
      if !command.known {
        return UNKNOWN_PATTERN;
      }
      StartPattern(fetchPrefix, id);
      repo.DataInserted(Parse(storage.renamePrefix) + fetchPrefix);
      return STARTED;
    }

    /** The pattern of a prefix has just begun; the other patterns are the ones of before. */
    ghost predicate StartedNow(before: map<Name, CounterPattern>, prefix: Name, id: nat)
      reads this, repr
    {
      && prefix !in before && prefix in patterns && patterns == before[prefix := patterns[prefix]]
      && patterns[prefix] in repr && patterns[prefix].id == id && patterns[prefix].state == Begin(prefix)
    }

    method StartPattern(fetchPrefix: Name, ghost id: nat)
      requires AllFetching()
      modifies this`patterns, this`repr
      ensures AllFetching()
      ensures fetchPrefix !in old(patterns) ==>
                StartedNow(old(patterns), fetchPrefix, id) && fresh(patterns[fetchPrefix])
      ensures patterns.Keys == old(patterns.Keys) + {fetchPrefix} && old(repr) <= repr
    {
      var pattern := new CounterPattern(id);
      pattern.Fetch(fetchPrefix);
      patterns := patterns[fetchPrefix := pattern];
      repr := repr + {pattern};
    }

    /** A cancel request stops the pattern and takes it off the table. */
    method OnCancelRequest(command: Command) returns (code: nat)
      requires Valid() && !command.Start?
      modifies this`patterns, this`commands, this`table, if command.Stop? then At(command.prefix) else {}
      ensures Valid() && commands == old(commands) + [command]
      ensures table == PatternTable.Step(old(table), command) && code == Answer(old(table), command)
      ensures code == CANCELLED ==>
                && command.prefix in old(patterns) && patterns == old(patterns) - {command.prefix}
                && var p := old(patterns)[command.prefix];
                    p.Valid() && p.started && !p.running && p.state == CounterFetch.Step(old(p.state), Event.Cancel)
      ensures code != CANCELLED ==> patterns == old(patterns)
    {
      Note(command);
      if command.Garbled? {
        return MALFORMED;
      }
      var fetchPrefix := command.prefix;
      if fetchPrefix !in patterns {
        return REFUSED;
      }
      RemovePattern(fetchPrefix);
      return CANCELLED;
    }

    /** Cancels a pattern and drops it, if it is there. */
    method RemovePattern(fetchPrefix: Name)
      requires AllFetching()
      modifies this`patterns, At(fetchPrefix)
      ensures AllFetching() && patterns == old(patterns) - {fetchPrefix}
      ensures fetchPrefix in old(patterns) ==>
                var p := old(patterns)[fetchPrefix];
                    p.Valid() && p.started && !p.running && p.state == CounterFetch.Step(old(p.state), Event.Cancel)
    {
      if fetchPrefix in patterns {
        assert Fetching(patterns[fetchPrefix], fetchPrefix);
        patterns[fetchPrefix].Cancel();
        patterns := patterns - {fetchPrefix};
        forall p | p in patterns
          ensures patterns[p] in repr && Fetching(patterns[p], p)
        {
          assert old(Fetching(patterns[p], p));
        }
      }
    }

    ghost method Note(c: Command)
      requires table == PatternTable.Run(commands)
      modifies this`commands, this`table
      ensures commands == old(commands) + [c]
      ensures table == PatternTable.Step(old(table), c) && table == PatternTable.Run(commands)
    {
      commands, table := commands + [c], PatternTable.Step(table, c);
      assert commands[..|commands| - 1] == old(commands);
    }
  }
}
