/** The handles wired to one store and one list of served prefixes. Every callback is proved to take the
    step of RepoRuns that it stands for, so the guarantees of whole runs hold of these objects. */
module Repository {
  import opened Names
  import opened LongestPrefixes
  import opened KeyTrie
  import opened Storage
  import opened FastRepo
  import opened CounterFetch
  import opened Fetchers
  import SingleInsert
  import opened RepoRuns

  class Repository {
    const storage: StorageEngine
    const served: FastRepo
    const writeHandle: SingleInsert.WriteHandle
    const patterns: Fetchers

    ghost var origin: Repo
    ghost var events: seq<RepoRuns.Event>
    ghost var now: Repo                           // where the run stands

    ghost predicate Valid()
      reads this, storage, served, writeHandle, patterns, patterns.handle, patterns.handle.repr
    {
      Handles() && now == Observed() && OnRun()
    }

    ghost predicate OnRun()
      reads this`origin, this`events, this`now
    {
      Reached(origin, events, now)
    }

    static ghost predicate Reached(origin: Repo, events: seq<RepoRuns.Event>, now: Repo) {
      RepoRuns.ValidRun(origin, events) && now == RepoRuns.Run(origin, events)
    }

    ghost predicate Handles()
      reads storage, served, writeHandle, patterns, patterns.handle, patterns.handle.repr
    {
      storage.Consistent() && writeHandle.Valid() && patterns.Valid() && served.slots > 0
    }

    /** The state that the objects are in. */
    ghost function Observed(): RepoRuns.State
      reads storage`renamePrefix, storage`values, served`dataPrefixes, served`listened
      reads writeHandle`processes, patterns`fetches, patterns`table
    {
      RepoRuns.State(Parse(storage.renamePrefix), storage.Stored(), served.dataPrefixes, served.listened,
                     writeHandle.processes.Keys, patterns.fetches, patterns.table)
    }

    /** Nothing is served, asked for or in progress yet. */
    ghost predicate Pristine(configured: seq<Name>)
      reads this, served, writeHandle, patterns, patterns.handle, patterns.handle.repr
    {
      && served.dataPrefixes == configured && served.listened == []
      && writeHandle.Valid() && writeHandle.processes == map[]
      && patterns.Valid() && patterns.fetches == map[] && patterns.table == map[]
    }

    constructor (storage: StorageEngine, configured: seq<Name>)
      ensures this.storage == storage && Pristine(configured)
      ensures fresh(served) && fresh(writeHandle) && fresh(patterns) && fresh(patterns.handle)
      ensures fresh(patterns.handle.repr)
    {
      this.storage := storage;
      served := new FastRepo(configured);
      writeHandle := new SingleInsert.WriteHandle();
      patterns := new Fetchers();
    }

    /** The startup scan, after which commands are listened to. */
    method Start(repoPrefixes: seq<Name>, ghost configured: seq<Name>) returns (ghost found: seq<Name>)
      requires Pristine(configured) && repoPrefixes != []
      requires storage.Valid() && storage.trie.names == {}
      modifies this, served, storage`nKeys, storage.trie, storage.trie.repr
      ensures Valid() && events == [] && now == origin
      ensures ListsChainEnds(old(storage.Stored()), found)
      ensures origin == Startup(Parse(storage.renamePrefix), old(storage.Stored()), configured, found)
    {
      found := served.InitializeStorage(storage);
      served.EnableListening(repoPrefixes);
      assert {} + storage.Stored() == storage.Stored();
      SetOut(configured, found);
    }

    ghost method SetOut(configured: seq<Name>, found: seq<Name>)
      requires Handles() && patterns.fetches == map[] && patterns.table == map[] && writeHandle.processes == map[]
      requires served.dataPrefixes == configured + found && served.listened == served.dataPrefixes
      modifies this
      ensures Valid() && events == [] && now == origin
      ensures origin == Startup(Parse(storage.renamePrefix), storage.Stored(), configured, found)
    {
      events := [];
      origin := Startup(Parse(storage.renamePrefix), storage.Stored(), configured, found);
      now := origin;
    }

    /** The objects have just taken one step of the run. */
    ghost method Take(e: RepoRuns.Event)
      requires OnRun() && RepoRuns.Enabled(now, e)
      requires Handles() && RepoRuns.Step(now, e) == Observed()
      modifies this`events, this`now
      ensures Valid() && now == RepoRuns.Step(old(now), e) && events == old(events) + [e]
    {
      assert (events + [e])[..|events|] == events;
      events, now := events + [e], RepoRuns.Step(now, e);
    }

    method InsertCommand(pid: nat, fetchName: Name)
      requires Valid()
      modifies this`events, this`now, writeHandle
      ensures Valid() && origin == old(origin) && events == old(events) + [RepoRuns.InsertCommand(pid)]
      ensures writeHandle.expressed == old(writeHandle.expressed) + [fetchName]
    {
      var reply := writeHandle.ProcessSingleInsertCommand(pid, fetchName);
      Take(RepoRuns.InsertCommand(pid));
    }

    method InsertData(pid: nat, data: Packet, ok: bool)
      requires Valid() && WellFormed(data.name)
      modifies this`events, this`now, writeHandle`processes, storage`keys, storage`values
      modifies served`dataPrefixes, served`listened
      ensures Valid() && origin == old(origin) && events == old(events) + [RepoRuns.InsertData(pid, data.name, ok)]
      ensures pid in old(now).inserts ==>
                StorageEngine.Stores(old(storage.values), storage.values, storage.renamePrefix, data, ok)
      ensures pid !in old(now).inserts ==> storage.values == old(storage.values)
    {
      writeHandle.OnDataValidated(pid, data, ok, storage, served);
      Take(RepoRuns.InsertData(pid, data.name, ok));
    }

    method InsertTimeout(pid: nat)
      requires Valid()
      modifies this`events, this`now, writeHandle`processes
      ensures Valid() && origin == old(origin) && events == old(events) + [RepoRuns.InsertTimeout(pid)]
    {
      writeHandle.OnTimeout(pid);
      Take(RepoRuns.InsertTimeout(pid));
    }

    /** A fetch request. `id` is the name the run gives to the pattern if one starts. */
    method PatternCommand(prefix: Name, known: bool, ghost id: nat) returns (code: nat)
      requires Valid() && id !in patterns.byId
      modifies this`events, this`now, patterns, patterns.handle, served`dataPrefixes, served`listened
      ensures Valid() && origin == old(origin) && events == old(events) + [RepoRuns.PatternCommand(prefix, known, id)]
      ensures code == if prefix in old(now).table then 402 else if known then 100 else 404
    {
      code := Answer(prefix, known, id);
      Take(RepoRuns.PatternCommand(prefix, known, id));
    }

    /** The fetch request, without the bookkeeping of the run. */
    method Answer(prefix: Name, known: bool, ghost id: nat) returns (code: nat)
      requires patterns.Valid() && served.slots > 0 && now == Observed() && id !in patterns.byId
      modifies patterns, patterns.handle, served`dataPrefixes, served`listened
      ensures patterns.Valid()
      ensures code == if prefix in now.table then 402 else if known then 100 else 404
      ensures RepoRuns.Enabled(now, RepoRuns.PatternCommand(prefix, known, id))
      ensures Observed() == RepoRuns.Step(now, RepoRuns.PatternCommand(prefix, known, id))
    {
      RepoRuns.CommandStep(now, prefix, known, id);
      code := patterns.OnInterest(prefix, known, id, storage, served);
    }

    method CancelCommand(prefix: Name) returns (code: nat)
      requires Valid()
      modifies this`events, this`now, patterns.handle`patterns, patterns.handle`commands, patterns.handle`table
      modifies patterns.handle.At(prefix), patterns`fetches, patterns`table
      ensures Valid() && origin == old(origin) && events == old(events) + [RepoRuns.CancelCommand(prefix)]
      ensures code == if prefix in old(now).table then 101 else 402
    {
      code := patterns.OnCancelRequest(prefix);
      Take(RepoRuns.CancelCommand(prefix));
    }

    method PatternTimer(ghost id: nat, pattern: CounterPattern)
      requires Valid() && patterns.Named(id, pattern) && pattern.timers > 0
      modifies this`events, this`now, pattern, patterns`fetches, patterns`table
      ensures Valid() && origin == old(origin) && events == old(events) + [RepoRuns.PatternTimer(id)]
    {
      patterns.DoFetch(id, pattern);
      Take(RepoRuns.PatternTimer(id));
    }

    /** Data answers an interest only if its name extends the interest's. */
    method PatternData(ghost id: nat, pattern: CounterPattern, interest: Name, data: Packet, ok: bool)
      requires Valid() && patterns.Named(id, pattern) && interest in pattern.outstanding
      requires WellFormed(data.name) && interest <= data.name
      modifies this`events, this`now, pattern, patterns`fetches, patterns`table, storage`keys, storage`values
      ensures Valid() && origin == old(origin) && events == old(events) + [RepoRuns.PatternData(id, data.name, ok)]
      ensures StorageEngine.Stores(old(storage.values), storage.values, storage.renamePrefix, data, ok)
    {
      Deliver(id, pattern, interest, data, ok);
      Take(RepoRuns.PatternData(id, data.name, ok));
    }

    /** The data callback, without the bookkeeping of the run. */
    method Deliver(ghost id: nat, pattern: CounterPattern, interest: Name, data: Packet, ok: bool)
      requires Handles() && now == Observed()
      requires patterns.Named(id, pattern) && interest in pattern.outstanding
      requires WellFormed(data.name) && interest <= data.name
      modifies pattern, patterns`fetches, patterns`table, storage`keys, storage`values
      ensures Handles()
      ensures StorageEngine.Stores(old(storage.values), storage.values, storage.renamePrefix, data, ok)
      ensures RepoRuns.Enabled(now, RepoRuns.PatternData(id, data.name, ok))
      ensures Observed() == RepoRuns.Step(now, RepoRuns.PatternData(id, data.name, ok))
    {
      patterns.OnData(id, pattern, interest, data, ok, storage);
      ghost var after := Observed();
      RepoRuns.DataStep(now, id, data.name, ok);
      assert after.stored == now.stored + if ok then {now.rename + data.name} else {};
    }

    method PatternLost(ghost id: nat, pattern: CounterPattern, interest: Name)
      requires Valid() && patterns.Named(id, pattern) && interest in pattern.outstanding
      modifies this`events, this`now, pattern, patterns`fetches, patterns`table
      ensures Valid() && origin == old(origin) && events == old(events) + [RepoRuns.PatternLost(id)]
    {
      patterns.InterestLost(id, pattern, interest);
      Take(RepoRuns.PatternLost(id));
    }

    /** End to end, for the objects: whatever their history since startup, every stored name lies under
        a prefix listened on, unless it was in the store before and the scan passed over it. */
    lemma StoredNamesAreListenedFor(names: set<Name>, configured: seq<Name>, found: seq<Name>, n: Name)
      requires Valid() && ListsChainEnds(names, found)
      requires origin == Startup(Parse(storage.renamePrefix), names, configured, found)
      requires n in storage.Stored()
      ensures served.listened == served.dataPrefixes
      ensures Serves(served.listened, n) || (n in names && (n == [] || PassedOver(names, n)))
    {
      RepoRuns.ListenedOnceEach(origin, events);
      RepoRuns.StoredNamesAreServed(Parse(storage.renamePrefix), names, configured, found, events, n);
    }
  }
}
