/** The prefixes a repository serves: the startup scan, and the slot that fires on every insertion. */
module FastRepo {
  import opened Names
  import opened KeyTrie
  import opened Storage

  /** Some registered prefix covers the name. */
  ghost predicate Serves(prefixes: seq<Name>, name: Name) {
    exists p :: p in prefixes && p <= name
  }

  /** The registered prefixes once the insertion of `name` was announced. */
  ghost function Register(prefixes: seq<Name>, name: Name): (r: seq<Name>)
    ensures prefixes <= r
  {
    if Serves(prefixes, name) then prefixes else prefixes + [name]
  }

  /** The same after a signal with `slots` connected slots. */
  ghost function Announced(slots: nat, prefixes: seq<Name>, name: Name): (r: seq<Name>)
  {
    if slots == 0 then prefixes else Register(prefixes, name)
  }

  /** An announced name is served, whatever was served still is, and announcing it again changes
      nothing: firing the slot once per command prefix is as good as firing it once. */
  lemma RegisterServes(prefixes: seq<Name>, name: Name, other: Name)
    ensures Serves(Register(prefixes, name), name)
    ensures Serves(prefixes, other) ==> Serves(Register(prefixes, name), other)
    ensures Register(Register(prefixes, name), name) == Register(prefixes, name)
  {
    var r := Register(prefixes, name);
    if !Serves(prefixes, name) {
      assert r[|prefixes|] == name;
      assert name in r;
    }
    if p :| p in prefixes && p <= other {
      assert p in r;
    }
  }

  /** No prefix from position `from` on extends one before it. */
  ghost predicate Irredundant(prefixes: seq<Name>, from: nat) {
    forall i, j :: 0 <= i < j < |prefixes| && from <= j ==> !(prefixes[i] <= prefixes[j])
  }

  lemma RegisterIrredundant(prefixes: seq<Name>, from: nat, name: Name)
    requires Irredundant(prefixes, from)
    ensures Irredundant(Register(prefixes, name), from)
  {
    if !Serves(prefixes, name) {
      assert forall i :: 0 <= i < |prefixes| ==> prefixes[i] in prefixes;
    }
  }

  class FastRepo {
    var dataPrefixes: seq<Name>
    var listened: seq<Name>   // every prefix the read handle was told to listen on, in order
    var slots: nat            // how often onDataInsertion is connected: once per command prefix

    /** The configuration may name data prefixes; nothing is listened on yet. */
    constructor (configured: seq<Name>)
      ensures dataPrefixes == configured && listened == [] && slots == 0
    {
      dataPrefixes, listened, slots := configured, [], 0;
    }

    method EnableListening(repoPrefixes: seq<Name>)
      modifies this`slots
      ensures slots == old(slots) + |repoPrefixes|
    {
      for i := 0 to |repoPrefixes|
        invariant slots == old(slots) + i
      {
        slots := slots + 1;
      }
    }

    method Listen(prefix: Name)
      modifies this`listened
      ensures listened == old(listened) + [prefix]
    {
      listened := listened + [prefix];
    }

    /** The startup scan: the longest prefixes of the store join the configured ones, and all of them
        are listened on. */
    method InitializeStorage(storage: StorageEngine) returns (ghost prefixes: seq<Name>)
      requires storage.Valid()
      modifies this, storage`nKeys, storage.trie, storage.trie.repr
      ensures storage.Valid() && fresh(storage.trie.repr - old(storage.trie.repr)) && slots == old(slots)
      ensures ListsChainEnds(old(storage.trie.names) + storage.Stored(), prefixes)
      ensures dataPrefixes == old(dataPrefixes) + prefixes
      ensures listened == old(listened) + dataPrefixes
    {
      var found := storage.ScanForLongestPrefixes();
      OnScanned(found);
      prefixes := found;
    }

    /** The scan's completion callback. */
    method OnScanned(prefixes: seq<Name>)
      modifies this`dataPrefixes, this`listened
      ensures dataPrefixes == old(dataPrefixes) + prefixes
      ensures listened == old(listened) + dataPrefixes
    {
      for i := 0 to |prefixes|
        invariant dataPrefixes == old(dataPrefixes) + prefixes[..i] && listened == old(listened)
      {
        dataPrefixes := dataPrefixes + [prefixes[i]];
      }
      for i := 0 to |dataPrefixes|
        invariant dataPrefixes == old(dataPrefixes) + prefixes
        invariant listened == old(listened) + dataPrefixes[..i]
      {
        Listen(dataPrefixes[i]);
      }
    }

    /** Starts serving a prefix unless some registered prefix already covers it. */
    method OnDataInsertion(prefix: Name)
      modifies this`dataPrefixes, this`listened
      ensures dataPrefixes == Register(old(dataPrefixes), prefix)
      ensures listened == old(listened) + dataPrefixes[|old(dataPrefixes)|..]
    {
      for i := 0 to |dataPrefixes|
        invariant dataPrefixes == old(dataPrefixes) && listened == old(listened)
        invariant forall j :: 0 <= j < i ==> !(dataPrefixes[j] <= prefix)
      {
        if dataPrefixes[i] <= prefix {
          assert dataPrefixes[i] in dataPrefixes;
          return;
        }
      }
      dataPrefixes := dataPrefixes + [prefix];
      Listen(prefix);
    }

    /** The signal of a write or pattern handle: every connected slot runs. */
    method DataInserted(prefix: Name)
      modifies this`dataPrefixes, this`listened
      ensures dataPrefixes == Announced(slots, old(dataPrefixes), prefix)
      ensures listened == old(listened) + dataPrefixes[|old(dataPrefixes)|..]
    {
      for i := 0 to slots
        invariant dataPrefixes == Announced(i, old(dataPrefixes), prefix)
        invariant listened == old(listened) + dataPrefixes[|old(dataPrefixes)|..]
      {
        RegisterServes(old(dataPrefixes), prefix, prefix);
        OnDataInsertion(prefix);
      }
    }
  }
}
