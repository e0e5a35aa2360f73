/** The persistent store: a database ordered by key bytes, single puts and gets, the prefix read over
    an ordered iterator, and the startup scan for the prefixes to register. */
module Storage {
  import opened Wrappers
  import opened Names
  import opened KeyOrder
  import opened KeyTrie

  datatype Signature = Signed(bits: seq<nat>) | Phony

  datatype Packet = Packet(name: Name, metaInfo: seq<nat>, content: seq<nat>, signature: Signature)

  /** UNSET stands for a limit that the interest does not carry. */
  datatype Interest = Interest(name: Name, canBePrefix: bool, minSuffixComponents: int, maxSuffixComponents: int)

  const UNSET := -1

  // ---- What a prefix read looks for ----

  /** The check on the number of components after the prefix: one limit that is met is enough. */
  predicate PassesLimits(interest: Interest, nSuffixComponents: int) {
    || (interest.maxSuffixComponents == UNSET && interest.minSuffixComponents == UNSET)
    || (interest.maxSuffixComponents != UNSET && nSuffixComponents <= interest.maxSuffixComponents)
    || (interest.minSuffixComponents != UNSET && nSuffixComponents >= interest.minSuffixComponents)
  }

  /** A key is a match if it starts with the URI of the prefix, as a string, and passes the check. */
  predicate Matches(interest: Interest, key: string) {
    Uri(interest.name) <= key && PassesLimits(interest, |Parse(key)| - |interest.name|)
  }

  /** The bytewise greatest match among all keys. */
  ghost predicate GreatestMatch(keys: set<string>, interest: Interest, key: string) {
    key in keys && Matches(interest, key) && forall k :: k in keys && Matches(interest, k) ==> AtMost(k, key)
  }

  /** In terms of characters: no match has the greater one where it first differs from the key. */
  ghost predicate NoneAfter(keys: set<string>, interest: Interest, key: string) {
    forall k :: k in keys && Matches(interest, k) ==> InByteOrder(k, key)
  }

  lemma GreatestInBytes(keys: set<string>, interest: Interest, key: string)
    requires GreatestMatch(keys, interest, key)
    ensures NoneAfter(keys, interest, key)
  {
    forall k | k in keys && Matches(interest, k)
      ensures InByteOrder(k, key)
    {
      AtMostIsByteOrder(k, key);
    }
  }

  ghost predicate NoMatch(keys: set<string>, interest: Interest) {
    forall k :: k in keys ==> !Matches(interest, k)
  }

  function KeysOf(names: set<Name>): (keys: set<string>)
  {
    set n | n in names :: Uri(n)
  }

  /** The names an interest's prefix read can return are those it extends into, and the stragglers; the
      suffix count it checks is the number of components the name has beyond the prefix. */
  lemma MatchMeaning(interest: Interest, o: Name)
    requires WellFormed(interest.name) && WellFormed(o)
    ensures Matches(interest, Uri(o))
            <==> (interest.name <= o || Straggler(interest.name, o)) && PassesLimits(interest, |o| - |interest.name|)
    ensures Matches(interest, Uri(o)) ==> |o| >= |interest.name|
  {
    StringPrefix(interest.name, o);
    ParseUri(o);
  }

  /** When no stored name is a straggler, a read without limits finds something exactly when a stored
      name extends the prefix, and what it finds does extend it. */
  lemma PrefixReadByComponents(names: set<Name>, interest: Interest, answer: Name)
    requires WellFormed(interest.name) && forall o :: o in names ==> WellFormed(o)
    requires interest.maxSuffixComponents == UNSET && interest.minSuffixComponents == UNSET
    requires forall o :: o in names ==> !Straggler(interest.name, o)
    ensures NoMatch(KeysOf(names), interest) <==> forall o :: o in names ==> !(interest.name <= o)
    ensures answer in names && GreatestMatch(KeysOf(names), interest, Uri(answer)) ==> interest.name <= answer
  {
    forall o | o in names
      ensures Matches(interest, Uri(o)) <==> interest.name <= o
    {
      MatchMeaning(interest, o);
    }
    if interest.name <= answer && answer in names {
      assert Uri(answer) in KeysOf(names);
    }
    forall o | o in names && NoMatch(KeysOf(names), interest)
      ensures !(interest.name <= o)
    {
      assert Uri(o) in KeysOf(names);
    }
  }

  /** What a client may conclude from a read without limits when nothing stored is a straggler. */
  ghost predicate FoundByComponents(names: set<Name>, interest: Interest, data: Option<Packet>) {
    interest.maxSuffixComponents == UNSET && interest.minSuffixComponents == UNSET
    && (forall o :: o in names ==> !Straggler(interest.name, o))
    ==> && (data.Some? <==> exists o :: o in names && interest.name <= o)
        && (data.Some? ==> data.value.name in names && interest.name <= data.value.name)
  }

  lemma ComponentsDecide(names: set<Name>, interest: Interest, data: Option<Packet>)
    requires WellFormed(interest.name) && forall o :: o in names ==> WellFormed(o)
    requires data.None? <==> NoMatch(KeysOf(names), interest)
    requires data.Some? ==> WellFormed(data.value.name) && GreatestMatch(KeysOf(names), interest, Uri(data.value.name))
    ensures FoundByComponents(names, interest, data)
    ensures ExtendsWhenOneWins(names, interest, data)
  {
    if data.Some? {
      var n :| n in names && Uri(n) == Uri(data.value.name);
      UriInjective(n, data.value.name);
      AnswerExtendsExactly(names, interest, n);
    }
    if && interest.maxSuffixComponents == UNSET && interest.minSuffixComponents == UNSET
       && forall o :: o in names ==> !Straggler(interest.name, o) {
      if data.Some? {
        var n :| n in names && Uri(n) == Uri(data.value.name);
        UriInjective(n, data.value.name);
        PrefixReadByComponents(names, interest, data.value.name);
      } else {
        PrefixReadByComponents(names, interest, []);
      }
    }
  }

  /** In general the packet found extends the prefix exactly when it is not a straggler. */
  lemma AnswerExtendsUnlessStraggler(interest: Interest, answer: Name)
    requires WellFormed(interest.name) && WellFormed(answer) && Matches(interest, Uri(answer))
    ensures interest.name <= answer <==> !Straggler(interest.name, answer)
  {
    MatchMeaning(interest, answer);
    var n := interest.name;
    if n != [] && n <= answer {
      assert answer[|n| - 1] == n[|n| - 1];
    }
  }

  /** Some stored extension of the prefix matches, and no straggler that matches sorts after it. */
  ghost predicate ExtensionWins(names: set<Name>, interest: Interest) {
    exists e :: e in names && interest.name <= e && Beats(names, interest, e)
  }

  ghost predicate Beats(names: set<Name>, interest: Interest, e: Name) {
    && Matches(interest, Uri(e))
    && forall o :: o in names && Straggler(interest.name, o) && Matches(interest, Uri(o)) ==> AtMost(Uri(o), Uri(e))
  }

  /** Hence what the store must hold for the answer to extend the prefix: a straggler does no harm if it
      sorts before a match that does. */
  lemma AnswerExtendsExactly(names: set<Name>, interest: Interest, answer: Name)
    requires WellFormed(interest.name) && forall o :: o in names ==> WellFormed(o)
    requires answer in names && GreatestMatch(KeysOf(names), interest, Uri(answer))
    ensures interest.name <= answer <==> ExtensionWins(names, interest)
  {
    forall o | o in names && Matches(interest, Uri(o))
      ensures AtMost(Uri(o), Uri(answer))
    {
      assert Uri(o) in KeysOf(names);
    }
    AnswerExtendsUnlessStraggler(interest, answer);
    if interest.name <= answer {
      assert Beats(names, interest, answer);
    } else if e :| e in names && interest.name <= e && Beats(names, interest, e) {
      AtMostAntisymmetric(Uri(e), Uri(answer));
      UriInjective(e, answer);
    }
  }

  /** A read that finds something finds an extension of the prefix exactly when one wins. */
  ghost predicate ExtendsWhenOneWins(names: set<Name>, interest: Interest, data: Option<Packet>) {
    data.Some? ==> (interest.name <= data.value.name <==> ExtensionWins(names, interest))
  }

  /** With /a/b/1 and /a/bc stored, an interest for /a/b gets /a/bc. */
  lemma StragglerWins()
    ensures var interest := Interest(["a", "b"], true, UNSET, UNSET);
            && GreatestMatch(KeysOf({["a", "b", "1"], ["a", "bc"]}), interest, Uri(["a", "bc"]))
            && !(interest.name <= ["a", "bc"])
  {
    var interest := Interest(["a", "b"], true, UNSET, UNSET);
    var names: set<Name> := {["a", "b", "1"], ["a", "bc"]};
    UriOfTwo("a", "bc");
    UriOfThree("a", "b", "1");
    assert Straggler(["a", "b"], ["a", "bc"]);
    MatchMeaning(interest, ["a", "bc"]);
    assert Uri(["a", "bc"]) in KeysOf(names);
    SlashSortsFirst();
  }

  lemma SlashSortsFirst()
    ensures AtMost("/" + ("a" + ("/" + ("b" + ("/" + "1")))), "/" + ("a" + ("/" + "bc")))
    ensures AtMost("/" + ("a" + ("/" + "bc")), "/" + ("a" + ("/" + "bc")))
  {
    AtMostReflexive("/" + ("a" + ("/" + "bc")));
    assert "/" + ("a" + ("/" + ("b" + ("/" + "1")))) == "/a/b/1" && "/" + ("a" + ("/" + "bc")) == "/a/bc";
    assert AtMost("/b/1", "/bc") by { assert AtMost("b/1", "bc") by { assert AtMost("/1", "c"); } }
    assert AtMost("a/b/1", "a/bc");
  }

  /** What the two limits say when both are meant. */
  predicate WithinLimits(interest: Interest, nSuffixComponents: int) {
    && (interest.maxSuffixComponents == UNSET || nSuffixComponents <= interest.maxSuffixComponents)
    && (interest.minSuffixComponents == UNSET || nSuffixComponents >= interest.minSuffixComponents)
  }

  /** The check enforces the limits exactly when the interest does not carry both. */
  lemma LimitsEnforcedUnlessBoth(interest: Interest)
    ensures (forall n: nat :: PassesLimits(interest, n) <==> WithinLimits(interest, n))
            <==> interest.maxSuffixComponents == UNSET || interest.minSuffixComponents == UNSET
  {
    if interest.maxSuffixComponents != UNSET && interest.minSuffixComponents != UNSET {
      var above := if interest.maxSuffixComponents < 0 then 0 else interest.maxSuffixComponents + 1;
      var n: nat := if interest.minSuffixComponents > above then interest.minSuffixComponents else above;
      assert PassesLimits(interest, n) && !WithinLimits(interest, n);
    }
  }

  /** With both limits set, the check accepts every key unless there is a gap between them. */
  lemma BothLimitsAcceptAll(interest: Interest)
    requires interest.maxSuffixComponents != UNSET && interest.minSuffixComponents != UNSET
    ensures (forall n: nat :: PassesLimits(interest, n))
            <==> interest.minSuffixComponents <= interest.maxSuffixComponents + 1 || interest.minSuffixComponents <= 0
  {
    if interest.minSuffixComponents > interest.maxSuffixComponents + 1 && interest.minSuffixComponents > 0 {
      var n: nat := interest.minSuffixComponents - 1;
      assert !PassesLimits(interest, n);
    }
  }

  /** With both limits at one component, an interest for /a still gets /a/b/c. */
  lemma BothLimitsMissed()
    ensures var interest := Interest(["a"], true, 1, 1);
            && GreatestMatch(KeysOf({["a", "b", "c"]}), interest, Uri(["a", "b", "c"]))
            && !WithinLimits(interest, |["a", "b", "c"]| - |interest.name|)
  {
    var n: Name := ["a", "b", "c"];
    MatchMeaning(Interest(["a"], true, 1, 1), n);
    AtMostReflexive(Uri(n));
    assert Uri(n) in KeysOf({n});
  }

  // ---- The scanned block ----

  /** Outside the stretch that the iterator scans no key starts with the prefix. */
  lemma BlockIsScanned(keys: seq<string>, uri: string, i: nat, j: nat)
    requires Sorted(keys) && LowerBound(keys, uri) <= i <= |keys| && j < |keys|
    requires i < |keys| ==> !(uri <= keys[i])
    requires uri <= keys[j]
    ensures LowerBound(keys, uri) <= j < i
  {
    var lo := LowerBound(keys, uri);
    PrefixAtMost(uri, keys[j]);
    if j >= i {
      if lo < i {
        AtMostTransitive(uri, keys[lo], keys[i]);
      }
      if i < j {
        BlockIsContiguous(uri, keys[i], keys[j]);
      }
    }
  }

  /** key is the last match at a position in [from, to), or empty if there is none. */
  ghost predicate LastMatch(keys: seq<string>, interest: Interest, from: nat, to: nat, key: string)
    requires from <= to <= |keys|
  {
    if key == "" then forall j :: from <= j < to ==> !Matches(interest, keys[j])
    else exists m :: from <= m < to && keys[m] == key && Matches(interest, key)
                     && forall j :: m < j < to ==> !Matches(interest, keys[j])
  }

  lemma LastMatchGrows(keys: seq<string>, interest: Interest, from: nat, it: nat, key: string)
    requires from <= it < |keys| && LastMatch(keys, interest, from, it, key) && Uri(interest.name) <= keys[it]
    ensures keys[it] != ""
    ensures LastMatch(keys, interest, from, it + 1, if Matches(interest, keys[it]) then keys[it] else key)
  {
    JoinedStartsWithSlash(interest.name);
  }

  /** The iterator has scanned the block of an interest and stands behind it. */
  ghost predicate Scanned(keys: seq<string>, interest: Interest, it: nat) {
    && Sorted(keys) && LowerBound(keys, Uri(interest.name)) <= it <= |keys|
    && (it < |keys| ==> !(Uri(interest.name) <= keys[it]))
  }

  lemma NothingInBlock(keys: seq<string>, interest: Interest, it: nat)
    requires Scanned(keys, interest, it) && LastMatch(keys, interest, LowerBound(keys, Uri(interest.name)), it, "")
    ensures forall k :: k in keys ==> !Matches(interest, k)
  {
    forall j: nat | j < |keys| && Matches(interest, keys[j])
      ensures false
    {
      BlockIsScanned(keys, Uri(interest.name), it, j);
    }
  }

  lemma LastMatchIsGreatest(keys: seq<string>, interest: Interest, it: nat, key: string)
    requires Scanned(keys, interest, it) && key != ""
    requires LastMatch(keys, interest, LowerBound(keys, Uri(interest.name)), it, key)
    ensures key in keys && Matches(interest, key)
    ensures forall k :: k in keys && Matches(interest, k) ==> AtMost(k, key)
  {
    var m :| LowerBound(keys, Uri(interest.name)) <= m < it && keys[m] == key
             && forall j :: m < j < it ==> !Matches(interest, keys[j]);
    forall j: nat | j < |keys| && Matches(interest, keys[j])
      ensures AtMost(keys[j], key)
    {
      BlockIsScanned(keys, Uri(interest.name), it, j);
      if j == m {
        AtMostReflexive(key);
      } else {
        assert j < m && Before(keys[j], keys[m]);
      }
    }
  }

  class StorageEngine {
    var keys: seq<string>          // the order in which an iterator yields the keys
    var values: map<string, Packet>
    var renamePrefix: string
    const trie: NameTrie
    var nKeys: nat

    ghost predicate Valid()
      reads this, trie, trie.repr
    {
      Consistent() && trie.Valid()
    }

    /** The database part: sorted keys, and every packet filed under its name. */
    ghost predicate Consistent()
      reads this`keys, this`values
    {
      InOrder(keys, values)
    }

    static ghost predicate InOrder(keys: seq<string>, values: map<string, Packet>) {
      && Sorted(keys)
      && (forall k :: k in keys <==> k in values)
      && (forall k :: k in values ==> Filed(k, values[k]))
    }

    /** A packet is filed under the URI of its name. */
    static ghost predicate Filed(key: string, packet: Packet) {
      WellFormed(packet.name) && key == Uri(packet.name)
    }

    /** The names in the store. */
    ghost function Stored(): set<Name>
      reads this`values
    {
      NamesOf(values)
    }

    static ghost function NamesOf(values: map<string, Packet>): set<Name> {
      set k | k in values :: values[k].name
    }

    constructor (renamePrefix: string)
      ensures Valid() && values == map[] && this.renamePrefix == renamePrefix
      ensures fresh(trie) && fresh(trie.repr) && trie.names == {}
    {
      keys, values, nKeys := [], map[], 0;
      this.renamePrefix := renamePrefix;
      trie := new NameTrie();
    }

    /** The packet is filed under its name, renamed and signed anew if a rename prefix is set, and no other
        key changes; a write that fails changes nothing. */
    static predicate Stores(before: map<string, Packet>, after: map<string, Packet>, renamePrefix: string,
                            data: Packet, ok: bool) {
      var name := Parse(renamePrefix) + data.name;
      after == if !ok then before
               else if renamePrefix == "" then before[Uri(data.name) := data]
               else before[Uri(name) := Packet(name, data.metaInfo, data.content, Phony)]
    }

    /** Stores a packet, renamed if a rename prefix is set, and returns the name it went under. `ok` is
        the database's verdict; a write that fails returns the empty name. */
    method Put(data: Packet, ok: bool) returns (name: Name)
      requires Consistent() && WellFormed(data.name)
      modifies this`keys, this`values
      ensures Consistent()
      ensures !ok ==> name == [] && values == old(values)
      ensures ok ==> name == Parse(renamePrefix) + data.name && WellFormed(name)
      ensures ok && renamePrefix == "" ==> values == old(values)[Uri(name) := data]
      ensures ok && renamePrefix != "" ==>
                values == old(values)[Uri(name) := Packet(name, data.metaInfo, data.content, Phony)]
      ensures ok ==> Stored() == old(Stored()) + {name}
      ensures Stores(old(values), values, renamePrefix, data, ok)
    {
      ParseWellFormed(renamePrefix);
      if renamePrefix != "" {
        var d := Packet(Parse(renamePrefix) + data.name, data.metaInfo, data.content, Phony);
        if ok {
          Write(Uri(d.name), d);
          return d.name;
        }
      } else {
        assert Parse("") == [];
        if ok {
          Write(Uri(data.name), data);
          return data.name;
        }
      }
      return [];
    }

    /** The database's Put. */
    method Write(key: string, packet: Packet)
      requires Consistent() && Filed(key, packet)
      modifies this`keys, this`values
      ensures Consistent() && values == old(values)[key := packet]
      ensures Stored() == old(Stored()) + {packet.name}
    {
      WithKeySorted(keys, key);
      keys := WithKey(keys, key);
      values := values[key := packet];
      StoredAfter(old(values), key, packet);
    }

    static lemma StoredAfter(values: map<string, Packet>, key: string, packet: Packet)
      requires forall k :: k in values ==> Filed(k, values[k])
      requires Filed(key, packet)
      ensures NamesOf(values[key := packet]) == NamesOf(values) + {packet.name}
    {
      var more := values[key := packet];
      var before, after := NamesOf(values), NamesOf(more);
      forall n
        ensures n in after <==> n in before || n == packet.name
      {
        if n in before {
          var k :| k in values && values[k].name == n;
          assert k in more && more[k].name == n by {
            if k == key { UriInjective(n, packet.name); }
          }
        }
        if n == packet.name {
          assert key in more && more[key].name == n;
        }
      }
    }

    /** Exact retrieval. */
    method Get(dataName: Name) returns (data: Option<Packet>)
      requires Consistent() && WellFormed(dataName)
      ensures data.Some? <==> dataName in Stored()
      ensures data.Some? ==> data.value.name == dataName
      ensures data.Some? ==> Uri(dataName) in values && data.value == values[Uri(dataName)]
    {
      StoredUnder(dataName);
      if Uri(dataName) in values {
        return Some(values[Uri(dataName)]);
      }
      return None;
    }

    lemma StoredUnder(n: Name)
      requires Consistent() && WellFormed(n)
      ensures n in Stored() <==> Uri(n) in values
      ensures Uri(n) in values ==> values[Uri(n)].name == n
    {
      if Uri(n) in values {
        assert Filed(Uri(n), values[Uri(n)]);
        UriInjective(n, values[Uri(n)].name);
      }
      if n in Stored() {
        var k :| k in values && values[k].name == n;
        assert Filed(k, values[k]);
      }
    }

    /** Answers an interest: with CanBePrefix, the bytewise greatest match of the whole store, found by
        scanning one stretch of keys; otherwise the packet of that very name. */
    method Read(interest: Interest) returns (data: Option<Packet>)
      requires Consistent() && WellFormed(interest.name)
      ensures !interest.canBePrefix ==> (data.Some? <==> interest.name in Stored())
      ensures !interest.canBePrefix && data.Some? ==> data.value == values[Uri(interest.name)]
      ensures interest.canBePrefix ==> (data.None? <==> NoMatch(values.Keys, interest))
      ensures interest.canBePrefix && data.Some? ==>
                && GreatestMatch(values.Keys, interest, Uri(data.value.name))
                && NoneAfter(values.Keys, interest, Uri(data.value.name))
                && data.value == values[Uri(data.value.name)]
      ensures interest.canBePrefix ==> FoundByComponents(Stored(), interest, data)
      ensures interest.canBePrefix ==> ExtendsWhenOneWins(Stored(), interest, data)
    {
      KeysAreUris();
      if interest.canBePrefix {
        var key := Scan(interest);
        if key != "" {
          GreatestInBytes(values.Keys, interest, key);
          assert Filed(key, values[key]);
          ParseUri(values[key].name);
          data := Get(Parse(key));
        } else {
          data := None;
        }
        ComponentsDecide(Stored(), interest, data);
      } else {
        StoredUnder(interest.name);
        data := Get(interest.name);
      }
    }

    lemma KeysAreUris()
      requires Consistent()
      ensures values.Keys == KeysOf(Stored())
      ensures forall n :: n in Stored() ==> WellFormed(n)
    {
      forall k
        ensures k in values <==> k in KeysOf(Stored())
      {
        if k in values {
          assert Filed(k, values[k]) && values[k].name in Stored();
        }
        if k in KeysOf(Stored()) {
          var n :| n in Stored() && Uri(n) == k;
          var j :| j in values && values[j].name == n;
          assert Filed(j, values[j]);
        }
      }
      forall n | n in Stored()
        ensures WellFormed(n)
      {
        var k :| k in values && values[k].name == n;
        assert Filed(k, values[k]);
      }
    }

    /** The check on the suffix components of one key. */
    static method PassCheck(interest: Interest, key: string) returns (passCheck: bool)
      requires interest.maxSuffixComponents != UNSET || interest.minSuffixComponents != UNSET
      ensures passCheck <==> PassesLimits(interest, |Parse(key)| - |interest.name|)
    {
      var keyName := Parse(key);
      var nSuffixComponents := |keyName| - |interest.name|;
      passCheck := false;
      if interest.maxSuffixComponents != UNSET && nSuffixComponents <= interest.maxSuffixComponents {
        passCheck := true;
      }
      if interest.minSuffixComponents != UNSET && nSuffixComponents >= interest.minSuffixComponents {
        passCheck := true;
      }
    }

    /** The iterator loop of a prefix read: every key that passes overwrites the one before. */
    method Scan(interest: Interest) returns (key: string)
      requires Consistent()
      ensures key == "" <==> NoMatch(values.Keys, interest)
      ensures key != "" ==> GreatestMatch(values.Keys, interest, key)
    {
      var prefix := interest.name;
      var uri := Uri(prefix);
      key := "";
      var checkMaxSuffixComponents := interest.maxSuffixComponents != UNSET;
      var checkMinSuffixComponents := interest.minSuffixComponents != UNSET;
      var it := LowerBound(keys, uri);
      ghost var first := it;
      while it < |keys| && uri <= keys[it]
        invariant first <= it <= |keys|
        invariant LastMatch(keys, interest, first, it, key)
      {
        LastMatchGrows(keys, interest, first, it, key);
        if checkMaxSuffixComponents || checkMinSuffixComponents {
          var passCheck := PassCheck(interest, keys[it]);
          if passCheck {
            key := keys[it];
          }
        } else {
          key := keys[it];
        }
        it := it + 1;
      }
      if key == "" {
        NothingInBlock(keys, interest, it);
      } else {
        LastMatchIsGreatest(keys, interest, it, key);
      }
    }

    /** Every stored name enters the trie, and the keys are counted. */
    method BuildKeyTrie()
      requires Valid()
      modifies this`nKeys, trie, trie.repr
      ensures Valid() && fresh(trie.repr - old(trie.repr))
      ensures trie.names == old(trie.names) + Stored()
      ensures nKeys == |keys|
    {
      InsertKeys();
      ParsedIsStored();
    }

    /** The loop of BuildKeyTrie: inserts the keys in iterator order. */
    method InsertKeys()
      requires trie.Valid()
      modifies this`nKeys, trie, trie.repr
      ensures trie.Valid() && fresh(trie.repr - old(trie.repr))
      ensures trie.names == old(trie.names) + ParsedUpTo(keys, |keys|)
      ensures nKeys == |keys|
    {
      nKeys := 0;
      var it := 0;
      while it < |keys|
        invariant 0 <= it <= |keys| && nKeys == it
        invariant trie.Valid()
        invariant old(trie.repr) <= trie.repr && fresh(trie.repr - old(trie.repr))
        invariant trie.names == old(trie.names) + ParsedUpTo(keys, it)
      {
        InsertKey(it);
        it := it + 1;
        assert ParsedUpTo(keys, it) == ParsedUpTo(keys, it - 1) + {Parse(keys[it - 1])};
      }
    }

    method InsertKey(it: nat)
      requires trie.Valid() && it < |keys|
      modifies this`nKeys, trie, trie.repr
      ensures trie.Valid() && old(trie.repr) <= trie.repr && fresh(trie.repr - old(trie.repr))
      ensures trie.names == old(trie.names) + {Parse(keys[it])}
      ensures nKeys == old(nKeys) + 1
    {
      trie.Insert(keys[it]);
      nKeys := nKeys + 1;
    }

    static ghost function ParsedUpTo(keys: seq<string>, i: nat): set<Name>
      requires i <= |keys|
    {
      if i == 0 then {} else ParsedUpTo(keys, i - 1) + {Parse(keys[i - 1])}
    }

    static lemma {:induction false} ParsedMember(keys: seq<string>, i: nat, n: Name)
      requires i <= |keys|
      ensures n in ParsedUpTo(keys, i) <==> exists j :: 0 <= j < i && Parse(keys[j]) == n
    {
      if i > 0 {
        ParsedMember(keys, i - 1, n);
      }
    }

    lemma ParsedIsStored()
      requires Consistent()
      ensures ParsedUpTo(keys, |keys|) == Stored()
    {
      forall n
        ensures n in ParsedUpTo(keys, |keys|) <==> n in Stored()
      {
        ParsedMember(keys, |keys|, n);
        if j :| 0 <= j < |keys| && Parse(keys[j]) == n {
          assert keys[j] in values && Filed(keys[j], values[keys[j]]);
          ParseUri(values[keys[j]].name);
        }
        if n in Stored() {
          var k :| k in values && values[k].name == n;
          assert Filed(k, values[k]);
          ParseUri(n);
          var j :| 0 <= j < |keys| && keys[j] == k;
        }
      }
    }

    /** The prefixes to register at startup: one chain end per first component of the stored names. */
    method ScanForLongestPrefixes() returns (prefixes: seq<Name>)
      requires Valid()
      modifies this`nKeys, trie, trie.repr
      ensures Valid() && fresh(trie.repr - old(trie.repr))
      ensures trie.names == old(trie.names) + Stored() && nKeys == |keys|
      ensures ListsChainEnds(old(trie.names) + Stored(), prefixes)
    {
      BuildKeyTrie();
      prefixes := trie.GetLongestPrefixes();
    }
  }
}
