/** The prefixes a repository registers at startup, seen on the set of root-to-node paths of its name
    trie: one unbranched chain per first component, followed to its end. */
module LongestPrefixes {
  import opened Names

  /** The root-to-node paths after inserting the names K: the prefixes of the names. */
  function PathsOf(names: set<Name>): (paths: set<Name>)
  {
    {[]} + set k, i | k in names && 0 <= i <= |k| :: k[..i]
  }

  lemma PathsOfMember(names: set<Name>, q: Name)
    ensures q in PathsOf(names) <==> q == [] || exists k :: k in names && q <= k
  {
    if k :| k in names && q <= k {
      assert q == k[..|q|];
    }
  }

  /** The components that continue q. */
  function Children(paths: set<Name>, q: Name): (cs: set<string>)
  {
    set p | p in paths && |p| == |q| + 1 && q <= p :: p[|q|]
  }

  lemma ChildrenMember(paths: set<Name>, q: Name, c: string)
    ensures c in Children(paths, q) <==> q + [c] in paths
  {
    if c in Children(paths, q) {
      var p :| p in paths && |p| == |q| + 1 && q <= p && p[|q|] == c;
      assert p == q + [c];
    }
    if q + [c] in paths {
      assert (q + [c])[|q|] == c;
    }
  }

  /** p is where the walk from p[0] stops: every earlier node has one child, p has none or several. */
  predicate ChainEnd(paths: set<Name>, p: Name) {
    && p in paths && p != []
    && |Children(paths, p)| != 1
    && forall i :: 1 <= i < |p| ==> |Children(paths, p[..i])| == 1
  }

  lemma OnlyElement<T>(s: set<T>, a: T, b: T)
    requires |s| == 1 && a in s && b in s
    ensures a == b
  {
    assert |s - {a}| == 0;
    assert b !in s - {a};
  }

  predicate Comparable(a: Name, b: Name) {
    a <= b || b <= a
  }

  /** Names with the first component of a chain lie along the chain up to its end. */
  lemma {:induction false} FollowsChain(names: set<Name>, p: Name, k: Name, i: nat)
    requires ChainEnd(PathsOf(names), p) && k in PathsOf(names)
    requires k != [] && k[0] == p[0] && 1 <= i <= |p| && i <= |k|
    ensures k[..i] == p[..i]
  {
    var paths := PathsOf(names);
    if i > 1 {
      FollowsChain(names, p, k, i - 1);
      var q := p[..i - 1];
      assert k[..i] == q + [k[i - 1]] && p[..i] == q + [p[i - 1]];
      assert p[..i] in paths && k[..i] in paths by {
        PrefixInPaths(names, p, i);
        PrefixInPaths(names, k, i);
      }
      ChildrenMember(paths, q, k[i - 1]);
      ChildrenMember(paths, q, p[i - 1]);
      OnlyElement(Children(paths, q), k[i - 1], p[i - 1]);
    }
  }

  lemma PrefixInPaths(names: set<Name>, p: Name, i: nat)
    requires p in PathsOf(names) && i <= |p|
    ensures p[..i] in PathsOf(names)
  {
    PathsOfMember(names, p);
    PathsOfMember(names, p[..i]);
    if p != [] {
      var k :| k in names && p <= k;
      assert p[..i] <= k;
    }
  }

  lemma SameFirstIsComparable(names: set<Name>, p: Name, k: Name)
    requires ChainEnd(PathsOf(names), p) && k in PathsOf(names) && k != [] && k[0] == p[0]
    ensures Comparable(p, k)
  {
    var i := if |p| <= |k| then |p| else |k|;
    FollowsChain(names, p, k, i);
    assert p[..|p|] == p && k[..|k|] == k;
  }

  /** There is one chain end for each first component. */
  lemma ChainEndUnique(names: set<Name>, p: Name, q: Name)
    requires ChainEnd(PathsOf(names), p) && ChainEnd(PathsOf(names), q) && p[0] == q[0]
    ensures p == q
  {
    SameFirstIsComparable(names, p, q);
    var i := if |p| <= |q| then |p| else |q|;
    assert p[..i] == q[..i];
    assert p[..|p|] == p && q[..|q|] == q;
  }

  function AtLeast(paths: set<Name>, n: nat): (longer: set<Name>)
  {
    set r | r in paths && |r| >= n
  }

  /** The walk from q stops somewhere. */
  lemma {:induction false} ChainEndExists(names: set<Name>, q: Name) returns (p: Name)
    requires q in PathsOf(names) && q != []
    requires forall i :: 1 <= i < |q| ==> |Children(PathsOf(names), q[..i])| == 1
    ensures ChainEnd(PathsOf(names), p) && q <= p
    decreases AtLeast(PathsOf(names), |q|)
  {
    var paths := PathsOf(names);
    if |Children(paths, q)| != 1 {
      return q;
    }
    var c :| c in Children(paths, q);
    ChildrenMember(paths, q, c);
    var next := q + [c];
    forall i | 1 <= i < |next|
      ensures |Children(paths, next[..i])| == 1
    {
      assert next[..i] == if i == |q| then q else q[..i];
    }
    assert q in AtLeast(paths, |q|) && q !in AtLeast(paths, |next|);
    assert AtLeast(paths, |next|) < AtLeast(paths, |q|);
    p := ChainEndExists(names, next);
  }

  /** The chain ends are one for each first component of the names, and no others. */
  lemma OneChainEndPerFirst(names: set<Name>, c: string)
    ensures (exists k :: k in names && k != [] && k[0] == c) <==> exists p :: ChainEnd(PathsOf(names), p) && p[0] == c
    ensures forall p, q :: ChainEnd(PathsOf(names), p) && ChainEnd(PathsOf(names), q) && p[0] == q[0] ==> p == q
  {
    forall p, q | ChainEnd(PathsOf(names), p) && ChainEnd(PathsOf(names), q) && p[0] == q[0]
      ensures p == q
    {
      ChainEndUnique(names, p, q);
    }
    if k :| k in names && k != [] && k[0] == c {
      assert [c] <= k;
      PathsOfMember(names, [c]);
      var p := ChainEndExists(names, [c]);
      assert p[0] == c;
    }
    if p :| ChainEnd(PathsOf(names), p) && p[0] == c {
      PathsOfMember(names, p);
    }
  }

  // ---- What the longest prefixes cover ----

  /** Two names diverge right below p. */
  ghost predicate Branches(names: set<Name>, p: Name) {
    exists a, b :: a in names && b in names && p < a && p < b && a[|p|] != b[|p|]
  }

  /** A returned prefix is comparable with every name that shares its first component, and cannot be
      extended: it is itself a stored name with nothing below it, or two stored names diverge below it. */
  lemma ChainEndIsMaximalCommonPrefix(names: set<Name>, p: Name)
    requires ChainEnd(PathsOf(names), p)
    ensures forall k :: k in names && k != [] && k[0] == p[0] ==> Comparable(p, k)
    ensures (p in names && forall k :: k in names ==> !(p < k)) || Branches(names, p)
  {
    var paths := PathsOf(names);
    forall k | k in names && k != [] && k[0] == p[0]
      ensures Comparable(p, k)
    {
      PathsOfMember(names, k);
      SameFirstIsComparable(names, p, k);
    }
    if |Children(paths, p)| == 0 {
      forall k | k in names && p < k
        ensures false
      {
        NameBelow(names, p, k);
      }
      PathsOfMember(names, p);
      var k :| k in names && p <= k;
      assert k == p;
    } else {
      var c :| c in Children(paths, p);
      assert Children(paths, p) != {c};
      var d :| d in Children(paths, p) && d != c;
      var a := NameThrough(names, p, c);
      var b := NameThrough(names, p, d);
    }
  }

  lemma NameBelow(names: set<Name>, p: Name, k: Name)
    requires k in names && p < k
    ensures k[|p|] in Children(PathsOf(names), p)
  {
    assert k[..|p| + 1] == p + [k[|p|]];
    PathsOfMember(names, p + [k[|p|]]);
    ChildrenMember(PathsOf(names), p, k[|p|]);
  }

  lemma NameThrough(names: set<Name>, p: Name, c: string) returns (k: Name)
    requires c in Children(PathsOf(names), p)
    ensures k in names && p < k && k[|p|] == c
  {
    ChildrenMember(PathsOf(names), p, c);
    PathsOfMember(names, p + [c]);
    k :| k in names && p + [c] <= k;
    assert k[..|p| + 1] == p + [c];
    assert k[..|p|] == p;
  }

  /** The returned prefixes form an antichain. */
  lemma LongestPrefixesAntichain(names: set<Name>, p: Name, q: Name)
    requires ChainEnd(PathsOf(names), p) && ChainEnd(PathsOf(names), q) && p <= q
    ensures p == q
  {
    assert p[0] == q[0];
    ChainEndUnique(names, p, q);
  }

  ghost predicate Covered(names: set<Name>, k: Name) {
    exists p :: ChainEnd(PathsOf(names), p) && p <= k
  }

  /** The walk runs past k: everything stored under k's first component goes through one and the same
      child of k, or stops on the way to it. */
  ghost predicate PassedOver(names: set<Name>, k: Name) {
    exists c :: PassedInto(names, k, c)
  }

  ghost predicate PassedInto(names: set<Name>, k: Name, c: string) {
    && (exists o :: o in names && k + [c] <= o)
    && forall o :: o in names && o != [] && k != [] && o[0] == k[0] ==> Comparable(o, k + [c])
  }

  /** Exactly which stored names no registered prefix covers: the empty name, and the names the walk
      passes over on its way down an unbranched chain. */
  lemma CoverageExact(names: set<Name>, k: Name)
    requires k in names
    ensures Covered(names, k) <==> k != [] && !PassedOver(names, k)
  {
    var paths := PathsOf(names);
    if k != [] {
      assert k[..1] == [k[0]];
      PathsOfMember(names, [k[0]]);
      PathsOfMember(names, k);
      assert [k[0]] in paths by { assert [k[0]] <= k; }
      var p := ChainEndExists(names, [k[0]]);
      assert p[0] == k[0];
      SameFirstIsComparable(names, p, k);
      if p <= k {
        NotPassedOver(names, p, k);
      } else {
        PassedBelowChainEnd(names, p, k);
        if q :| ChainEnd(paths, q) && q <= k {
          ChainEndUnique(names, p, q);
        }
      }
    }
  }

  lemma PassedBelowChainEnd(names: set<Name>, p: Name, k: Name)
    requires ChainEnd(PathsOf(names), p) && k != [] && k < p
    ensures PassedOver(names, k)
  {
    var c := p[|k|];
    assert p[..|k| + 1] == k + [c];
    PathsOfMember(names, p);
    var o :| o in names && p <= o;
    assert k + [c] <= p <= o;
    forall o | o in names && o != [] && o[0] == k[0]
      ensures Comparable(o, k + [c])
    {
      PathsOfMember(names, o);
      SameFirstIsComparable(names, p, o);
      if p <= o {
        assert k + [c] <= o;
      } else {
        PrefixesComparable(o, k + [c], p);
      }
    }
    assert PassedInto(names, k, c);
  }

  lemma PrefixesComparable(a: Name, b: Name, p: Name)
    requires a <= p && b <= p
    ensures Comparable(a, b)
  {
    assert a == p[..|a|] && b == p[..|b|];
  }

  lemma NotPassedOver(names: set<Name>, p: Name, k: Name)
    requires ChainEnd(PathsOf(names), p) && k in names && p <= k
    ensures !PassedOver(names, k)
  {
    if c :| PassedInto(names, k, c) {
      var o :| o in names && k + [c] <= o;
      var through := o[|p|];
      assert p < o by { assert p <= k <= o; }
      NameBelow(names, p, o);
      if |Children(PathsOf(names), p)| != 1 {
        assert Children(PathsOf(names), p) != {through};
        var d :| d in Children(PathsOf(names), p) && d != through;
        var a := NameThrough(names, p, d);
        assert a[0] == p[0] == k[0];
        assert (k + [c])[|p|] == through;
      }
    }
  }

  /** No stored name is a proper prefix of another. */
  ghost predicate PrefixFree(names: set<Name>) {
    forall a, b :: a in names && b in names && a <= b ==> a == b
  }

  /** In a prefix-free store every non-empty name is covered. */
  lemma PrefixFreeIsCovered(names: set<Name>, k: Name)
    requires PrefixFree(names) && k in names && k != []
    ensures Covered(names, k)
  {
    CoverageExact(names, k);
    PassedOverIsShorter(names, k);
  }

  lemma PassedOverIsShorter(names: set<Name>, k: Name)
    ensures PassedOver(names, k) ==> exists o :: o in names && k < o
  {
    if c :| PassedInto(names, k, c) {
      var o :| o in names && k + [c] <= o;
      assert k < o;
    }
  }

  /** Storing both /a and /a/b leaves /a without a registered prefix. */
  lemma ShorterNameUncovered()
    ensures !Covered({["a"], ["a", "b"]}, ["a"])
  {
    var names: set<Name> := {["a"], ["a", "b"]};
    assert ["a"] + ["b"] <= ["a", "b"];
    assert PassedInto(names, ["a"], "b");
    CoverageExact(names, ["a"]);
  }
}
