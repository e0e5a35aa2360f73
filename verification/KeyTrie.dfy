/** The trie of stored names, as nodes linked in place. A ghost map from paths to nodes describes the
    whole structure at once, so that an insertion can be followed from the head down. */
module KeyTrie {
  import opened Names
  import opened LongestPrefixes

  class TrieNode {
    var isLeaf: bool
    var components: map<string, TrieNode>
    ghost const path: Name  // where the node hangs

    constructor (ghost path: Name)
      ensures !isLeaf && components == map[] && this.path == path
    {
      isLeaf, components := false, map[];
      this.path := path;
    }
  }

  lemma PathsOfUnion(names: set<Name>, n: Name)
    ensures PathsOf(names + {n}) == PathsOf(names) + PathsOf({n})
  {
    forall q
      ensures q in PathsOf(names + {n}) <==> q in PathsOf(names) || q in PathsOf({n})
    {
      PathsOfMember(names + {n}, q);
      PathsOfMember(names, q);
      PathsOfMember({n}, q);
    }
  }

  /** The paths of a longer name are those of the shorter one and the name itself. */
  lemma PathsOfStep(n: Name, c: string)
    ensures PathsOf({n + [c]}) == PathsOf({n}) + {n + [c]}
  {
    forall q
      ensures q in PathsOf({n + [c]}) <==> q in PathsOf({n}) || q == n + [c]
    {
      PathsOfMember({n + [c]}, q);
      PathsOfMember({n}, q);
      if q <= n + [c] && |q| <= |n| {
        assert (n + [c])[..|q|] == n[..|q|];
      }
    }
  }

  lemma {:induction false} NonEmptyAppend(pieces: seq<string>, last: string)
    ensures NonEmpty(pieces + [last]) == if last == "" then NonEmpty(pieces) else NonEmpty(pieces) + [last]
  {
    if pieces != [] {
      assert (pieces + [last])[1..] == pieces[1..] + [last];
      NonEmptyAppend(pieces[1..], last);
    }
  }

  /** Where the first i pieces of a key lead. */
  ghost function Walked(pieces: seq<string>, i: nat): Name
    requires i <= |pieces|
  {
    if i == 0 then []
    else if pieces[i - 1] == "" then Walked(pieces, i - 1)
    else Walked(pieces, i - 1) + [pieces[i - 1]]
  }

  lemma {:induction false} WalkedIsNonEmpty(pieces: seq<string>, i: nat)
    requires i <= |pieces|
    ensures Walked(pieces, i) == NonEmpty(pieces[..i])
  {
    if i > 0 {
      WalkedIsNonEmpty(pieces, i - 1);
      assert pieces[..i] == pieces[..i - 1] + [pieces[i - 1]];
      NonEmptyAppend(pieces[..i - 1], pieces[i - 1]);
    }
  }

  /** The paths of the nodes that the first i pieces pass. */
  ghost function Trail(pieces: seq<string>, i: nat): set<Name>
    requires i <= |pieces|
  {
    if i == 0 then {[]} else Trail(pieces, i - 1) + {Walked(pieces, i)}
  }

  lemma {:induction false} TrailIsPaths(names: set<Name>, pieces: seq<string>, i: nat)
    requires i <= |pieces|
    ensures Walked(pieces, i) in Trail(pieces, i)
    ensures PathsOf(names) + Trail(pieces, i) == PathsOf(names + {Walked(pieces, i)})
  {
    if i == 0 {
      PathsOfUnion(names, []);
      assert PathsOf({[]}) == {[]};
    } else {
      TrailIsPaths(names, pieces, i - 1);
      if pieces[i - 1] != "" {
        PathsOfLonger(names, Walked(pieces, i - 1), pieces[i - 1]);
      }
    }
  }

  lemma WalkedIsParse(key: string)
    ensures Walked(Split(key), |Split(key)|) == Parse(key)
  {
    WalkedIsNonEmpty(Split(key), |Split(key)|);
    assert Split(key)[..|Split(key)|] == Split(key);
  }

  /** Every node but the head hangs below another. */
  ghost predicate Closed(paths: set<Name>) {
    forall p {:trigger HasParent(paths, p)} :: p in paths ==> HasParent(paths, p)
  }

  ghost predicate HasParent(paths: set<Name>, p: Name) {
    p != [] ==> p[..|p| - 1] in paths
  }

  lemma PathsOfLonger(names: set<Name>, n: Name, c: string)
    ensures PathsOf(names + {n + [c]}) == PathsOf(names + {n}) + {n + [c]}
  {
    PathsOfUnion(names, n);
    PathsOfUnion(names, n + [c]);
    PathsOfStep(n, c);
  }

  /** The walk from the first component of n has come to n. */
  ghost predicate OnChain(paths: set<Name>, n: Name) {
    n in paths && n != [] && forall i :: 1 <= i < |n| ==> |Children(paths, n[..i])| == 1
  }

  lemma OnChainStep(paths: set<Name>, n: Name, d: string)
    requires OnChain(paths, n) && |Children(paths, n)| == 1 && n + [d] in paths
    ensures OnChain(paths, n + [d])
    ensures AtLeast(paths, |n + [d]|) < AtLeast(paths, |n|)
  {
    var further := n + [d];
    forall i | 1 <= i < |further|
      ensures |Children(paths, further[..i])| == 1
    {
      assert further[..i] == if i == |n| then n else n[..i];
    }
    assert n in AtLeast(paths, |n|) && n !in AtLeast(paths, |further|);
  }

  /** Exactly the chain ends of the stored names, each once. */
  ghost predicate ListsChainEnds(names: set<Name>, longest: seq<Name>) {
    && (forall p :: p in longest <==> ChainEnd(PathsOf(names), p))
    && (forall i, j :: 0 <= i < j < |longest| ==> longest[i] != longest[j])
  }

  /** The chain ends whose first component is in `firsts`, each once. */
  ghost predicate Listed(names: set<Name>, longest: seq<Name>, firsts: set<string>) {
    && (forall p :: p in longest ==> ChainEnd(PathsOf(names), p) && p[0] in firsts)
    && (forall c :: c in firsts ==> ListedUnder(longest, c))
    && (forall i, j :: 0 <= i < j < |longest| ==> longest[i] != longest[j])
  }

  ghost predicate ListedUnder(longest: seq<Name>, c: string) {
    exists p :: p in longest && p != [] && p[0] == c
  }

  lemma AnotherListed(names: set<Name>, longest: seq<Name>, n: Name, firsts: set<string>)
    requires Listed(names, longest, firsts) && ChainEnd(PathsOf(names), n) && n[0] !in firsts
    ensures Listed(names, longest + [n], firsts + {n[0]})
  {
    forall c | c in firsts + {n[0]}
      ensures ListedUnder(longest + [n], c)
    {
      if c == n[0] {
        assert n in longest + [n];
      } else {
        assert ListedUnder(longest, c);
        var p :| p in longest && p != [] && p[0] == c;
        assert p in longest + [n];
      }
    }
  }

  lemma AllListed(names: set<Name>, longest: seq<Name>)
    requires Listed(names, longest, Children(PathsOf(names), []))
    ensures ListsChainEnds(names, longest)
  {
    forall p | ChainEnd(PathsOf(names), p)
      ensures p in longest
    {
      PrefixInPaths(names, p, 1);
      assert p[..1] == [] + [p[0]];
      ChildrenMember(PathsOf(names), [], p[0]);
      assert ListedUnder(longest, p[0]);
      var q :| q in longest && q != [] && q[0] == p[0];
      ChainEndUnique(names, p, q);
    }
  }

  /** A node's map holds exactly the nodes one component further. */
  ghost predicate Linked(nodes: map<Name, TrieNode>, p: Name, components: map<string, TrieNode>) {
    forall c {:trigger LinkedAt(nodes, p, components, c)} :: LinkedAt(nodes, p, components, c)
  }

  ghost predicate LinkedAt(nodes: map<Name, TrieNode>, p: Name, components: map<string, TrieNode>, c: string) {
    (c in components <==> p + [c] in nodes) && (c in components ==> components[c] == nodes[p + [c]])
  }

  ghost predicate Shape(head: TrieNode, nodes: map<Name, TrieNode>, links: map<Name, map<string, TrieNode>>) {
    && links.Keys == nodes.Keys
    && [] in nodes && nodes[[]] == head && Closed(nodes.Keys)
    && forall p {:trigger Linked(nodes, p, links[p])} :: p in nodes ==> Linked(nodes, p, links[p])
  }

  lemma AppendInjective(p: Name, c: string, q: Name, d: string)
    ensures p + [c] == q + [d] <==> p == q && c == d
  {
    if p + [c] == q + [d] {
      assert p == (p + [c])[..|p|] && q == (q + [d])[..|q|];
      assert c == (p + [c])[|p|];
    }
  }

  /** Linking a new node below path keeps the shape. */
  lemma ShapeGrows(head: TrieNode, nodes: map<Name, TrieNode>, links: map<Name, map<string, TrieNode>>, path: Name,
                   c: string, child: TrieNode)
    requires Shape(head, nodes, links) && path in nodes && path + [c] !in nodes
    ensures Shape(head, nodes[path + [c] := child], links[path := links[path][c := child]][path + [c] := map[]])
  {
    var under := path + [c];
    var nodes' := nodes[under := child];
    var links' := links[path := links[path][c := child]][under := map[]];
    forall p | p in nodes'
      ensures Linked(nodes', p, links'[p])
    {
      forall d
        ensures LinkedAt(nodes', p, links'[p], d)
      {
        AppendInjective(p, d, path, c);
        if p == under {
          assert p + [d] in nodes ==> HasParent(nodes.Keys, p + [d]);
          assert (p + [d])[..|p + [d]| - 1] == p;
        } else {
          assert Linked(nodes, p, links[p]) && LinkedAt(nodes, p, links[p], d);
        }
      }
    }
    assert under[..|under| - 1] == path;
    forall p | p in nodes'
      ensures HasParent(nodes'.Keys, p)
    {
      assert p in nodes ==> HasParent(nodes.Keys, p);
    }
  }

  lemma ChildrenLinked(nodes: map<Name, TrieNode>, p: Name, components: map<string, TrieNode>)
    requires Linked(nodes, p, components)
    ensures components.Keys == Children(nodes.Keys, p)
  {
    forall c
      ensures c in components <==> c in Children(nodes.Keys, p)
    {
      assert LinkedAt(nodes, p, components, c);
      ChildrenMember(nodes.Keys, p, c);
    }
  }

  class NameTrie {
    var head: TrieNode
    ghost var nodes: map<Name, TrieNode>  // every node, by its path from the head
    ghost var links: map<Name, map<string, TrieNode>>  // every node's map, by the path of the node
    ghost var repr: set<TrieNode>
    ghost var names: set<Name>            // the names inserted so far

    ghost predicate Valid()
      reads this, repr
    {
      Complete(nodes.Keys, names) && Wired()
    }

    /** The root-to-node paths are the prefixes of the names. */
    static ghost predicate Complete(paths: set<Name>, names: set<Name>) {
      paths == PathsOf(names)
    }

    /** The nodes on the heap are the ones of the ghost maps. */
    ghost predicate Wired()
      reads this`head, this`nodes, this`links, this`repr, repr
    {
      Shape(head, nodes, links) && Mirrored()
    }

    ghost predicate Mirrored()
      reads this`nodes, this`links, this`repr, repr
    {
      nodes.Keys == links.Keys && forall p {:trigger Held(p)} :: p in nodes ==> Held(p)
    }

    /** The node at a path. */
    ghost predicate At(p: Name, n: TrieNode)
      reads this`nodes, this`repr
    {
      p in nodes && nodes[p] == n && n in repr
    }

    ghost predicate Held(p: Name)
      requires p in nodes && p in links
      reads this`nodes, this`links, this`repr, repr
    {
      nodes[p] in repr && Mirrors(nodes[p], p, links[p])
    }

    ghost predicate Mirrors(n: TrieNode, p: Name, components: map<string, TrieNode>)
      reads n
    {
      n.path == p && !n.isLeaf && n.components == components
    }

    constructor ()
      ensures Valid() && names == {} && fresh(repr)
    {
      var root := new TrieNode([]);
      head := root;
      nodes := map[[] := root];
      links := map[[] := map[]];
      repr := {root};
      names := {};
      new;
      assert PathsOf({}) == {[]};
    }

    /** Inserts the components of a key, creating the nodes that are missing. */
    method Insert(key: string)
      requires Valid()
      modifies this`nodes, this`links, this`repr, this`names, repr
      ensures Valid() && old(repr) <= repr && fresh(repr - old(repr))
      ensures names == old(names) + {Parse(key)}
    {
      var components := Split(key);
      InsertComponents(components);
      Note(key);
    }

    /** Follows the non-empty pieces of a key down from the head. */
    method InsertComponents(components: seq<string>)
      requires Wired()
      modifies this`nodes, this`links, this`repr, repr
      ensures Wired() && old(repr) <= repr && fresh(repr - old(repr))
      ensures nodes.Keys == old(nodes.Keys) + Trail(components, |components|)
    {
      var curr := head;
      var i := 0;
      assert Held([]);
      while i < |components|
        invariant 0 <= i <= |components|
        invariant Wired() && nodes.Keys == old(nodes.Keys) + Trail(components, i)
        invariant At(Walked(components, i), curr)
        invariant old(repr) <= repr && fresh(repr - old(repr))
      {
        curr := Pass(curr, components, i);
        i := i + 1;
      }
    }

    /** One turn of that loop: an empty piece is skipped. */
    method Pass(curr: TrieNode, components: seq<string>, i: nat) returns (next: TrieNode)
      requires Wired() && i < |components|
      requires At(Walked(components, i), curr)
      modifies this`nodes, this`links, this`repr, curr
      ensures Wired() && nodes.Keys == old(nodes.Keys) + {Walked(components, i + 1)}
      ensures old(repr) <= repr && fresh(repr - old(repr))
      ensures At(Walked(components, i + 1), next)
    {
      var c := components[i];
      if c == "" {
        return curr;
      }
      next := Descend(curr, c, Walked(components, i));
    }

    /** All nodes of a key are in place. */
    ghost method Note(key: string)
      requires Wired() && nodes.Keys == PathsOf(names) + Trail(Split(key), |Split(key)|)
      modifies this`names
      ensures Valid() && names == old(names) + {Parse(key)}
    {
      TrailIsPaths(names, Split(key), |Split(key)|);
      WalkedIsParse(key);
      names := names + {Parse(key)};
    }

    /** One step down from the node at `path`, to a new node if there is none yet. */
    method Descend(curr: TrieNode, c: string, ghost path: Name) returns (next: TrieNode)
      requires Wired() && path in nodes && nodes[path] == curr
      modifies this`nodes, this`links, this`repr, curr
      ensures Wired() && nodes.Keys == old(nodes.Keys) + {path + [c]}
      ensures old(repr) <= repr && fresh(repr - old(repr))
      ensures At(path + [c], next)
    {
      assert Held(path) && Linked(nodes, path, links[path]) && LinkedAt(nodes, path, links[path], c);
      if c !in curr.components {
        AddChild(curr, c, path);
        ShapeGrows(head, old(nodes), old(links), path, c, nodes[path + [c]]);
      }
      next := curr.components[c];
      assert Held(path + [c]);
    }

    /** Links a new node below the node at `path`. */
    method AddChild(curr: TrieNode, c: string, ghost path: Name)
      requires Mirrored() && path in nodes && nodes[path] == curr && path + [c] !in nodes
      modifies this`nodes, this`links, this`repr, curr
      ensures Mirrored() && old(repr) <= repr && fresh(repr - old(repr))
      ensures path + [c] in nodes && nodes == old(nodes)[path + [c] := nodes[path + [c]]]
      ensures links == old(links)[path := old(links[path])[c := nodes[path + [c]]]][path + [c] := map[]]
      ensures curr.components == links[path]
    {
      assert Held(path);
      var child := new TrieNode(path + [c]);
      ghost var before := nodes;
      curr.components := curr.components[c := child];
      nodes := nodes[path + [c] := child];
      links := links[path := links[path][c := child]][path + [c] := map[]];
      repr := repr + {child};
      forall p | p in nodes
        ensures Held(p)
      {
        if p in before && p != path {
          assert old(Held(p));
        }
      }
    }

    /** One name per child of the head: the walk down its unbranched chain, in whatever order the map
        yields the children. */
    method GetLongestPrefixes() returns (longestPrefixes: seq<Name>)
      requires Valid()
      ensures ListsChainEnds(names, longestPrefixes)
    {
      longestPrefixes := [];
      var firsts := head.components.Keys;
      ghost var all := firsts;
      assert Held([]);
      ChildrenLinked(nodes, [], links[[]]);
      assert firsts - all == {};
      while firsts != {}
        invariant firsts <= all == head.components.Keys
        invariant Listed(names, longestPrefixes, all - firsts)
        decreases firsts
      {
        var c :| c in firsts;
        var n := WalkChain(c);
        AnotherListed(names, longestPrefixes, n, all - firsts);
        assert all - (firsts - {c}) == all - firsts + {n[0]};
        longestPrefixes := longestPrefixes + [n];
        firsts := firsts - {c};
      }
      AllListed(names, longestPrefixes);
    }

    /** Down from the child c of the head for as long as there is exactly one way to go. */
    method WalkChain(c: string) returns (n: Name)
      requires Valid() && c in head.components
      ensures ChainEnd(PathsOf(names), n) && n[0] == c
    {
      n := [c];
      assert Held([]) && Linked(nodes, [], links[[]]) && LinkedAt(nodes, [], links[[]], c);
      assert [] + [c] == [c];
      var curr := head.components[c];
      while !curr.isLeaf && |curr.components| == 1
        invariant n in nodes && curr == nodes[n]
        invariant OnChain(nodes.Keys, n) && n[0] == c
        decreases AtLeast(nodes.Keys, |n|)
      {
        var d, next := OnlyChild(curr, n);
        OnChainStep(nodes.Keys, n, d);
        n := n + [d];
        curr := next;
      }
      assert Held(n);
      ChildrenLinked(nodes, n, links[n]);
    }

    /** The one entry of a node's map. */
    method OnlyChild(curr: TrieNode, ghost path: Name) returns (c: string, next: TrieNode)
      requires Wired() && path in nodes && curr == nodes[path] && |curr.components| == 1
      ensures path + [c] in nodes && next == nodes[path + [c]]
      ensures |Children(nodes.Keys, path)| == 1
    {
      assert Held(path);
      ChildrenLinked(nodes, path, links[path]);
      c :| c in curr.components;
      assert LinkedAt(nodes, path, links[path], c);
      next := curr.components[c];
    }
  }
}
