/** Finite sets of block ids and the counting arguments the fetch protocol needs. */
module Intervals {

  /** The block ids lo, lo + 1, ..., hi - 1. */
  function Interval(lo: nat, hi: nat): (s: set<nat>)
    decreases hi
  {
    if hi <= lo then {} else
      var last: nat := hi - 1;
      Interval(lo, last) + {last}
  }

  /** The same block ids in ascending order. */
  function Ascending(lo: nat, hi: nat): (s: seq<nat>)
    decreases hi
  {
    if hi <= lo then [] else
      var last: nat := hi - 1;
      Ascending(lo, last) + [last]
  }

  lemma {:induction false} IntervalFacts(lo: nat, hi: nat)
    ensures forall x: nat :: x in Interval(lo, hi) <==> lo <= x < hi
    ensures |Interval(lo, hi)| == if lo <= hi then hi - lo else 0
    decreases hi
  {
    if lo < hi {
      IntervalFacts(lo, hi - 1);
    }
  }

  lemma IntervalGrows(keys: set<nat>, lo: nat, hi: nat)
    requires lo < hi
    ensures |keys * Interval(lo, hi)| == |keys * Interval(lo, hi - 1)| + if hi - 1 in keys then 1 else 0
  {
    var last: nat := hi - 1;
    IntervalFacts(lo, last);
    var before, after := keys * Interval(lo, last), keys * Interval(lo, hi);
    assert last !in before;
    assert after == if last in keys then before + {last} else before;
  }

  lemma PartsOfInterval(a: set<nat>, b: set<nat>, lo: nat, hi: nat)
    requires a !! b && forall x: nat :: x in a + b <==> lo <= x < hi
    ensures |a| + |b| == if lo <= hi then hi - lo else 0
  {
    IntervalFacts(lo, hi);
    assert a + b == Interval(lo, hi);
    assert |a + b| == |a| + |b|;
  }

  lemma SameBefore<T>(a: set<T>, b: set<T>, x: T)
    requires x !in a && x !in b
    ensures a + {x} == b + {x} <==> a == b
    ensures a != b + {x}
  {
    assert (a + {x}) - {x} == a && (b + {x}) - {x} == b;
    assert x in b + {x};
  }

  lemma SubsetSize<T>(a: set<T>, b: set<T>)
    requires a <= b
    ensures |a| <= |b|
    ensures |a| == |b| ==> a == b
  {
    assert b == a + (b - a);
    assert |b| == |a| + |b - a|;
  }

  /** How many times x occurs. */
  function Times(s: seq<nat>, x: nat): (n: nat)
    ensures n > 0 <==> x in s
  {
    if s == [] then 0
    else Times(s[..|s| - 1], x) + if s[|s| - 1] == x then 1 else 0
  }

  lemma TimesAppend(s: seq<nat>, y: nat, x: nat)
    ensures Times(s + [y], x) == Times(s, x) + if x == y then 1 else 0
  {
    assert (s + [y])[..|s|] == s;
  }

  /** Distinct elements in the order in which they are first seen. */
  function FirstSeen(s: seq<nat>): (r: seq<nat>)
  {
    if s == [] then []
    else
      var r := FirstSeen(s[..|s| - 1]);
      if s[|s| - 1] in s[..|s| - 1] then r else r + [s[|s| - 1]]
  }

  lemma FirstSeenAppend(s: seq<nat>, x: nat)
    ensures FirstSeen(s + [x]) == if x in s then FirstSeen(s) else FirstSeen(s) + [x]
  {
    assert (s + [x])[..|s|] == s;
  }

  lemma {:induction false} AscendingRange(lo: nat, hi: nat, x: nat)
    ensures x in Ascending(lo, hi) <==> lo <= x < hi
    decreases hi
  {
    if lo < hi {
      AscendingRange(lo, hi - 1, x);
    }
  }

  /** An ascending run repeats nothing, so it is its own list of first sightings. */
  lemma {:induction false} AscendingDistinct(lo: nat, hi: nat)
    ensures FirstSeen(Ascending(lo, hi)) == Ascending(lo, hi)
    decreases hi
  {
    if lo < hi {
      var last: nat := hi - 1;
      AscendingDistinct(lo, last);
      AscendingRange(lo, last, last);
      FirstSeenAppend(Ascending(lo, last), last);
    }
  }

  lemma {:induction false} AscendingTimes(lo: nat, hi: nat, x: nat)
    ensures Times(Ascending(lo, hi), x) == if lo <= x < hi then 1 else 0
    decreases hi
  {
    if lo < hi {
      var last: nat := hi - 1;
      var front := Ascending(lo, last);
      AscendingTimes(lo, last, x);
      TimesAppend(front, last, x);
      assert Ascending(lo, hi) == front + [last];
    }
  }
}
