/** The bytewise order in which the database keeps its keys, and the block of keys under a prefix. */
module KeyOrder {

  /** Bytewise comparison; a proper prefix comes first. */
  predicate AtMost(a: string, b: string) {
    a == "" || (b != "" && (a[0] < b[0] || (a[0] == b[0] && AtMost(a[1..], b[1..]))))
  }

  /** a and b agree up to i, and a has the smaller character there. */
  predicate FirstDifference(a: string, b: string, i: nat) {
    i < |a| && i < |b| && a[..i] == b[..i] && a[i] < b[i]
  }

  /** What a byte comparison means: b extends a, or a has the smaller character where they first differ. */
  ghost predicate InByteOrder(a: string, b: string) {
    a <= b || exists i: nat :: FirstDifference(a, b, i)
  }

  lemma {:induction false} AtMostIsByteOrder(a: string, b: string)
    ensures AtMost(a, b) <==> InByteOrder(a, b)
  {
    if a != "" && b != "" {
      forall i: nat | FirstDifference(a, b, i)
        ensures a[0] <= b[0]
      {
        HeadOfDifference(a, b, i);
      }
      if a[0] == b[0] {
        AtMostIsByteOrder(a[1..], b[1..]);
        TailsInByteOrder(a, b);
      } else if a[0] < b[0] {
        assert FirstDifference(a, b, 0);
      }
    }
  }

  lemma HeadOfDifference(a: string, b: string, i: nat)
    requires FirstDifference(a, b, i)
    ensures a[0] <= b[0]
  {
    assert i > 0 ==> a[..i][0] == b[..i][0];
  }

  lemma TailsInByteOrder(a: string, b: string)
    requires a != "" && b != "" && a[0] == b[0]
    ensures InByteOrder(a, b) <==> InByteOrder(a[1..], b[1..])
  {
    assert a == [a[0]] + a[1..] && b == [b[0]] + b[1..];
    if i: nat :| FirstDifference(a[1..], b[1..], i) {
      assert a[..i + 1] == [a[0]] + a[1..][..i] && b[..i + 1] == [b[0]] + b[1..][..i];
      assert FirstDifference(a, b, i + 1);
    }
    if i: nat :| FirstDifference(a, b, i) {
      var j: nat := i - 1;
      assert a[1..][..j] == a[..i][1..] && b[1..][..j] == b[..i][1..];
      assert FirstDifference(a[1..], b[1..], j);
    }
  }

  predicate Before(a: string, b: string) {
    AtMost(a, b) && a != b
  }

  lemma {:induction false} AtMostReflexive(a: string)
    ensures AtMost(a, a)
  {
    if a != "" {
      AtMostReflexive(a[1..]);
    }
  }

  lemma {:induction false} AtMostTotal(a: string, b: string)
    ensures AtMost(a, b) || AtMost(b, a)
  {
    if a != "" && b != "" && a[0] == b[0] {
      AtMostTotal(a[1..], b[1..]);
    }
  }

  lemma {:induction false} AtMostTransitive(a: string, b: string, c: string)
    requires AtMost(a, b) && AtMost(b, c)
    ensures AtMost(a, c)
  {
    if a != "" && a[0] == b[0] == c[0] {
      AtMostTransitive(a[1..], b[1..], c[1..]);
    }
  }

  lemma {:induction false} AtMostAntisymmetric(a: string, b: string)
    requires AtMost(a, b) && AtMost(b, a)
    ensures a == b
  {
    if a != "" {
      AtMostAntisymmetric(a[1..], b[1..]);
      assert a == [a[0]] + a[1..] && b == [b[0]] + b[1..];
    }
  }

  lemma {:induction false} PrefixAtMost(p: string, s: string)
    requires p <= s
    ensures AtMost(p, s)
  {
    if p != "" {
      PrefixAtMost(p[1..], s[1..]);
    }
  }

  /** The keys that start with p are contiguous: whatever lies between p and one of them is one. */
  lemma {:induction false} BlockIsContiguous(p: string, s: string, t: string)
    requires AtMost(p, s) && AtMost(s, t) && p <= t
    ensures p <= s
  {
    if p != "" {
      assert p[0] == t[0];
      BlockIsContiguous(p[1..], s[1..], t[1..]);
      assert p == [p[0]] + p[1..] && s == [s[0]] + s[1..];
    }
  }

  // ---- Sorted key sequences ----

  predicate Sorted(keys: seq<string>) {
    forall i, j :: 0 <= i < j < |keys| ==> Before(keys[i], keys[j])
  }

  /** Where an iterator stands after Seek: the first key that is not before the target. */
  function LowerBound(keys: seq<string>, target: string): (i: nat)
    ensures i <= |keys|
    ensures forall j :: 0 <= j < i ==> !AtMost(target, keys[j])
    ensures i < |keys| ==> AtMost(target, keys[i])
  {
    if keys == [] then 0
    else if AtMost(target, keys[0]) then 0
    else
      var rest := LowerBound(keys[1..], target);
      assert forall j :: 0 < j < rest + 1 ==> keys[j] == keys[1..][j - 1];
      1 + rest
  }

  /** The key sequence after Put. */
  function WithKey(keys: seq<string>, key: string): (r: seq<string>)
  {
    if key in keys then keys
    else
      var i := LowerBound(keys, key);
      keys[..i] + [key] + keys[i..]
  }

  lemma WithKeySorted(keys: seq<string>, key: string)
    requires Sorted(keys)
    ensures Sorted(WithKey(keys, key))
    ensures forall k :: k in WithKey(keys, key) <==> k in keys || k == key
  {
    var r := WithKey(keys, key);
    if key !in keys {
      var i := LowerBound(keys, key);
      forall k | k in keys
        ensures k in r
      {
        assert keys == keys[..i] + keys[i..];
      }
      forall a, b | 0 <= a < b < |r|
        ensures Before(r[a], r[b])
      {
        var from: int, to: int := if a > i then a - 1 else a, if b > i then b - 1 else b;
        assert a != i ==> r[a] == keys[from];
        assert b != i ==> r[b] == keys[to];
        if a == i {
          assert AtMost(key, keys[i]);
          if i < to { AtMostTransitive(key, keys[i], keys[to]); }
        } else if b == i {
          AtMostTotal(key, keys[a]);
        }
      }
    }
  }
}
