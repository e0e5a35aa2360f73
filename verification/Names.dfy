/** NDN names and the URIs that serve as storage keys. A component is its escaped form: a non-empty
    string without '/'. */
module Names {

  type Name = seq<string>

  predicate WellFormed(n: Name) {
    forall i :: 0 <= i < |n| ==> n[i] != "" && '/' !in n[i]
  }

  function Joined(n: Name): (s: string)
  {
    if n == [] then "" else "/" + (n[0] + Joined(n[1..]))
  }

  /** Name::toUri. */
  function Uri(n: Name): (s: string)
  {
    if n == [] then "/" else Joined(n)
  }

  lemma PrefixTransitive(a: Name, b: Name, c: Name)
    requires a <= b && b <= c
    ensures a <= c
  {
  }

  lemma UriOfTwo(a: string, b: string)
    ensures Uri([a, b]) == "/" + (a + ("/" + b))
  {
    assert [a, b][1..] == [b];
    assert Joined([b]) == "/" + (b + "") && b + "" == b;
  }

  lemma UriOfThree(a: string, b: string, c: string)
    ensures Uri([a, b, c]) == "/" + (a + ("/" + (b + ("/" + c))))
  {
    assert [a, b, c][1..] == [b, c];
    UriOfTwo(b, c);
  }

  /** boost::split on '/': a string with k slashes has k + 1 pieces. */
  function Split(s: string): (pieces: seq<string>)
    ensures |pieces| >= 1
  {
    if s == "" then [""]
    else
      var rest := Split(s[1..]);
      if s[0] == '/' then [""] + rest else [[s[0]] + rest[0]] + rest[1..]
  }

  function NonEmpty(pieces: seq<string>): (r: seq<string>)
  {
    if pieces == [] then []
    else if pieces[0] == "" then NonEmpty(pieces[1..])
    else [pieces[0]] + NonEmpty(pieces[1..])
  }

  /** The components of a key, and the Name that its URI denotes. */
  function Parse(s: string): (n: Name)
  {
    NonEmpty(Split(s))
  }

  lemma {:induction false} SplitHasNoSlash(s: string)
    ensures forall i :: 0 <= i < |Split(s)| ==> '/' !in Split(s)[i]
  {
    if s != "" {
      SplitHasNoSlash(s[1..]);
    }
  }

  /** The pieces with a slash between any two. */
  function Glued(pieces: seq<string>): (s: string)
    requires pieces != []
  {
    if |pieces| == 1 then pieces[0] else pieces[0] + ("/" + Glued(pieces[1..]))
  }

  /** The pieces of any string, slashes put back between them, are the string. */
  lemma {:induction false} SplitGluesBack(s: string)
    ensures Glued(Split(s)) == s
  {
    if s != "" {
      var rest := Split(s[1..]);
      SplitGluesBack(s[1..]);
      if s[0] == '/' {
        assert ([""] + rest)[1..] == rest;
        assert Glued([""] + rest) == "" + ("/" + Glued(rest));
      } else {
        GluedHead([s[0]], rest);
      }
    }
  }

  lemma GluedHead(c: string, rest: seq<string>)
    requires rest != []
    ensures Glued([c + rest[0]] + rest[1..]) == c + Glued(rest)
  {
    var pieces := [c + rest[0]] + rest[1..];
    if |rest| > 1 {
      assert pieces[1..] == rest[1..];
      assert c + (rest[0] + ("/" + Glued(rest[1..]))) == (c + rest[0]) + ("/" + Glued(rest[1..]));
    }
  }

  lemma {:induction false} NonEmptyParts(pieces: seq<string>)
    requires forall i :: 0 <= i < |pieces| ==> '/' !in pieces[i]
    ensures WellFormed(NonEmpty(pieces))
  {
    if pieces != [] {
      NonEmptyParts(pieces[1..]);
    }
  }

  /** Whatever the string, its components are well formed. */
  lemma ParseWellFormed(s: string)
    ensures WellFormed(Parse(s))
  {
    SplitHasNoSlash(s);
    NonEmptyParts(Split(s));
  }

  lemma {:induction false} SplitComponent(c: string, rest: string)
    requires '/' !in c
    ensures Split(c + rest) == [c + Split(rest)[0]] + Split(rest)[1..]
  {
    var first := Split(rest)[0];
    if c == "" {
      assert c + rest == rest;
      assert c + first == first;
    } else {
      assert (c + rest)[1..] == c[1..] + rest;
      SplitComponent(c[1..], rest);
      assert [c[0]] + (c[1..] + first) == c + first;
    }
  }

  lemma {:induction false} SplitJoined(n: Name)
    requires WellFormed(n)
    ensures Split(Joined(n))[0] == ""
    ensures NonEmpty(Split(Joined(n))) == n
  {
    if n != [] {
      var rest := Joined(n[1..]);
      SplitJoined(n[1..]);
      assert Joined(n) == "/" + (n[0] + rest);
      assert Joined(n)[1..] == n[0] + rest;
      SplitComponent(n[0], rest);
      assert NonEmpty(Split(rest)) == NonEmpty(Split(rest)[1..]);
      assert n[0] + "" == n[0];
    }
  }

  /** Splitting a key and skipping the empty parts undoes the joining of the components. */
  lemma ParseUri(n: Name)
    requires WellFormed(n)
    ensures Parse(Uri(n)) == n
  {
    SplitJoined(n);
    assert Split("/") == ["", ""] by { assert "/"[1..] == ""; }
  }

  lemma UriInjective(a: Name, b: Name)
    requires WellFormed(a) && WellFormed(b) && Uri(a) == Uri(b)
    ensures a == b
  {
    ParseUri(a);
    ParseUri(b);
  }

  // ---- Byte-string prefixes against component prefixes ----

  /** o is not below n, but its component at n's last position is longer than n's and starts with it:
      /a/bc against /a/b. */
  predicate Straggler(n: Name, o: Name) {
    && 0 < |n| <= |o|
    && n[..|n| - 1] == o[..|n| - 1]
    && n[|n| - 1] < o[|n| - 1]
  }

  lemma JoinedStartsWithSlash(n: Name)
    ensures n == [] ==> Joined(n) == ""
    ensures n != [] ==> Joined(n) != "" && Joined(n)[0] == '/'
  {
  }

  /** A component followed by the rest of a URI has its first slash, if any, right after it. */
  lemma ComponentBoundary(c: string, r: string, d: string, t: string)
    requires '/' !in c && '/' !in d
    requires r != "" && r[0] == '/'
    requires c + r <= d + t && (t == "" || t[0] == '/')
    ensures c == d && r <= t
  {
    assert (d + t)[|c|] == '/' by { assert (c + r)[|c|] == '/'; }
    assert |d| <= |c|;
    assert t != "" ==> (d + t)[|d|] == '/';
    assert forall i :: 0 <= i < |c| ==> c[i] == (c + r)[i] == (d + t)[i];
    assert c == (c + r)[..|c|] == (d + t)[..|c|] == d;
    assert r == (c + r)[|c|..];
    assert t == (d + t)[|c|..];
  }

  lemma SlashPrefix(a: string, b: string)
    ensures "/" + a <= "/" + b <==> a <= b
  {
    assert ("/" + a)[1..] == a && ("/" + b)[1..] == b;
    if "/" + a <= "/" + b {
      assert a == ("/" + b)[1..][..|a|] by { assert ("/" + b)[..|a| + 1] == "/" + a; }
    }
  }

  lemma {:induction false} JoinedPrefix(n: Name, o: Name)
    requires WellFormed(n) && WellFormed(o) && n != []
    ensures Joined(n) <= Joined(o) <==> n <= o || Straggler(n, o)
  {
    JoinedStartsWithSlash(o);
    JoinedStartsWithSlash(n);
    if o != [] {
      var c, r, d, t := n[0], Joined(n[1..]), o[0], Joined(o[1..]);
      SlashPrefix(c + r, d + t);
      JoinedStartsWithSlash(o[1..]);
      if n[1..] == [] {
        LastComponent(n, o, c, d, t);
      } else {
        JoinedPrefix(n[1..], o[1..]);
        JoinedStartsWithSlash(n[1..]);
        ComponentsMatch(c, r, d, t);
        HeadAndTail(n, o);
      }
    }
  }

  lemma ComponentsMatch(c: string, r: string, d: string, t: string)
    requires '/' !in c && '/' !in d
    requires r != "" && r[0] == '/' && (t == "" || t[0] == '/')
    ensures c + r <= d + t <==> c == d && r <= t
  {
    if c + r <= d + t {
      ComponentBoundary(c, r, d, t);
    }
    if c == d && r <= t {
      assert (d + t)[..|c + r|] == c + t[..|r|];
    }
  }

  lemma LastComponent(n: Name, o: Name, c: string, d: string, t: string)
    requires n == [c] && o != [] && o[0] == d && '/' !in c && (t == "" || t[0] == '/')
    ensures c + "" <= d + t <==> n <= o || Straggler(n, o)
  {
    assert c + "" == c;
    if c <= d + t {
      assert t != "" ==> (d + t)[|d|] == '/';
      assert forall i :: 0 <= i < |c| ==> c[i] == (d + t)[i];
      assert c == (d + t)[..|c|] == d[..|c|];
    }
    if c <= d {
      assert c <= d + t;
    }
  }

  lemma HeadAndTail(n: Name, o: Name)
    requires |n| > 1 && o != []
    ensures n <= o || Straggler(n, o) <==> n[0] == o[0] && (n[1..] <= o[1..] || Straggler(n[1..], o[1..]))
  {
    if n <= o {
      assert n[1..] <= o[1..];
    }
    if n[0] == o[0] && n[1..] <= o[1..] {
      assert n == [n[0]] + n[1..];
      assert o == [o[0]] + o[1..];
      assert n <= o;
    }
    var k := |n| - 1;
    if |n| <= |o| {
      assert n[1..][..k - 1] == n[1..k] && o[1..][..k - 1] == o[1..k];
      assert n[..k] == [n[0]] + n[1..k];
      assert o[..k] == [o[0]] + o[1..k];
    }
  }

  /** The scan matches byte strings: a key starts with a name's URI exactly when its name extends that
      name, or is a straggler next to it. */
  lemma StringPrefix(n: Name, o: Name)
    requires WellFormed(n) && WellFormed(o)
    ensures Uri(n) <= Uri(o) <==> n <= o || Straggler(n, o)
    ensures Uri(n) <= Uri(o) ==> |n| <= |o|
  {
    JoinedStartsWithSlash(o);
    JoinedStartsWithSlash(n);
    if n == [] {
      assert Uri(o)[..1] == "/";
    } else {
      JoinedPrefix(n, o);
      if o == [] {
        assert |Joined(n)| >= 1 + |n[0]|;
      }
    }
  }
}
