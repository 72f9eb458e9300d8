/** The byte order of path keys: what `BTreeMap` and `sorted` use. */
module Lexicographic {
  import opened Bytes

  type Key = seq<byte>

  predicate Less(a: Key, b: Key) {
    b != [] && (a == [] || a[0] < b[0] || (a[0] == b[0] && Less(a[1..], b[1..])))
  }

  predicate Leq(a: Key, b: Key) {
    a == b || Less(a, b)
  }

  /** One key is below another where they first differ, or where it ends first. */
  predicate DiffersAt(a: Key, b: Key, n: nat) {
    n <= |a| && n < |b| && a[..n] == b[..n] && (n == |a| || a[n] < b[n])
  }

  lemma {:induction false} LessExactly(a: Key, b: Key)
    ensures Less(a, b) <==> exists n: nat :: DiffersAt(a, b, n)
    decreases |a|
  {
    if b == [] {
    } else if a == [] || a[0] < b[0] {
      assert DiffersAt(a, b, 0);
    } else if a[0] == b[0] {
      LessExactly(a[1..], b[1..]);
      if Less(a, b) {
        var n: nat :| DiffersAt(a[1..], b[1..], n);
        assert a[..n + 1] == [a[0]] + a[1..][..n] && b[..n + 1] == [b[0]] + b[1..][..n];
        assert DiffersAt(a, b, n + 1);
      }
      forall n: nat | DiffersAt(a, b, n)
        ensures Less(a, b)
      {
        assert n > 0;
        assert a[1..][..n - 1] == a[..n][1..] && b[1..][..n - 1] == b[..n][1..];
        assert DiffersAt(a[1..], b[1..], n - 1);
      }
    } else {
      forall n: nat
        ensures !DiffersAt(a, b, n)
      {
        assert 0 < n <= |a| && n <= |b| ==> a[..n][0] != b[..n][0];
      }
    }
  }

  lemma {:induction false} Irreflexive(a: Key)
    ensures !Less(a, a)
  {
    if a != [] {
      Irreflexive(a[1..]);
    }
  }

  lemma {:induction false} Transitive(a: Key, b: Key, c: Key)
    requires Less(a, b) && Less(b, c)
    ensures Less(a, c)
    decreases |a|
  {
    if a != [] && a[0] == b[0] == c[0] {
      Transitive(a[1..], b[1..], c[1..]);
    }
  }

  lemma {:induction false} Total(a: Key, b: Key)
    ensures a == b || Less(a, b) || Less(b, a)
    decreases |a|
  {
    if a != [] && b != [] {
      Total(a[1..], b[1..]);
      if a[0] == b[0] && a[1..] == b[1..] {
        assert a == [a[0]] + a[1..] == b;
      }
    }
  }

  lemma Antisymmetric(a: Key, b: Key)
    requires Leq(a, b) && Leq(b, a)
    ensures a == b
  {
    if a != b {
      Transitive(a, b, a);
      Irreflexive(a);
    }
  }

  lemma NotBelow(a: Key, b: Key)
    requires Leq(a, b)
    ensures !Less(b, a)
  {
    if Less(b, a) {
      Antisymmetric(a, b);
      Irreflexive(a);
    }
  }

  lemma LeqTransitive(a: Key, b: Key, c: Key)
    requires Leq(a, b) && Leq(b, c)
    ensures Leq(a, c)
  {
    if a != b && b != c {
      Transitive(a, b, c);
    }
  }

  /** A key comes right before everything it is a proper prefix of. */
  lemma {:induction false} PrefixLess(a: Key, t: Key)
    requires t != []
    ensures Less(a, a + t)
    decreases |a|
  {
    if a == [] {
      assert a + t == t;
    } else {
      assert (a + t)[1..] == a[1..] + t;
      PrefixLess(a[1..], t);
    }
  }

  /** The keys that start with `p` form an interval that begins at `p`. */
  lemma {:induction false} PrefixInterval(p: Key, x: Key, s: Key)
    requires p <= s && Leq(p, x) && Leq(x, s)
    ensures p <= x
    decreases |p|
  {
    if p != [] && x != p && x != s {
      assert x != [] && p[0] == s[0] == x[0];
      PrefixInterval(p[1..], x[1..], s[1..]);
    }
  }

  // ----- Least elements and sorted enumeration

  predicate IsLeast(m: Key, s: set<Key>) {
    m in s && forall x | x in s :: Leq(m, x)
  }

  lemma {:induction false} LeastExists(s: set<Key>)
    requires s != {}
    ensures exists m :: IsLeast(m, s)
    decreases |s|
  {
    var x :| x in s;
    var rest := s - {x};
    if rest == {} {
      assert forall y | y in s :: y == x || y in rest;
      assert IsLeast(x, s);
    } else {
      LeastExists(rest);
      var m :| IsLeast(m, rest);
      Total(x, m);
      if Less(x, m) {
        forall y | y in s
          ensures Leq(x, y)
        {
          if y != x {
            LeqTransitive(x, m, y);
          }
        }
        assert IsLeast(x, s);
      } else {
        assert IsLeast(m, s);
      }
    }
  }

  lemma LeastUnique(s: set<Key>)
    ensures forall m, n | IsLeast(m, s) && IsLeast(n, s) :: m == n
  {
    forall m, n | IsLeast(m, s) && IsLeast(n, s)
      ensures m == n
    {
      Antisymmetric(m, n);
    }
  }

  function Least(s: set<Key>): (m: Key)
    requires s != {}
    ensures IsLeast(m, s)
  {
    LeastExists(s);
    LeastUnique(s);
    var m :| m in s && IsLeast(m, s);
    m
  }

  /** The elements in increasing order. */
  function Sorted(s: set<Key>): (r: seq<Key>)
    ensures |r| == |s|
    decreases |s|
  {
    if s == {} then [] else [Least(s)] + Sorted(s - {Least(s)})
  }

  ghost predicate Increasing(r: seq<Key>) {
    forall i, j | 0 <= i < j < |r| :: Less(r[i], r[j])
  }

  lemma {:induction false} SortedSorts(s: set<Key>)
    ensures Increasing(Sorted(s)) && forall x :: x in Sorted(s) <==> x in s
    decreases |s|
  {
    hide Less;
    if s != {} {
      var m, rest := Least(s), s - {Least(s)};
      SortedSorts(rest);
      var r, t := Sorted(s), Sorted(rest);
      assert r == [m] + t;
      assert forall x :: x in r <==> x == m || x in t;
      forall i, j | 0 <= i < j < |r|
        ensures Less(r[i], r[j])
      {
        assert r[j] == t[j - 1] && t[j - 1] in t;
        if i > 0 {
          assert r[i] == t[i - 1];
        }
      }
    }
  }

  /** An increasing enumeration of a set is the sorted one. */
  lemma {:induction false} SortedUnique(r: seq<Key>, s: set<Key>)
    requires Increasing(r) && forall x :: x in r <==> x in s
    ensures r == Sorted(s)
    decreases |r|
  {
    if r == [] {
      assert s == {};
    } else {
      assert r[0] in s;
      var m := Least(s);
      assert m in r;
      if m != r[0] {
        Antisymmetric(m, r[0]);
      }
      var rest := r[1..];
      assert forall x :: x in r <==> x == r[0] || x in rest;
      forall x | x in rest
        ensures x != r[0]
      {
        Irreflexive(x);
      }
      SortedUnique(rest, s - {m});
      assert r == [r[0]] + rest;
    }
  }
}
