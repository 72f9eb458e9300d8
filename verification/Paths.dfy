/** Relative paths as component sequences, and the slash-joined keys they are ordered and looked up by. */
module Paths {
  import opened Bytes
  import opened Lexicographic

  type Name = seq<byte>
  type Path = seq<Name>

  const SLASH: byte := 0x2f

  predicate NameOk(n: Name) {
    n != [] && SLASH !in n
  }

  predicate PathOk(p: Path) {
    forall i | 0 <= i < |p| :: NameOk(p[i])
  }

  function Join(p: Path): Key {
    if p == [] then [] else if |p| == 1 then p[0] else p[0] + [SLASH] + Join(p[1..])
  }

  lemma {:induction false} JoinSnoc(p: Path, n: Name)
    ensures Join(p + [n]) == if p == [] then n else Join(p) + [SLASH] + n
  {
    if p == [] {
      assert p + [n] == [n];
    } else {
      assert (p + [n])[1..] == p[1..] + [n];
      JoinSnoc(p[1..], n);
      if |p| > 1 {
        assert p[0] + [SLASH] + (Join(p[1..]) + [SLASH] + n) == p[0] + [SLASH] + Join(p[1..]) + [SLASH] + n;
      }
    }
  }

  function SlashIndex(k: Key): nat {
    if k == [] || k[0] == SLASH then 0 else 1 + SlashIndex(k[1..])
  }

  lemma {:induction false} SlashAfter(a: Name, s: Key)
    requires SLASH !in a
    ensures SlashIndex(a + [SLASH] + s) == |a|
  {
    if a != [] {
      assert (a + [SLASH] + s)[1..] == a[1..] + [SLASH] + s;
      SlashAfter(a[1..], s);
    }
  }

  /** The first slash of a joined key ends its first component. */
  lemma FirstSlash(a: Name, b: Name, s: Key, t: Key)
    requires SLASH !in a && SLASH !in b && a + [SLASH] + s == b + [SLASH] + t
    ensures a == b && s == t
  {
    var k := a + [SLASH] + s;
    SlashAfter(a, s);
    SlashAfter(b, t);
    assert a == k[..|a|] && b == k[..|b|];
    assert s == k[|a| + 1..] && t == k[|b| + 1..];
  }

  lemma {:induction false} JoinNonempty(p: Path)
    requires PathOk(p) && p != []
    ensures Join(p) != []
  {
    assert NameOk(p[0]);
  }

  lemma SlashWithin(a: Key, k: Key)
    requires a + [SLASH] <= k
    ensures SLASH in k
  {
    assert k[|a|] == (a + [SLASH])[|a|];
  }

  lemma SlashInJoin(p: Path)
    requires PathOk(p)
    ensures SLASH in Join(p) <==> |p| > 1
  {
    if |p| == 1 {
      assert NameOk(p[0]);
    } else if |p| > 1 {
      SlashWithin(p[0], Join(p));
    }
  }

  lemma {:induction false} JoinInjective(p: Path, q: Path)
    requires PathOk(p) && PathOk(q) && Join(p) == Join(q)
    ensures p == q
    decreases |p|
  {
    SlashInJoin(p);
    SlashInJoin(q);
    if |p| > 1 {
      assert NameOk(p[0]) && NameOk(q[0]);
      FirstSlash(p[0], q[0], Join(p[1..]), Join(q[1..]));
      JoinInjective(p[1..], q[1..]);
      assert p == [p[0]] + p[1..] && q == [q[0]] + q[1..];
    } else {
      if p != [] {
        JoinNonempty(p);
      }
      if q != [] {
        JoinNonempty(q);
      }
    }
  }

  predicate ProperAncestor(p: Path, q: Path) {
    |p| < |q| && q[..|p|] == p
  }

  /** Ancestry of paths is what "the key starts with the other key and a slash" says. */
  lemma {:induction false} JoinAncestor(p: Path, q: Path)
    requires PathOk(p) && PathOk(q) && p != []
    ensures ProperAncestor(p, q) <==> Join(p) + [SLASH] <= Join(q)
    decreases |p|
  {
    if q == [] {
      return;
    }
    assert NameOk(p[0]) && NameOk(q[0]);
    var prefix, whole := Join(p) + [SLASH], Join(q);
    if |q| == 1 {
      if prefix <= whole {
        SlashWithin(Join(p), whole);
      }
      return;
    }
    var rest := Join(q[1..]);
    if |p| == 1 {
      if prefix <= whole {
        assert whole == p[0] + [SLASH] + whole[|prefix|..];
        FirstSlash(p[0], q[0], whole[|prefix|..], rest);
        assert q[..1] == [q[0]] == p;
      }
    } else {
      JoinAncestor(p[1..], q[1..]);
      AncestorStep(p, q);
      PrefixStep(p[0], q[0], Join(p[1..]) + [SLASH], rest);
      assert prefix == p[0] + [SLASH] + (Join(p[1..]) + [SLASH]);
    }
  }

  lemma AncestorStep(p: Path, q: Path)
    requires p != [] && q != []
    ensures ProperAncestor(p, q) <==> p[0] == q[0] && ProperAncestor(p[1..], q[1..])
  {
    assert p == [p[0]] + p[1..] && q == [q[0]] + q[1..];
    assert |p| <= |q| ==> q[..|p|] == [q[0]] + q[1..][..|p| - 1];
  }

  lemma PrefixStep(a: Name, b: Name, s: Key, t: Key)
    requires SLASH !in a && SLASH !in b
    ensures a + [SLASH] + s <= b + [SLASH] + t <==> a == b && s <= t
  {
    var prefix, whole := a + [SLASH] + s, b + [SLASH] + t;
    if prefix <= whole {
      assert whole == a + [SLASH] + (s + whole[|prefix|..]);
      FirstSlash(a, b, s + whole[|prefix|..], t);
    }
  }
}
