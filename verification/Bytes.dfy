/** Bytes, and the relation "these bytes stand at this position". */
module Bytes {
  type byte = b: int | 0 <= b < 256

  /** The bytes `s` stand in `d` from `pos` on. */
  predicate At(d: seq<byte>, pos: nat, s: seq<byte>) {
    pos + |s| <= |d| && d[pos..pos + |s|] == s
  }

  lemma AtConcat(d: seq<byte>, pos: nat, a: seq<byte>, b: seq<byte>)
    ensures At(d, pos, a + b) <==> At(d, pos, a) && At(d, pos + |a|, b)
  {
    if pos + |a| + |b| <= |d| {
      var both := d[pos..pos + |a| + |b|];
      assert both[..|a|] == d[pos..pos + |a|];
      assert both[|a|..] == d[pos + |a|..pos + |a| + |b|];
      assert (a + b)[..|a|] == a && (a + b)[|a|..] == b;
      assert both == both[..|a|] + both[|a|..];
    }
  }

  function Zeros(n: nat): (z: seq<byte>)
    ensures |z| == n && AllZero(z)
  {
    seq(n, _ => 0)
  }

  predicate AllZero(s: seq<byte>) {
    forall i | 0 <= i < |s| :: s[i] == 0
  }

  lemma AllZeroIsZeros(s: seq<byte>)
    ensures AllZero(s) <==> s == Zeros(|s|)
  {
  }

  lemma ConsExactly<T>(a: T, s: seq<T>, b: T, t: seq<T>)
    ensures [a] + s == [b] + t <==> a == b && s == t
  {
    assert ([a] + s)[0] == a && ([a] + s)[1..] == s;
    assert ([b] + t)[0] == b && ([b] + t)[1..] == t;
  }

  function Min(a: int, b: int): int {
    if a <= b then a else b
  }

  function Max(a: int, b: int): int {
    if a <= b then b else a
  }
}
