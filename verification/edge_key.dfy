/** The `long` key under which `MiddlePoint` caches the midpoint of an edge
    (Assets/IcosphereGenerator.cs:145-149), with C#'s 32-bit `int` and
    64-bit `long` arithmetic written out. */
module Keys {

  const INT_MIN: int := -0x8000_0000
  const INT_MAX: int := 0x7FFF_FFFF
  const TWO_32: int := 0x1_0000_0000
  const TWO_63: int := 0x8000_0000_0000_0000
  const TWO_64: int := 0x1_0000_0000_0000_0000

  /** Values a C# `int` can hold. */
  predicate IsInt(x: int) {
    INT_MIN <= x <= INT_MAX
  }

  /** Values a C# `long` can hold. */
  predicate IsLong(x: int) {
    -TWO_63 <= x < TWO_63
  }

  /** Unchecked `long` arithmetic: the exact result brought into the signed
      64-bit range by adding or subtracting 2^64. */
  function WrapLong(x: int): (r: int)
    ensures IsLong(r)
    ensures IsLong(x) ==> r == x
    decreases if x < 0 then -x else x + 1
  {
    if IsLong(x) then x
    else if x >= TWO_63 then WrapLong(x - TWO_64)
    else WrapLong(x + TWO_64)
  }

  /** Wrapping changes a number by a multiple of 2^64 only. */
  lemma {:induction false} WrapLongCongruent(x: int)
    ensures (x - WrapLong(x)) % TWO_64 == 0
    decreases if x < 0 then -x else x + 1
  {
    if !IsLong(x) {
      var y := if x >= TWO_63 then x - TWO_64 else x + TWO_64;
      WrapLongCongruent(y);
    }
  }

  /** `(smallerIndex << 32) + greaterIndex`, where both operands have been
      widened to `long`; a `long` shift by 32 keeps the low 64 bits of the
      product with 2^32. */
  function EdgeKey(p1: int, p2: int): int
  {
    var firstIsSmaller := p1 < p2;
    var smaller := if firstIsSmaller then p1 else p2;
    var greater := if firstIsSmaller then p2 else p1;
    WrapLong(WrapLong(smaller * TWO_32) + greater)
  }

  /** The smaller of the two endpoints. */
  function Low(p1: int, p2: int): int {
    if p1 < p2 then p1 else p2
  }

  /** The greater of the two endpoints. */
  function High(p1: int, p2: int): int {
    if p1 < p2 then p2 else p1
  }

  /** The key does not depend on the order of the endpoints, so both
      triangles that share an edge look up the same cache entry. */
  lemma KeySymmetric(p1: int, p2: int)
    ensures EdgeKey(p1, p2) == EdgeKey(p2, p1)
  {
  }

  /** The key depends only on the unordered pair of endpoints. */
  lemma KeyOfSorted(p1: int, p2: int)
    ensures EdgeKey(p1, p2) == EdgeKey(Low(p1, p2), High(p1, p2))
  {
  }

  /** For indices a `List<T>` can hold no wrap-around happens: the smaller
      index sits in the high 32 bits and the greater one in the low 32 bits. */
  lemma KeyExact(p1: int, p2: int)
    requires 0 <= p1 <= INT_MAX && 0 <= p2 <= INT_MAX
    ensures EdgeKey(p1, p2) == Low(p1, p2) * TWO_32 + High(p1, p2)
    ensures 0 <= EdgeKey(p1, p2) < TWO_63
  {
    var s, g := Low(p1, p2), High(p1, p2);
    assert 0 <= s * TWO_32 <= INT_MAX * TWO_32;
    assert IsLong(s * TWO_32 + g);
  }

  /** Two C# `int` pairs get the same key only when they are the same
      unordered pair, so distinct edges never share a cache entry. This holds
      for every `int` pair, negative indices included, despite the wrap-around. */
  lemma KeyInjective(p1: int, p2: int, q1: int, q2: int)
    requires IsInt(p1) && IsInt(p2) && IsInt(q1) && IsInt(q2)
    requires EdgeKey(p1, p2) == EdgeKey(q1, q2)
    ensures Low(p1, p2) == Low(q1, q2) && High(p1, p2) == High(q1, q2)
  {
    var s1, g1 := Low(p1, p2), High(p1, p2);
    var s2, g2 := Low(q1, q2), High(q1, q2);
    assert IsLong(s1 * TWO_32) && IsLong(s2 * TWO_32);
    var w := EdgeKey(p1, p2);
    WrapLongCongruent(s1 * TWO_32 + g1);
    WrapLongCongruent(s2 * TWO_32 + g2);
    SameResidue(s1 * TWO_32 + g1, s2 * TWO_32 + g2, w);
    SmallMultiple(s1 - s2, g2 - g1);
  }

  /** Two numbers congruent to a third modulo 2^64 and less than 2^64 apart
      are equal. */
  lemma SameResidue(x: int, y: int, w: int)
    requires (x - w) % TWO_64 == 0 && (y - w) % TWO_64 == 0
    requires -TWO_64 < x - y < TWO_64
    ensures x == y
  {
    var i, j := (x - w) / TWO_64, (y - w) / TWO_64;
    assert x - y == (i - j) * TWO_64;
  }

  /** A multiple of 2^32 strictly between -2^32 and 2^32 is zero. */
  lemma SmallMultiple(k: int, x: int)
    requires k * TWO_32 == x && -TWO_32 < x < TWO_32
    ensures k == 0
  {
  }
}
