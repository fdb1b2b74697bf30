/** Numbers as little-endian sequences of 32-bit limbs. */
module Limbs {
  import opened Powers

  const B: nat := 0x1_0000_0000

  ghost predicate Ok(l: seq<nat>) {
    forall i :: 0 <= i < |l| ==> l[i] < B
  }

  function Val(l: seq<nat>): nat {
    if l == [] then 0 else Val(l[..|l| - 1]) + l[|l| - 1] * Base(|l| - 1)
  }

  /** The weight of limb n. */
  function Base(n: nat): (p: nat)
    ensures p >= 1
  {
    Pow2(32 * n)
  }

  lemma WordSize()
    ensures Pow2(32) == B && Pow2(8) == 256 && Pow2(16) == 0x1_0000 && Pow2(24) == 0x100_0000
  {
    assert Pow2(1) == 2;
    hide Pow2;
    Pow2Sum(1, 1);
    Pow2Sum(2, 2);
    Pow2Sum(4, 4);
    Pow2Sum(8, 8);
    Pow2Sum(16, 8);
    Pow2Sum(16, 16);
  }

  lemma BaseNext(n: nat)
    ensures Base(n + 1) == B * Base(n)
  {
    WordSize();
    Pow2Sum(32 * n, 32);
  }

  lemma BaseSum(m: nat, n: nat)
    ensures Base(m + n) == Base(m) * Base(n)
  {
    Pow2Sum(32 * m, 32 * n);
    assert 32 * (m + n) == 32 * m + 32 * n;
  }

  lemma ValNext(l: seq<nat>, i: nat)
    requires i < |l|
    ensures Val(l[..i + 1]) == Val(l[..i]) + l[i] * Base(i)
  {
    assert l[..i + 1][..i] == l[..i];
  }

  lemma {:induction false} ValRange(l: seq<nat>)
    requires Ok(l)
    ensures Val(l) < Base(|l|)
  {
    if l != [] {
      var n := |l| - 1;
      ValRange(l[..n]);
      BaseNext(n);
      MulMonotone(l[n], B - 1, Base(n));
      Distribute(B, 1, Base(n));
    }
  }

  lemma Distribute(a: int, b: int, c: int)
    ensures (a - b) * c == a * c - b * c && (a + b) * c == a * c + b * c
  {
  }

  lemma {:induction false} ValConcat(a: seq<nat>, b: seq<nat>)
    ensures Val(a + b) == Val(a) + Val(b) * Base(|a|)
    decreases |b|
  {
    if b == [] {
      assert a + b == a;
    } else {
      var n := |b| - 1;
      ValConcat(a, b[..n]);
      assert (a + b)[..|a + b| - 1] == a + b[..n];
      BaseSum(|a|, n);
      Regroup(Val(b[..n]), b[n], Base(n), Base(|a|));
    }
  }

  lemma Regroup(v: int, x: int, p: int, q: int)
    ensures (v + x * p) * q == v * q + x * (q * p)
  {
  }

  lemma {:induction false} ValZeros(l: seq<nat>)
    requires forall i :: 0 <= i < |l| ==> l[i] == 0
    ensures Val(l) == 0
  {
    if l != [] {
      ValZeros(l[..|l| - 1]);
    }
  }

  /** Equal values of equal length have equal limbs; the top differing limb decides the order. */
  lemma ValOrder(a: seq<nat>, b: seq<nat>, i: nat)
    requires Ok(a) && Ok(b) && |a| == |b| && i < |a| && a[i] < b[i] && a[i + 1..] == b[i + 1..]
    ensures Val(a) < Val(b)
  {
    hide Val, Base;
    assert a == a[..i + 1] + a[i + 1..] && b == b[..i + 1] + b[i + 1..];
    ValConcat(a[..i + 1], a[i + 1..]);
    ValConcat(b[..i + 1], b[i + 1..]);
    ValNext(a, i);
    ValNext(b, i);
    ValRange(a[..i]);
    TopDecides(Val(a[..i]), a[i], Val(b[..i]), b[i], Base(i));
  }

  lemma TopDecides(low: nat, x: nat, low': nat, y: nat, p: nat)
    requires low < p && x < y
    ensures low + x * p < low' + y * p
  {
    MulMonotone(x + 1, y, p);
    Distribute(x, 1, p);
  }

  // ------------------------------------------------------------ bitwise or

  /** Bitwise or of natural numbers. */
  function Or(x: nat, y: nat): nat
    decreases x + y
  {
    if x == 0 && y == 0 then 0 else 2 * Or(x / 2, y / 2) + (if x % 2 == 1 || y % 2 == 1 then 1 else 0)
  }

  lemma {:induction false} OrZero(y: nat)
    ensures Or(0, y) == y
  {
    if y != 0 {
      OrZero(y / 2);
    }
  }

  lemma {:induction false} OrCommutes(x: nat, y: nat)
    ensures Or(x, y) == Or(y, x)
    decreases x + y
  {
    if x != 0 || y != 0 {
      OrCommutes(x / 2, y / 2);
    }
  }

  /** Numbers without a common bit: or is addition. */
  lemma {:induction false} OrDisjoint(x: nat, m: nat, s: nat)
    requires x < Pow2(s)
    ensures Or(x, m * Pow2(s)) == x + m * Pow2(s) && Or(m * Pow2(s), x) == x + m * Pow2(s)
    decreases s
  {
    hide Or;
    var y := m * Pow2(s);
    OrCommutes(x, y);
    if s == 0 {
      OrZero(y);
    } else {
      assert y == 2 * (m * Pow2(s - 1));
      OrEven(x, m * Pow2(s - 1));
      OrDisjoint(x / 2, m, s - 1);
    }
  }

  lemma OrEven(x: nat, z: nat)
    ensures Or(x, 2 * z) == 2 * Or(x / 2, z) + x % 2
  {
  }
}
