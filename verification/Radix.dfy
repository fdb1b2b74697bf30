/** Big-endian digit strings in any base, and multiplying one in place. */
module Radix {
  import opened Powers

  function Pow(b: nat, n: nat): nat {
    if n == 0 then 1 else b * Pow(b, n - 1)
  }

  lemma {:induction false} PowPositive(b: nat, n: nat)
    requires b >= 1
    ensures Pow(b, n) >= 1
  {
    if n > 0 {
      PowPositive(b, n - 1);
      MulMonotone(1, b, Pow(b, n - 1));
    }
  }

  lemma {:induction false} PowSum(b: nat, m: nat, n: nat)
    ensures Pow(b, m + n) == Pow(b, m) * Pow(b, n)
    decreases m
  {
    if m > 0 {
      PowSum(b, m - 1, n);
      Associate(b, Pow(b, m - 1), Pow(b, n));
    }
  }

  lemma Associate(a: int, b: int, c: int)
    ensures a * (b * c) == a * b * c && a * b == b * a
  {
  }

  lemma {:induction false} PowMonotone(b: nat, m: nat, n: nat)
    requires b >= 1 && m <= n
    ensures Pow(b, m) <= Pow(b, n)
    decreases n
  {
    if m < n {
      PowMonotone(b, m, n - 1);
      MulMonotone(1, b, Pow(b, n - 1));
    }
  }

  // ----------------------------------------------------------------- values

  function Value(s: seq<nat>, base: nat): nat {
    if s == [] then 0 else Value(s[..|s| - 1], base) * base + s[|s| - 1]
  }

  ghost predicate InBase(s: seq<nat>, base: nat) {
    forall i :: 0 <= i < |s| ==> s[i] < base
  }

  ghost predicate Canonical(s: seq<nat>, base: nat) {
    InBase(s, base) && (s != [] ==> s[0] != 0)
  }

  lemma Digit(v: nat, d: nat, base: nat, p: nat)
    requires v < p && d < base
    ensures v * base + d < base * p
  {
    MulMonotone(v + 1, p, base);
    Associate(base, p, 0);
    assert (v + 1) * base == v * base + base;
  }

  lemma {:induction false} ValueRange(s: seq<nat>, base: nat)
    requires InBase(s, base) && base >= 1
    ensures Value(s, base) < Pow(base, |s|)
  {
    if s != [] {
      var n := |s| - 1;
      ValueRange(s[..n], base);
      Digit(Value(s[..n], base), s[n], base, Pow(base, n));
    }
  }

  lemma {:induction false} ValueZeros(s: seq<nat>, base: nat)
    requires forall i :: 0 <= i < |s| ==> s[i] == 0
    ensures Value(s, base) == 0
  {
    if s != [] {
      ValueZeros(s[..|s| - 1], base);
    }
  }

  lemma {:induction false} ValueConcat(a: seq<nat>, b: seq<nat>, base: nat)
    ensures Value(a + b, base) == Value(a, base) * Pow(base, |b|) + Value(b, base)
    decreases |b|
  {
    if b == [] {
      assert a + b == a;
    } else {
      var n := |b| - 1;
      ValueConcat(a, b[..n], base);
      assert (a + b)[..|a + b| - 1] == a + b[..n];
      Horner(Value(a, base), Pow(base, n), Value(b[..n], base), base);
    }
  }

  lemma Horner(x: int, p: int, y: int, base: int)
    ensures (x * p + y) * base == x * (base * p) + y * base
  {
  }

  /** The digits of a number without leading zeros. */
  function Digits(v: nat, base: nat): (s: seq<nat>)
    requires base >= 2
    decreases v
  {
    if v == 0 then [] else
      Smaller(v, base);
      Digits(v / base, base) + [v % base]
  }

  lemma Smaller(v: nat, base: nat)
    requires v > 0 && base >= 2
    ensures 0 <= v / base < v && 0 <= v % base < base && v == v / base * base + v % base
  {
    if v / base >= v {
      MulMonotone(v, v / base, base);
      MulMonotone(2, base, v);
    }
  }

  lemma {:induction false} DigitsValue(v: nat, base: nat)
    requires base >= 2
    ensures Value(Digits(v, base), base) == v && Canonical(Digits(v, base), base)
    decreases v
  {
    if v > 0 {
      Smaller(v, base);
      var high := Digits(v / base, base);
      DigitsValue(v / base, base);
      assert Digits(v, base)[..|high|] == high;
    }
  }

  /** A number has one canonical digit string. */
  lemma {:induction false} DigitsUnique(s: seq<nat>, base: nat)
    requires base >= 2 && Canonical(s, base)
    ensures Digits(Value(s, base), base) == s
    decreases |s|
  {
    if s != [] {
      var n := |s| - 1;
      var v, d := Value(s[..n], base), s[n];
      DigitsUnique(s[..n], base);
      DivModUnique(v * base + d, base, v, d);
      NonZero(s, base);
    }
  }

  lemma {:induction false} NonZero(s: seq<nat>, base: nat)
    requires base >= 2 && Canonical(s, base) && s != []
    ensures Value(s, base) > 0
    decreases |s|
  {
    var n := |s| - 1;
    if n > 0 {
      NonZero(s[..n], base);
      MulMonotone(1, Value(s[..n], base), base);
    }
  }

  /** Dropping leading zeros leaves the canonical digits. */
  lemma DropZeros(s: seq<nat>, k: nat, base: nat)
    requires base >= 2 && InBase(s, base) && k <= |s| && (forall i :: 0 <= i < k ==> s[i] == 0)
             && (k < |s| ==> s[k] != 0)
    ensures s[k..] == Digits(Value(s, base), base)
  {
    assert s == s[..k] + s[k..];
    ValueConcat(s[..k], s[k..], base);
    ValueZeros(s[..k], base);
    DigitsUnique(s[k..], base);
  }

  // ------------------------------------------------------- in-place multiply

  /** A product, kept as a unit where only its arguments matter. */
  function Times(x: nat, y: nat): nat {
    x * y
  }

  lemma CarryDigit(t: nat, carry: nat, p: nat, old': nat, mult: nat, c0: nat, x: nat, base: nat, d: nat, q: nat)
    requires t + Times(carry, p) == Times(old', mult) + c0 && carry + mult * x == q * base + d
    ensures Times(d, p) + t + Times(q, Times(base, p)) == Times(Times(x, p) + old', mult) + c0
  {
    assert (carry + mult * x) * p == carry * p + mult * x * p;
    assert (q * base + d) * p == q * (base * p) + d * p;
    assert (x * p + old') * mult == mult * x * p + old' * mult;
  }

  /** A carry left over would make the number too large for the buffer. */
  lemma NoCarry(t: nat, carry: nat, p: nat, v: nat)
    requires t + Times(carry, p) == v && v < p
    ensures carry == 0
  {
    if carry > 0 {
      MulMonotone(1, carry, p);
    }
  }

  lemma Quotient(x: nat, base: nat)
    requires base >= 2
    ensures 0 <= x / base <= x && 0 <= x % base < base && x == x / base * base + x % base
  {
    if x > 0 {
      Smaller(x, base);
    }
  }

  /**
    Multiplies the number in the buffer by `mult` and adds `c0`, touching only as many digits
    from the end as are in use or needed. The buffer is large enough, so no carry is left.
  */
  method MultiplyAdd(buf: array<nat>, length: nat, base: nat, mult: nat, c0: nat) returns (i: nat)
    requires base >= 2 && length <= buf.Length && InBase(buf[..], base)
    requires forall k :: 0 <= k < buf.Length - length ==> buf[k] == 0
    requires Times(Value(buf[..], base), mult) + c0 < Pow(base, buf.Length)
    modifies buf
    ensures InBase(buf[..], base) && Value(buf[..], base) == Times(old(Value(buf[..], base)), mult) + c0
    ensures i <= buf.Length && forall k :: 0 <= k < buf.Length - i ==> buf[k] == 0
  {
    hide Value, Pow, Times;
    var n := buf.Length;
    ghost var s := buf[..];
    var carry: nat := c0;
    i := 0;
    assert s[n..] == [] && buf[n..] == [];
    Empties(base);
    TimesOne(carry, mult);
    while (carry != 0 || i < length) && i < n
      invariant i <= n && InBase(buf[..], base) && buf[..n - i] == s[..n - i]
      invariant Value(buf[n - i..], base) + Times(carry, Pow(base, i)) == Times(Value(s[n - i..], base), mult) + c0
    {
      var j := n - 1 - i;
      assert buf[j] == buf[..n - i][j] == s[j];
      ghost var tail := buf[j + 1..];
      var sum := carry + mult * buf[j];
      Quotient(sum, base);
      MultiplyDigit(s, j, tail, carry, base, mult, c0);
      buf[j] := sum % base;
      carry := sum / base;
      assert buf[j..] == [buf[j]] + tail;
      i := i + 1;
    }
    ghost var pre, low := s[..n - i], buf[n - i..];
    assert buf[..] == pre + low;
    UnusedZeros(s, i, length, base);
    Finished(pre, low, carry, base, Times(Value(s, base), mult) + c0);
    assert carry == 0;
  }

  /** One digit of the product. */
  lemma MultiplyDigit(s: seq<nat>, j: nat, tail: seq<nat>, carry: nat, base: nat, mult: nat, c0: nat)
    requires base >= 2 && j < |s| && |tail| == |s| - j - 1
    requires Value(tail, base) + Times(carry, Pow(base, |tail|)) == Times(Value(s[j + 1..], base), mult) + c0
    ensures var sum := carry + mult * s[j];
            && 0 <= sum / base && 0 <= sum % base
            && Value([sum % base] + tail, base) + Times(sum / base, Pow(base, |tail| + 1))
               == Times(Value(s[j..], base), mult) + c0
  {
    hide Value, Pow, Times;
    var sum := carry + mult * s[j];
    Quotient(sum, base);
    CarryDigit(Value(tail, base), carry, Pow(base, |tail|), Value(s[j + 1..], base), mult, c0, s[j], base, sum % base,
               sum / base);
    assert s[j..] == [s[j]] + s[j + 1..];
    FrontDigit(sum % base, tail, base);
    FrontDigit(s[j], s[j + 1..], base);
    PowNext(base, |tail|);
  }

  /** The digits in front of those in use are zero. */
  lemma UnusedZeros(s: seq<nat>, i: nat, length: nat, base: nat)
    requires i <= |s| && length <= |s| && (i >= length || i == |s|)
    requires forall k :: 0 <= k < |s| - length ==> s[k] == 0
    ensures forall k :: 0 <= k < |s| - i ==> s[k] == 0
    ensures Value(s[|s| - i..], base) == Value(s, base)
  {
    hide Value;
    var pre := s[..|s| - i];
    assert s == pre + s[|s| - i..];
    ZeroPrefix(pre, s[|s| - i..], base);
  }

  lemma Finished(pre: seq<nat>, low: seq<nat>, carry: nat, base: nat, total: nat)
    requires (forall k :: 0 <= k < |pre| ==> pre[k] == 0) && (carry == 0 || pre == [])
    requires Value(low, base) + Times(carry, Pow(base, |low|)) == total < Pow(base, |pre| + |low|)
    ensures carry == 0 && Value(pre + low, base) == total
  {
    hide Value, Pow, Times;
    Settled(Value(low, base), carry, Pow(base, |low|), total, pre == []);
    ZeroPrefix(pre, low, base);
  }

  lemma ZeroPrefix(pre: seq<nat>, low: seq<nat>, base: nat)
    requires forall k :: 0 <= k < |pre| ==> pre[k] == 0
    ensures Value(pre + low, base) == Value(low, base)
  {
    ValueZeros(pre, base);
    ValueConcat(pre, low, base);
  }

  lemma Settled(t: nat, carry: nat, p: nat, v: nat, full: bool)
    requires t + Times(carry, p) == v && (carry == 0 || full) && (full ==> v < p)
    ensures carry == 0 && t == v
  {
    if full {
      NoCarry(t, carry, p, v);
    }
  }

  lemma TimesOne(x: nat, y: nat)
    ensures Times(x, 1) == x && Times(0, y) == 0
  {
  }

  lemma Empties(base: nat)
    ensures Value([], base) == 0 && Pow(base, 0) == 1
  {
  }

  lemma PowNext(base: nat, i: nat)
    ensures Pow(base, i + 1) == Times(base, Pow(base, i))
  {
  }

  lemma FrontDigit(d: nat, tail: seq<nat>, base: nat)
    ensures Value([d] + tail, base) == Times(d, Pow(base, |tail|)) + Value(tail, base)
  {
    ValueConcat([d], tail, base);
    assert [d][..0] == [];
    assert Value([d], base) == d;
  }
}
