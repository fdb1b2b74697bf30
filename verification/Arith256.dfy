/** The limb loops of 256-bit arithmetic, refined to arithmetic on their values. */
module Arith256 {
  import opened Powers
  import opened Limbs
  import opened LimbShifts

  const WIDTH := 8

  /** Products and carries are computed in 64 bits. */
  const U64: nat := 0x1_0000_0000_0000_0000

  /** One limb of an addition with carry. */
  lemma CarryStep(p: nat, v: nat, va: nat, vb: nat, c: nat, x: nat, y: nat)
    requires v + c * p == va + vb
    ensures v + (c + x + y) % B * p + (c + x + y) / B * (B * p) == va + x * p + (vb + y * p)
  {
    var n := c + x + y;
    var r, q := n % B, n / B;
    assert n == r + q * B;
    Products(p, c, x, y, r, q);
  }

  lemma Products(p: int, c: int, x: int, y: int, r: int, q: int)
    requires c + x + y == r + q * B
    ensures c * p + x * p + y * p == r * p + q * (B * p)
  {
    assert (c + x + y) * p == c * p + x * p + y * p;
    assert (r + q * B) * p == r * p + q * B * p;
    assert q * B * p == q * (B * p);
  }

  /** A value that differs from a total by multiples of the modulus is its remainder. */
  lemma Wrapped(v: nat, carry: int, m: nat, t: int)
    requires v < m && v + carry * m == t
    ensures v == t % m
  {
    DivModUnique(t, m, carry, v);
  }

  class BaseUint {
    const pn: array<nat>

    ghost predicate Valid()
      reads pn
    {
      pn.Length == WIDTH && Ok(pn[..])
    }

    ghost function Value(): nat
      reads pn
    {
      Val(pn[..])
    }

    constructor (b: seq<nat>)
      requires |b| == WIDTH && Ok(b)
      ensures Valid() && pn[..] == b && fresh(pn)
    {
      pn := new nat[WIDTH](i requires 0 <= i < WIDTH => b[i]);
    }

    method Add(b: seq<nat>)
      requires Valid() && |b| == WIDTH && Ok(b)
      modifies pn
      ensures Valid() && Value() == (old(Value()) + Val(b)) % Base(WIDTH)
    {
      hide Val, Base;
      ghost var a := pn[..];
      var carry := 0;
      Empty(a, b);
      for i := 0 to WIDTH
        invariant Ok(pn[..]) && pn[i..] == a[i..] && 0 <= carry <= 1
        invariant Val(pn[..i]) + carry * Base(i) == Val(a[..i]) + Val(b[..i])
      {
        var n := carry + pn[i] + b[i];
        CarryStep(Base(i), Val(pn[..i]), Val(a[..i]), Val(b[..i]), carry, pn[i], b[i]);
        ghost var before := pn[..i];
        pn[i] := n % B;
        carry := n / B;
        assert pn[..i] == before && a[i] == a[i..][0];
        ValNext(pn[..], i);
        ValNext(a, i);
        ValNext(b, i);
        BaseNext(i);
        assert pn[..][..i + 1] == pn[..i + 1] && pn[..][..i] == pn[..i];
      }
      assert pn[..WIDTH] == pn[..] && a[..WIDTH] == a && b[..WIDTH] == b;
      ValRange(pn[..]);
      Wrapped(Val(pn[..]), carry, Base(WIDTH), Val(a) + Val(b));
    }

    lemma Empty(a: seq<nat>, b: seq<nat>)
      ensures Val(a[..0]) == 0 && Val(b[..0]) == 0 && Val([]) == 0 && Base(0) == 1
    {
    }

    method Increment()
      requires Valid()
      modifies pn
      ensures Valid() && Value() == (old(Value()) + 1) % Base(WIDTH)
    {
      hide Val, Base;
      ghost var a := pn[..];
      var i := 0;
      Empty(a, a);
      CarryStep(Base(0), 0, 0, 1, 1, pn[0], 0);
      pn[0] := (pn[0] + 1) % B;
      ValNext(pn[..], 0);
      ValNext(a, 0);
      BaseNext(0);
      assert pn[..][..1] == pn[..1];
      assert pn[..][..0] == [] && a[..0] == [];
      while pn[i] == 0 && i < WIDTH - 1
        invariant 0 <= i < WIDTH && Ok(pn[..]) && pn[i + 1..] == a[i + 1..]
        invariant Val(pn[..i + 1]) + (if pn[i] == 0 then 1 else 0) * Base(i + 1) == Val(a[..i + 1]) + 1
        decreases WIDTH - i
      {
        i := i + 1;
        assert pn[i] == pn[i..][0] == a[i..][0] == a[i];
        CarryStep(Base(i), Val(pn[..i]), Val(a[..i]), 1, 1, pn[i], 0);
        ghost var before := pn[..i];
        pn[i] := (pn[i] + 1) % B;
        assert pn[..i] == before;
        ValNext(pn[..], i);
        ValNext(a, i);
        BaseNext(i);
        assert pn[..][..i + 1] == pn[..i + 1] && pn[..][..i] == pn[..i];
      }
      assert pn[..] == pn[..i + 1] + pn[i + 1..] && a == a[..i + 1] + a[i + 1..];
      ValConcat(pn[..i + 1], pn[i + 1..]);
      ValConcat(a[..i + 1], a[i + 1..]);
      ValRange(pn[..]);
      if pn[i] == 0 {
        assert pn[..] == pn[..i + 1] && a == a[..i + 1];
        Wrapped(Val(pn[..]), 1, Base(WIDTH), Val(a) + 1);
      } else {
        Wrapped(Val(pn[..]), 0, Base(WIDTH), Val(a) + 1);
      }
    }

    /** The bitwise complement of an operand. */
    static method Complement(b: seq<nat>) returns (ret: seq<nat>)
      requires |b| == WIDTH && Ok(b)
      ensures |ret| == WIDTH && Ok(ret) && Val(ret) == Base(WIDTH) - 1 - Val(b)
    {
      hide Val, Base;
      ret := [];
      Nothing(b);
      for i := 0 to WIDTH
        invariant |ret| == i && Ok(ret) && Val(ret) + Val(b[..i]) == Base(i) - 1
      {
        ghost var before := ret;
        ret := ret + [B - 1 - b[i]];
        assert ret[..i] == before && ret[..i + 1] == ret;
        ValNext(ret, i);
        ValNext(b, i);
        BaseNext(i);
        Distribute(B, 1 + b[i], Base(i));
        Distribute(1, b[i], Base(i));
      }
      assert b[..WIDTH] == b;
    }

    static lemma Nothing(b: seq<nat>)
      ensures Val(b[..0]) == 0 && Val([]) == 0 && Base(0) == 1
    {
    }

    /** The negation: complement plus one. */
    static method Negate(b: seq<nat>) returns (ret: seq<nat>)
      requires |b| == WIDTH && Ok(b)
      ensures |ret| == WIDTH && Ok(ret) && Val(ret) == (Base(WIDTH) - Val(b)) % Base(WIDTH)
    {
      hide Val, Base;
      var c := Complement(b);
      var r := new BaseUint(c);
      r.Increment();
      ret := r.pn[..];
    }

    method Subtract(b: seq<nat>)
      requires Valid() && |b| == WIDTH && Ok(b)
      modifies pn
      ensures Valid() && Value() == (old(Value()) - Val(b)) % Base(WIDTH)
      ensures old(Value()) >= Val(b) ==> Value() == old(Value()) - Val(b)
    {
      hide Val, Base;
      var n := Negate(b);
      ghost var a := Val(pn[..]);
      ValRange(b);
      ValRange(pn[..]);
      Add(n);
      Negated(a, Val(b), Base(WIDTH));
    }

    static lemma Negated(a: nat, b: nat, m: nat)
      requires b < m && a < m
      ensures (a + (m - b) % m) % m == (a - b) % m && (a >= b ==> (a - b) % m == a - b)
    {
      if b == 0 {
        DivModUnique(m, m, 1, 0);
      } else {
        DivModUnique(m - b, m, 0, m - b);
        assert (a - b) + 1 * m == a + (m - b);
        Shifted(a - b, m);
      }
      if a >= b {
        DivModUnique(a - b, m, 0, a - b);
      }
    }

    static lemma Shifted(t: int, m: nat)
      requires m > 0
      ensures (t + m) % m == t % m
    {
      var q, r := t / m, t % m;
      Distribute(q, 1, m);
      DivModUnique(t + m, m, q + 1, r);
    }

    /** Compares from the highest limb down. */
    static method CompareTo(a: seq<nat>, b: seq<nat>) returns (c: int)
      requires |a| == |b| == WIDTH && Ok(a) && Ok(b)
      ensures c == -1 || c == 0 || c == 1
      ensures (c == -1 <==> Val(a) < Val(b)) && (c == 0 <==> Val(a) == Val(b)) && (c == 0 <==> a == b)
    {
      hide Val;
      var i := WIDTH - 1;
      while i >= 0
        invariant -1 <= i < WIDTH && a[i + 1..] == b[i + 1..]
      {
        if a[i] < b[i] {
          ValOrder(a, b, i);
          return -1;
        }
        if a[i] > b[i] {
          ValOrder(b, a, i);
          return 1;
        }
        assert a[i..] == [a[i]] + a[i + 1..] && b[i..] == [b[i]] + b[i + 1..];
        i := i - 1;
      }
      assert a == a[0..] && b == b[0..];
      c := 0;
    }

    /** The number of bits of a value. */
    static ghost predicate BitLength(v: nat, n: nat) {
      if v == 0 then n == 0 else n >= 1 && Pow2(n - 1) <= v < Pow2(n)
    }

    static method Bits(a: seq<nat>) returns (n: nat)
      requires |a| == WIDTH && Ok(a)
      ensures BitLength(Val(a), n) && n <= 256
    {
      hide Val, Base, Pow2;
      var pos := WIDTH - 1;
      Nothing(a[WIDTH..]);
      assert a[WIDTH..] == a[..0];
      while pos >= 0
        invariant -1 <= pos < WIDTH && forall i :: pos < i < WIDTH ==> a[i] == 0
      {
        if a[pos] != 0 {
          WordSize();
          var bits := 31;
          while bits > 0
            invariant 0 <= bits <= 31 && a[pos] < Pow2(bits + 1)
          {
            if a[pos] / Pow2(bits) % 2 == 1 {
              TopBit(a[pos], bits);
              TopLimb(a, pos, bits);
              return 32 * pos + bits + 1;
            }
            NoTopBit(a[pos], bits);
            bits := bits - 1;
          }
          One();
          TopLimb(a, pos, 0);
          return 32 * pos + 1;
        }
        pos := pos - 1;
      }
      ValZeros(a);
      return 0;
    }

    static lemma One()
      ensures Pow2(0) == 1
    {
    }

    static lemma TopBit(x: nat, k: nat)
      requires x / Pow2(k) % 2 == 1
      ensures Pow2(k) <= x
    {
      if x < Pow2(k) {
        DivModUnique(x, Pow2(k), 0, x);
      }
    }

    static lemma NoTopBit(x: nat, k: nat)
      requires x / Pow2(k) % 2 != 1 && x < Pow2(k + 1)
      ensures x < Pow2(k)
    {
      if x >= Pow2(k) {
        DivModUnique(x, Pow2(k), 1, x - Pow2(k));
      }
    }

    static lemma TopLimb(a: seq<nat>, pos: nat, k: nat)
      requires Ok(a) && pos < |a| && k < 32 && Pow2(k) <= a[pos] < Pow2(k + 1)
      requires forall i :: pos < i < |a| ==> a[i] == 0
      ensures Pow2(32 * pos + k) <= Val(a) < Pow2(32 * pos + k + 1)
    {
      hide Val, Pow2, Base;
      assert a == a[..pos + 1] + a[pos + 1..];
      ValConcat(a[..pos + 1], a[pos + 1..]);
      ValZeros(a[pos + 1..]);
      ValNext(a, pos);
      ValRange(a[..pos]);
      BaseBits(pos, k);
      BaseBits(pos, k + 1);
      Between(Val(a[..pos]), a[pos], Base(pos), Pow2(k), Pow2(k + 1));
    }

    static lemma BaseBits(pos: nat, k: nat)
      ensures Pow2(32 * pos + k) == Pow2(k) * Base(pos)
    {
      Pow2Sum(32 * pos, k);
    }

    static lemma Between(low: nat, x: nat, p: nat, least: nat, limit: nat)
      requires low < p && least <= x < limit
      ensures least * p <= low + x * p < limit * p
    {
      MulMonotone(least, x, p);
      MulMonotone(x + 1, limit, p);
      Distribute(x, 1, p);
    }

    /** Slot j while limbs are being shifted up by s bits and k limbs, i of them done. */
    static function PartlyUp(a: seq<nat>, s: nat, k: nat, i: nat, j: nat): nat
      requires |a| == WIDTH && s < 32 && i <= WIDTH && j < WIDTH
    {
      if j < k then 0
      else if j - k < i then UpLimb(a, s, j - k)
      else if j - k == i then Moved(a, s, i) else 0
    }

    /** The two halves meeting in a slot share no bits. */
    static lemma UpMeets(a: seq<nat>, s: nat, i: nat)
      requires |a| == WIDTH && Ok(a) && s < 32 && i < WIDTH
      ensures Or(Moved(a, s, i), Low(a[i], s)) == UpLimb(a, s, i) < B
    {
      hide Low, High, Or, Pow2;
      var q := LowHigh(a[i], s);
      if i > 0 {
        var q' := LowHigh(a[i - 1], s);
      }
      OrDisjoint(Moved(a, s, i), q, s);
      HalfWords(s);
      SumFits(Moved(a, s, i), q, Pow2(s), Pow2(32 - s));
    }

    static lemma SumFits(x: nat, q: nat, t: nat, p: nat)
      requires x < t && q * t < B && p * t == B
      ensures x + q * t < B
    {
      if q >= p {
        MulMonotone(p, q, t);
      } else {
        MulMonotone(q + 1, p, t);
        Distribute(q, 1, t);
      }
    }

    static lemma MovedFits(a: seq<nat>, s: nat, i: nat)
      requires |a| == WIDTH && Ok(a) && s < 32 && i <= WIDTH
      ensures Or(0, Moved(a, s, i)) == Moved(a, s, i) < B
    {
      hide Low, High, Pow2;
      OrZero(Moved(a, s, i));
      if i > 0 {
        var q := LowHigh(a[i - 1], s);
        HalfWords(s);
        MulMonotone(1, Pow2(32 - s), Pow2(s));
      }
    }

    /** The receiver is zeroed before a shift or a product is built up in it. */
    method Clear()
      requires Valid()
      modifies pn
      ensures Valid() && forall j :: 0 <= j < WIDTH ==> pn[j] == 0
    {
      for i := 0 to WIDTH
        invariant forall j :: 0 <= j < i ==> pn[j] == 0
      {
        pn[i] := 0;
      }
    }

    method ShiftLeft(shift: nat)
      requires Valid()
      modifies pn
      ensures Valid() && Value() == old(Value()) * Pow2(shift) % Base(WIDTH)
    {
      hide Val, Base, Pow2, Or, Low, High, Moved, UpLimb;
      var a := pn[..];
      Clear();
      var k, s := shift / 32, shift % 32;
      NoneMoved(a, s);
      for i := 0 to WIDTH
        invariant Ok(pn[..]) && forall j :: 0 <= j < WIDTH ==> pn[j] == PartlyUp(a, s, k, i, j)
      {
        MovedFits(a, s, i + 1);
        UpMeets(a, s, i);
        MovedIs(a, s, i);
        if i + k + 1 < WIDTH && s != 0 {
          pn[i + k + 1] := Or(pn[i + k + 1], High(a[i], s));
        }
        if i + k < WIDTH {
          pn[i + k] := Or(pn[i + k], Low(a[i], s));
        }
      }
      assert k <= WIDTH ==> IsUp(a, s, pn[..][k..]);
      UpWrapped(a, s, k, pn[..]);
    }

    static lemma NoneMoved(a: seq<nat>, s: nat)
      requires s < 32
      ensures Moved(a, s, 0) == 0
    {
    }

    static lemma MovedIs(a: seq<nat>, s: nat, i: nat)
      requires i < |a| && s < 32
      ensures Moved(a, s, i + 1) == High(a[i], s) && (s == 0 ==> High(a[i], s) == 0)
    {
    }

    /** Slot j while limbs are being shifted down, i of them done. */
    static function PartlyDown(a: seq<nat>, s: nat, k: nat, i: nat, j: nat): nat
      requires |a| == WIDTH && s < 32 && i <= WIDTH && j < WIDTH
    {
      if j + k >= i then 0
      else if j + k + 1 < i then Kept(a[j + k], s) + Lowered(a[j + k + 1], s)
      else Kept(a[j + k], s)
    }

    static lemma DownMeets(x: nat, y: nat, s: nat)
      requires x < B && y < B && s < 32
      ensures Or(Kept(x, s), Lowered(y, s)) == Kept(x, s) + Lowered(y, s) < B
      ensures Or(0, Kept(x, s)) == Kept(x, s) < B
      ensures s == 0 ==> Lowered(y, s) == 0
    {
      hide Kept, Dropped, Lowered, Or, Pow2;
      KeptDropped(x, s);
      KeptDropped(y, s);
      OrDisjoint(Kept(x, s), Dropped(y, s), 32 - s);
      OrZero(Kept(x, s));
      HalfWords(s);
      LoweredFits(y, s);
      assert Pow2(s) * Pow2(32 - s) == Pow2(32 - s) * Pow2(s);
      SumFits(Kept(x, s), Dropped(y, s), Pow2(32 - s), Pow2(s));
    }

    static lemma LoweredFits(y: nat, s: nat)
      requires s < 32
      ensures Lowered(y, s) < B && (s == 0 ==> Lowered(y, s) == 0)
    {
    }

    method ShiftRight(shift: nat)
      requires Valid()
      modifies pn
      ensures Valid() && Value() == old(Value()) / Pow2(shift)
    {
      hide Val, Base, Pow2, Or, Kept, Lowered;
      var a := pn[..];
      Clear();
      var k, s := shift / 32, shift % 32;
      for i := 0 to WIDTH
        invariant Ok(pn[..]) && forall j :: 0 <= j < WIDTH ==> pn[j] == PartlyDown(a, s, k, i, j)
      {
        DownMeets(if i > 0 then a[i - 1] else 0, a[i], s);
        DownMeets(a[i], 0, s);
        if i - k - 1 >= 0 && s != 0 {
          pn[i - k - 1] := Or(pn[i - k - 1], Lowered(a[i], s));
        }
        if i - k >= 0 {
          pn[i - k] := Or(pn[i - k], Kept(a[i], s));
        }
      }
      DownDone(a, s, k, pn[..]);
    }

    static lemma DownDone(a: seq<nat>, s: nat, k: nat, l: seq<nat>)
      requires |a| == WIDTH && Ok(a) && s < 32 && |l| == WIDTH && Ok(l)
      requires forall j :: 0 <= j < WIDTH ==> l[j] == PartlyDown(a, s, k, WIDTH, j)
      ensures Val(l) == Val(a) / Pow2(32 * k + s)
    {
      hide Val, Base, Pow2, Kept, Lowered;
      assert k <= WIDTH ==> IsDown(a[k..], s, l[..WIDTH - k]);
      DownWhole(a, s, k, l);
    }

    // -------------------------------------------------------------- division

    /** A limb of a multiple of a power of two is a multiple of what falls into that limb. */
    static lemma LimbMultiple(l: seq<nat>, p: nat, t: nat, m: nat) returns (q: nat)
      requires Ok(l) && p < |l| && t < 32 && Val(l) == m * Pow2(32 * p + t + 1)
      ensures l[p] == q * Pow2(t + 1)
    {
      hide Val, Base, Pow2;
      var x, h := l[p], Val(l[p + 1..]);
      assert l == l[..p + 1] + l[p + 1..];
      ValConcat(l[..p + 1], l[p + 1..]);
      ValNext(l, p);
      ValRange(l[..p]);
      BaseNext(p);
      ShiftAmount(p, t + 1);
      HalfWords(t + 1);
      TopOf(Val(l), Val(l[..p]), x, h, Base(p));
      Scaled(m, Pow2(t + 1), Base(p));
      Same(Val(l), Base(p), x + h * B, Val(l[..p]), m * Pow2(t + 1));
      var r := Pow2(31 - t);
      Taken(x, h, m, Pow2(t + 1), r);
      q := m - h * r;
    }

    static lemma TopOf(v: int, low: int, x: int, h: int, p: int)
      requires v == low + x * p + h * (B * p)
      ensures v == low + (x + h * B) * p
    {
      assert h * (B * p) == h * B * p;
    }

    static lemma Scaled(m: int, t: int, p: int)
      ensures m * (t * p) == m * t * p
    {
    }

    static lemma Same(v: nat, p: nat, q: nat, r: nat, q': nat)
      requires p >= 1 && v == r + q * p && r < p && v == q' * p
      ensures q == q'
    {
      DivModUnique(v, p, q, r);
      DivModUnique(v, p, q', 0);
    }

    static lemma Taken(x: nat, h: nat, m: nat, t: nat, r: nat)
      requires x + h * B == m * t && r * t == B && t >= 1
      ensures x == (m - h * r) * t && m - h * r >= 0
    {
      assert h * B == h * r * t;
      assert (m - h * r) * t == m * t - h * r * t;
      if m - h * r < 0 {
        MulMonotone(m - h * r, -1, t);
      }
    }

    /** Sets a bit that is not set yet. */
    method SetBit(shift: nat, ghost m: nat)
      requires Valid() && shift < 256 && Value() == m * Pow2(shift + 1)
      modifies pn
      ensures Valid() && Value() == old(Value()) + Pow2(shift)
    {
      hide Val, Base, Pow2, Or;
      var p, t := shift / 32, shift % 32;
      ghost var l := pn[..];
      ghost var q := LimbMultiple(l, p, t, m);
      BitFits(q, t, l[p]);
      pn[p] := Or(pn[p], Pow2(t));
      assert pn[..] == l[p := l[p] + Pow2(t)];
      Replaced(l, p, Pow2(t));
      ShiftAmount(p, t);
    }

    static lemma BitFits(q: nat, t: nat, x: nat)
      requires t < 32 && x == q * Pow2(t + 1) && x < B
      ensures Or(x, Pow2(t)) == x + Pow2(t) < B
    {
      assert Pow2(t) < Pow2(t + 1);
      OrDisjoint(Pow2(t), q, t + 1);
      HalfWords(t + 1);
      hide Pow2;
      SumFits(Pow2(t), q, Pow2(t + 1), Pow2(31 - t));
    }

    /** Adding to one limb adds at its weight. */
    static lemma Replaced(l: seq<nat>, p: nat, y: nat)
      requires p < |l|
      ensures Val(l[p := l[p] + y]) == Val(l) + y * Base(p)
    {
      hide Val, Base;
      var r := l[p := l[p] + y];
      assert l == l[..p + 1] + l[p + 1..] && r == r[..p + 1] + r[p + 1..] && l[p + 1..] == r[p + 1..]
             && l[..p] == r[..p];
      ValConcat(l[..p + 1], l[p + 1..]);
      ValConcat(r[..p + 1], r[p + 1..]);
      ValNext(l, p);
      ValNext(r, p);
      Distribute(l[p], y, Base(p));
    }

    /** The state of the division loop: what is left is below the divisor at the current place. */
    static ghost predicate Dividing(n: nat, d: nat, num: nat, q: nat, m: nat, e: nat) {
      q * d + num == n && q == m * (2 * e) && num < d * (2 * e)
    }

    /** One place of the quotient. */
    static lemma DividingStep(n: nat, d: nat, num: nat, q: nat, m: nat, e: nat)
      requires Dividing(n, d, num, q, m, e)
      ensures num >= d * e ==> (q + e) * d + (num - d * e) == n && q + e == (2 * m + 1) * e && num - d * e < d * e
      ensures num < d * e ==> q * d + num == n && q == 2 * m * e
    {
      assert (q + e) * d == q * d + d * e;
      assert m * (2 * e) == 2 * m * e;
      assert (2 * m + 1) * e == 2 * m * e + e;
      assert d * (2 * e) == d * e + d * e;
    }

    /** Lining up the divisor with the dividend does not overflow, and one bit more would exceed it. */
    static lemma Aligned(n: nat, nBits: nat, d: nat, dBits: nat)
      requires BitLength(n, nBits) && BitLength(d, dBits) && d > 0 && nBits <= 256
      ensures dBits > nBits ==> n < d
      ensures dBits <= nBits ==>
                d * Pow2(nBits - dBits) < Base(WIDTH) && n < d * (2 * Pow2(nBits - dBits))
    {
      if dBits > nBits {
        Pow2Monotone(nBits, dBits - 1);
      } else {
        AlignedAt(n, nBits, d, dBits, Pow2(nBits - dBits));
      }
    }

    static lemma AlignedAt(n: nat, nBits: nat, d: nat, dBits: nat, e: nat)
      requires BitLength(n, nBits) && BitLength(d, dBits) && d > 0 && dBits <= nBits <= 256 && e == Pow2(nBits - dBits)
      ensures d * e < Base(WIDTH) && n < d * (2 * e)
    {
      assert Pow2(nBits - dBits + 1) == 2 * e && Base(WIDTH) == Pow2(256);
      hide Pow2, Base;
      Pow2Sum(dBits, nBits - dBits);
      Pow2Sum(dBits - 1, nBits - dBits + 1);
      Pow2Monotone(nBits, 256);
      MulMonotone(d + 1, Pow2(dBits), e);
      Distribute(d, 1, e);
      MulMonotone(Pow2(dBits - 1), d, 2 * e);
    }

    /** Subtracts the divisor at every place where it fits, setting that bit of the quotient. */
    method DivideFrom(num: BaseUint, div: BaseUint, start: nat, ghost n: nat, ghost d: nat)
      requires Valid() && num.Valid() && div.Valid() && start < 256
      requires pn != num.pn && pn != div.pn && num.pn != div.pn
      requires Dividing(n, d, num.Value(), Value(), 0, Pow2(start)) && div.Value() == d * Pow2(start)
      modifies pn, num.pn, div.pn
      ensures Valid() && num.Valid() && Value() * d + num.Value() == n && num.Value() < d
    {
      hide Val, Base, Pow2, Dividing;
      ghost var m: nat := 0;
      var shift: int := start;
      while shift >= 0
        invariant -1 <= shift < 256 && Valid() && num.Valid() && div.Valid()
        invariant shift >= 0 ==> Dividing(n, d, num.Value(), Value(), m, Pow2(shift)) && div.Value() == d * Pow2(shift)
        invariant shift < 0 ==> Value() * d + num.Value() == n && num.Value() < d
        decreases shift
      {
        m := DividePlace(num, div, shift, n, d, m);
        NextPlace(n, d, num.Value(), Value(), m, shift);
        div.ShiftRight(1);
        shift := shift - 1;
      }
    }

    method DividePlace(num: BaseUint, div: BaseUint, shift: nat, ghost n: nat, ghost d: nat, ghost m: nat)
      returns (ghost m': nat)
      requires Valid() && num.Valid() && div.Valid() && shift < 256
      requires pn != num.pn && pn != div.pn && num.pn != div.pn
      requires Dividing(n, d, num.Value(), Value(), m, Pow2(shift)) && div.Value() == d * Pow2(shift)
      modifies pn, num.pn
      ensures Valid() && num.Valid()
      ensures Value() * d + num.Value() == n && Value() == m' * Pow2(shift) && num.Value() < d * Pow2(shift)
    {
      hide Val, Base, Pow2, Dividing;
      DividingStep(n, d, num.Value(), Value(), m, Pow2(shift));
      DividingQuotient(n, d, num.Value(), Value(), m, shift);
      var c := CompareTo(num.pn[..], div.pn[..]);
      if c >= 0 {
        num.Subtract(div.pn[..]);
        SetBit(shift, m);
        m' := 2 * m + 1;
      } else {
        m' := 2 * m;
      }
    }

    /** Shift-subtract division: the exact quotient; a zero divisor is an error. */
    method Divide(b: seq<nat>) returns (ok: bool)
      requires Valid() && |b| == WIDTH && Ok(b)
      modifies pn
      ensures Valid() && (ok <==> Val(b) != 0)
      ensures ok ==> Value() == old(Value()) / Val(b)
    {
      hide Val, Base, Pow2, Dividing, BitLength;
      var a := pn[..];
      Clear();
      ValZeros(pn[..]);
      var div := new BaseUint(b);
      var num := new BaseUint(a);
      ghost var n, d := Val(a), Val(b);
      var numBits := Bits(a);
      var divBits := Bits(b);
      LengthZero(d, divBits);
      if divBits == 0 {
        return false;
      }
      Aligned(n, numBits, d, divBits);
      if divBits > numBits {
        DivModUnique(n, d, 0, n);
        return true;
      }
      var shift := numBits - divBits;
      div.ShiftLeft(shift);
      DivModUnique(d * Pow2(shift), Base(WIDTH), 0, d * Pow2(shift));
      DividingStart(n, d, Pow2(shift));
      DivideFrom(num, div, shift, n, d);
      DivModUnique(n, d, Value(), num.Value());
      ok := true;
    }

    static lemma LengthZero(d: nat, n: nat)
      requires BitLength(d, n)
      ensures n == 0 <==> d == 0
    {
    }

    static lemma DividingStart(n: nat, d: nat, e: nat)
      requires n < d * (2 * e)
      ensures Dividing(n, d, n, 0, 0, e)
    {
    }

    static lemma DividingQuotient(n: nat, d: nat, num: nat, q: nat, m: nat, shift: nat)
      requires Dividing(n, d, num, q, m, Pow2(shift))
      ensures q == m * Pow2(shift + 1)
    {
    }

    static lemma NextPlace(n: nat, d: nat, num: nat, q: nat, m: nat, shift: nat)
      requires q * d + num == n && q == m * Pow2(shift) && num < d * Pow2(shift)
      ensures shift > 0 ==>
                Dividing(n, d, num, q, m, Pow2(shift - 1)) && d * Pow2(shift) / Pow2(1) == d * Pow2(shift - 1)
      ensures shift == 0 ==> num < d
    {
      if shift > 0 {
        var e := Pow2(shift - 1);
        assert Pow2(shift) == 2 * e && Pow2(1) == 2;
        assert d * (2 * e) == 2 * (d * e);
        DivModUnique(d * (2 * e), 2, d * e, 0);
      }
    }

    // -------------------------------------------------------- multiplication

    static lemma ProductStep(p: nat, v: nat, c: nat, va: nat, m: nat, x: nat)
      requires v + c * p == va * m
      ensures v + (c + m * x) % B * p + (c + m * x) / B * (B * p) == (va + x * p) * m
    {
      var n := c + m * x;
      var r, q := n % B, n / B;
      assert (r + q * B) * p == r * p + q * (B * p);
      assert (c + m * x) * p == c * p + m * x * p;
      assert (va + x * p) * m == va * m + m * x * p;
    }

    static lemma CarryFits(c: nat, y: nat, m: nat, x: nat)
      requires c < B && y < B && m < B && x < B
      ensures 0 <= (c + y + m * x) / B < B && (c + y + m * x) % U64 == c + y + m * x
    {
      ProductSmall(m, x);
      WordQuotient(c, y, m * x);
    }

    static lemma ProductSmall(m: nat, x: nat)
      requires m < B && x < B
      ensures 0 <= m * x <= (B - 1) * (B - 1)
    {
      MulMonotone(0, m, x);
      MulMonotone(m, B - 1, x);
    }

    static lemma WordQuotient(c: nat, y: nat, p: nat)
      requires c < B && y < B && p <= (B - 1) * (B - 1)
      ensures 0 <= (c + y + p) / B < B && (c + y + p) % U64 == c + y + p
    {
    }

    /** Multiplication by one word, modulo 2^256. */
    method MultiplyWord(b32: nat)
      requires Valid() && b32 < B
      modifies pn
      ensures Valid() && Value() == old(Value()) * b32 % Base(WIDTH)
    {
      hide Val, Base;
      ghost var a := pn[..];
      var carry: nat := 0;
      Empty(a, a);
      for i := 0 to WIDTH
        invariant Ok(pn[..]) && pn[i..] == a[i..] && carry < B
        invariant Val(pn[..i]) + carry * Base(i) == Val(a[..i]) * b32
      {
        assert pn[i] == pn[i..][0] == a[i];
        var n := (carry + b32 * pn[i]) % U64;
        CarryFits(carry, 0, b32, pn[i]);
        ProductStep(Base(i), Val(pn[..i]), carry, Val(a[..i]), b32, pn[i]);
        ghost var before := pn[..i];
        pn[i] := n % B;
        carry := n / B;
        assert pn[..i] == before;
        ValNext(pn[..], i);
        ValNext(a, i);
        BaseNext(i);
        assert pn[..][..i + 1] == pn[..i + 1] && pn[..][..i] == pn[..i];
      }
      assert pn[..WIDTH] == pn[..] && a[..WIDTH] == a;
      ValRange(pn[..]);
      Wrapped(Val(pn[..]), carry, Base(WIDTH), Val(a) * b32);
    }

    static lemma RowStep(p: nat, v: nat, c: nat, vo: nat, y: nat, m: nat, x: nat, row: nat)
      requires v + c * p == vo + row
      ensures v + (c + y + m * x) % B * p + (c + y + m * x) / B * (B * p) == vo + y * p + (row + m * x * p)
    {
      var n := c + y + m * x;
      var r, q := n % B, n / B;
      assert (r + q * B) * p == r * p + q * (B * p);
      assert (c + y + m * x) * p == c * p + y * p + m * x * p;
    }

    /** The part of a row of the product that is done: a word times the first limbs, at its place. */
    static function Row(m: nat, low: nat, place: nat): nat {
      m * low * place
    }

    static lemma RowNext(m: nat, low: nat, x: nat, pi: nat, pj: nat)
      ensures Row(m, low + x * pi, pj) == Row(m, low, pj) + m * x * (pi * pj) && Row(m, 0, pj) == 0
    {
      assert m * (low + x * pi) * pj == m * low * pj + m * x * pi * pj;
      assert m * x * pi * pj == m * x * (pi * pj);
    }

    /** One limb of a row: the sum so far and the carry stand for what has been added. */
    static lemma RowAt(l: seq<nat>, l': seq<nat>, a: seq<nat>, b: seq<nat>, i: nat, j: nat, m: nat, c: nat, n: nat)
      requires |l| == |a| == |b| == WIDTH && i + j < WIDTH && l[i + j] == a[i + j] && n == c + a[i + j] + m * b[i]
      requires l' == l[i + j := n % B]
      requires Val(l[..i + j]) + c * Base(i + j) == Val(a[..i + j]) + Row(m, Val(b[..i]), Base(j))
      ensures Val(l'[..i + j + 1]) + n / B * Base(i + j + 1) == Val(a[..i + j + 1]) + Row(m, Val(b[..i + 1]), Base(j))
    {
      hide Val, Base, Row;
      var k := i + j;
      RowStep(Base(k), Val(l[..k]), c, Val(a[..k]), a[k], m, b[i], Row(m, Val(b[..i]), Base(j)));
      RowNext(m, Val(b[..i]), b[i], Base(i), Base(j));
      BaseSum(i, j);
      assert l'[..k] == l[..k];
      ValNext(l', k);
      ValNext(a, k);
      ValNext(b, i);
      BaseNext(k);
    }

    /** The limbs of the operand that a row does not reach only matter above 2^256. */
    static lemma RowCut(l: seq<nat>, a: seq<nat>, b: seq<nat>, j: nat, m: nat, c: nat) returns (t: nat)
      requires |l| == |a| == |b| == WIDTH && j < WIDTH
      requires Val(l) + c * Base(WIDTH) == Val(a) + Row(m, Val(b[..WIDTH - j]), Base(j))
      ensures Val(l) + t * Base(WIDTH) == Val(a) + Row(m, Val(b), Base(j))
    {
      hide Val, Base, Row;
      var cut := WIDTH - j;
      assert b == b[..cut] + b[cut..];
      ValConcat(b[..cut], b[cut..]);
      RowNext(m, Val(b[..cut]), Val(b[cut..]), Base(cut), Base(j));
      BaseSum(cut, j);
      t := c + m * Val(b[cut..]);
      Distribute(c, m * Val(b[cut..]), Base(WIDTH));
    }

    /** Adds one word times an operand, shifted by whole limbs; what does not fit is dropped. */
    method AddRow(j: nat, m: nat, b: seq<nat>) returns (ghost t: nat)
      requires Valid() && |b| == WIDTH && Ok(b) && j < WIDTH && m < B
      modifies pn
      ensures Valid() && Value() + t * Base(WIDTH) == old(Value()) + Row(m, Val(b), Base(j))
    {
      hide Val, Base, Row;
      ghost var a := pn[..];
      var carry: nat := 0;
      Nothing(b);
      RowNext(m, 0, 0, 0, Base(j));
      for i := 0 to WIDTH - j
        invariant Ok(pn[..]) && carry < B && forall k :: i + j <= k < WIDTH ==> pn[k] == a[k]
        invariant Val(pn[..][..i + j]) + carry * Base(i + j) == Val(a[..i + j]) + Row(m, Val(b[..i]), Base(j))
      {
        ghost var l := pn[..];
        var n := (carry + pn[i + j] + m * b[i]) % U64;
        CarryFits(carry, pn[i + j], m, b[i]);
        pn[i + j] := n % B;
        assert pn[..] == l[i + j := pn[i + j]];
        RowAt(l, pn[..], a, b, i, j, m, carry, n);
        carry := n / B;
      }
      assert pn[..][..WIDTH] == pn[..] && a[..WIDTH] == a;
      t := RowCut(pn[..], a, b, j, m, carry);
    }

    static lemma RowsSum(va: nat, x: nat, p: nat, vb: nat)
      ensures (va + x * p) * vb == va * vb + Row(x, vb, p)
    {
      assert x * p * vb == x * vb * p;
    }

    /** Schoolbook multiplication modulo 2^256, for an operand other than the receiver. */
    method Multiply(b: seq<nat>)
      requires Valid() && |b| == WIDTH && Ok(b)
      modifies pn
      ensures Valid() && Value() == old(Value()) * Val(b) % Base(WIDTH)
    {
      hide Val, Base, Row;
      var a := pn[..];
      Clear();
      ValZeros(pn[..]);
      Nothing(a);
      ghost var t: nat := 0;
      for j := 0 to WIDTH
        invariant Valid() && Val(pn[..]) + t * Base(WIDTH) == Val(a[..j]) * Val(b)
      {
        ghost var u := AddRow(j, a[j], b);
        ValNext(a, j);
        RowsSum(Val(a[..j]), a[j], Base(j), Val(b));
        Distribute(t, u, Base(WIDTH));
        t := t + u;
      }
      assert a[..WIDTH] == a;
      ValRange(pn[..]);
      Wrapped(Val(pn[..]), t, Base(WIDTH), Val(a) * Val(b));
    }

    /** One row of a product with an operand that is the receiver itself, after it was cleared. */
    method AddOwnRow(j: nat, m: nat)
      requires Valid() && j < WIDTH && forall k :: 0 <= k < WIDTH ==> pn[k] == 0
      modifies pn
      ensures Valid() && forall k :: 0 <= k < WIDTH ==> pn[k] == 0
    {
      var carry := 0;
      for i := 0 to WIDTH - j
        invariant carry == 0 && forall k :: 0 <= k < WIDTH ==> pn[k] == 0
      {
        TimesZero(m, pn[i]);
        var n := (carry + pn[i + j] + m * pn[i]) % U64;
        assert n == 0;
        pn[i + j] := n % B;
        carry := n / B;
      }
    }

    static lemma TimesZero(x: nat, y: nat)
      requires y == 0
      ensures x * y == 0
    {
    }

    /** Multiplying a number by itself in place: the operand is cleared with the receiver, and the result is zero. */
    method MultiplySelf()
      requires Valid()
      modifies pn
      ensures Valid() && Value() == 0
    {
      hide Val, Base;
      var a := pn[..];
      Clear();
      for j := 0 to WIDTH
        invariant Valid() && forall k :: 0 <= k < WIDTH ==> pn[k] == 0
      {
        AddOwnRow(j, a[j]);
      }
      ValZeros(pn[..]);
    }
  }
}
