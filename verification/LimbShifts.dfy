/** Shifting limb sequences by less than a limb, and by whole limbs. */
module LimbShifts {
  import opened Powers
  import opened Limbs

  // -------------------------------------------------------------------- up

  function Quotient(x: nat, p: nat): nat
    requires p >= 1
  {
    x / p
  }

  /** The part of a limb shifted up by s bits that stays in the limb. */
  function Low(x: nat, s: nat): nat {
    x * Pow2(s) % B
  }

  /** The part that moves to the next limb. */
  function High(x: nat, s: nat): nat
    requires s < 32
  {
    if s == 0 then 0 else Quotient(x, Pow2(32 - s))
  }

  lemma HalfWords(s: nat)
    requires s <= 32
    ensures Pow2(32 - s) * Pow2(s) == B
  {
    WordSize();
    Pow2Sum(32 - s, s);
  }

  /** Both parts together are the shifted limb, and they occupy different bits. */
  lemma LowHigh(x: nat, s: nat) returns (q: nat)
    requires x < B && s < 32
    ensures x * Pow2(s) == Low(x, s) + High(x, s) * B
    ensures High(x, s) < Pow2(s) && Low(x, s) < B && Low(x, s) == q * Pow2(s)
  {
    if s == 0 {
      q := x;
    } else {
      HalfWords(s);
      q := ShiftedParts(x, s, Pow2(32 - s), Pow2(s));
    }
  }

  lemma ShiftedParts(x: nat, s: nat, p: nat, t: nat) returns (q: nat)
    requires x < B && 0 < s < 32 && p == Pow2(32 - s) && t == Pow2(s) && p * t == B
    ensures x * t == Low(x, s) + High(x, s) * B
    ensures High(x, s) < t && Low(x, s) < B && Low(x, s) == q * t
  {
    hide Pow2;
    assert t * p == p * t;
    DropParts(x, p, t);
    Divides(x, p);
    SplitProduct(x, x / p, x % p, p, t);
    q := x % p;
  }

  lemma SplitProduct(x: nat, h: nat, l: nat, p: nat, t: nat)
    requires x == h * p + l && p * t == B
    ensures x * t == h * B + l * t
  {
    assert (h * p + l) * t == h * p * t + l * t;
    assert h * p * t == h * (p * t);
  }

  lemma HighRange(h: nat, p: nat, t: nat, x: nat)
    requires h * p <= x < B && p * t == B
    ensures h < t
  {
    MulMonotone(t, h, p);
    assert t * p == p * t;
  }

  /** What the limb below moves up. */
  function Moved(a: seq<nat>, s: nat, m: nat): nat
    requires m <= |a| && s < 32
  {
    if m == 0 then 0 else High(a[m - 1], s)
  }

  function UpLimb(a: seq<nat>, s: nat, m: nat): nat
    requires m < |a| && s < 32
  {
    Low(a[m], s) + Moved(a, s, m)
  }

  ghost predicate IsUp(a: seq<nat>, s: nat, u: seq<nat>)
    requires s < 32
  {
    |u| <= |a| && forall i :: 0 <= i < |u| ==> u[i] == UpLimb(a, s, i)
  }

  /** The limbs shifted up, with what is moved out at the top. */
  lemma {:induction false} UpValue(a: seq<nat>, s: nat, u: seq<nat>)
    requires Ok(a) && s < 32 && IsUp(a, s, u)
    ensures Val(u) + Moved(a, s, |u|) * Base(|u|) == Val(a[..|u|]) * Pow2(s)
    decreases |u|
  {
    hide Low, High, Base, Val, Pow2;
    if u == [] {
      Nothing(a);
    } else {
      var m := |u| - 1;
      UpValue(a, s, u[..m]);
      assert u[..m + 1] == u;
      ValNext(u, m);
      ValNext(a, m);
      BaseNext(m);
      var q := LowHigh(a[m], s);
      UpStep(Val(u[..m]), Moved(a, s, m), Base(m), Val(a[..m]), Pow2(s), Low(a[m], s), High(a[m], s), a[m]);
    }
  }

  lemma Nothing(a: seq<nat>)
    ensures Val(a[..0]) == 0 && Val([]) == 0 && Base(0) == 1
  {
  }

  lemma UpStep(v: int, c: int, p: int, va: int, t: int, low: int, high: int, x: int)
    requires v + c * p == va * t && x * t == low + high * B
    ensures v + (low + c) * p + high * (B * p) == (va + x * p) * t
  {
    assert (low + c) * p == low * p + c * p;
    assert high * (B * p) == high * B * p;
    assert (low + high * B) * p == low * p + high * B * p;
    assert (va + x * p) * t == va * t + x * p * t;
    assert x * p * t == x * t * p;
  }

  /** A shift up by s bits and k limbs, cut off at the top. */
  lemma UpWrapped(a: seq<nat>, s: nat, k: nat, r: seq<nat>)
    requires Ok(a) && Ok(r) && s < 32 && |r| == |a|
    requires forall j :: 0 <= j < |r| && j < k ==> r[j] == 0
    requires k <= |a| ==> IsUp(a, s, r[k..])
    ensures Val(r) == Val(a) * Pow2(32 * k + s) % Base(|a|)
  {
    hide IsUp, Base, Val, Pow2;
    var w := |a|;
    ValRange(r);
    ShiftAmount(k, s);
    if k > w {
      ValZeros(r);
      BaseSum(w, k - w);
      Multiples(Val(a), Pow2(s), Base(w), Base(k - w));
    } else {
      var n, u := w - k, r[k..];
      UpValue(a, s, u);
      assert r == r[..k] + u && a == a[..n] + a[n..];
      ValZeros(r[..k]);
      ValConcat(r[..k], u);
      ValConcat(a[..n], a[n..]);
      BaseSum(n, k);
      var carry := Moved(a, s, n) + Val(a[n..]) * Pow2(s);
      UpTotal(Val(r), Val(u), Base(k), Moved(a, s, n), Base(n), Val(a[..n]), Pow2(s), Val(a), Val(a[n..]));
      DivModUnique(Val(a) * (Pow2(s) * Base(k)), Base(w), carry, Val(r));
    }
  }

  lemma ShiftAmount(k: nat, s: nat)
    ensures Pow2(32 * k + s) == Pow2(s) * Base(k)
  {
    Pow2Sum(32 * k, s);
  }

  lemma Multiples(v: nat, t: nat, p: nat, q: nat)
    requires p >= 1
    ensures v * (t * (p * q)) % p == 0
  {
    assert v * (t * (p * q)) == v * t * q * p;
    DivModUnique(v * (t * (p * q)), p, v * t * q, 0);
  }

  lemma UpTotal(r: int, u: int, pk: int, moved: int, pn: int, low: int, t: int, a: int, top: int)
    requires r == u * pk && u + moved * pn == low * t && a == low + top * pn
    ensures a * (t * pk) == (moved + top * t) * (pn * pk) + r
  {
    assert a * (t * pk) == low * t * pk + top * pn * t * pk;
    assert low * t * pk == u * pk + moved * pn * pk;
    assert (moved + top * t) * (pn * pk) == moved * pn * pk + top * pn * t * pk;
  }

  // ------------------------------------------------------------------ down

  /** What remains of a limb shifted down by s bits, and what falls out. */
  function Kept(x: nat, s: nat): nat {
    Quotient(x, Pow2(s))
  }

  function Dropped(x: nat, s: nat): nat {
    x % Pow2(s)
  }

  /** The dropped bits at the top of the limb below. */
  function Lowered(x: nat, s: nat): nat
    requires s < 32
  {
    if s == 0 then 0 else x * Pow2(32 - s) % B
  }

  lemma DropParts(x: nat, t: nat, p: nat)
    requires t >= 1 && p * t == B && x < B
    ensures x * p % B == x % t * p && x % t * p * t == x % t * B && x / t < p
  {
    var k, d := x / t, x % t;
    assert p * t == t * p;
    HighRange(k, t, p, x);
    SplitProduct(x, k, d, t, p);
    MulMonotone(d + 1, t, p);
    Distribute(d, 1, p);
    DivModUnique(x * p, B, k, d * p);
    assert d * p * t == d * (p * t);
  }

  lemma KeptDropped(x: nat, s: nat)
    requires x < B && s < 32
    ensures x == Kept(x, s) * Pow2(s) + Dropped(x, s) && Dropped(x, s) < Pow2(s)
    ensures Lowered(x, s) == Dropped(x, s) * Pow2(32 - s) && Lowered(x, s) * Pow2(s) == Dropped(x, s) * B
    ensures Kept(x, s) < Pow2(32 - s)
  {
    HalfWords(s);
    assert s == 0 ==> Pow2(s) == 1;
    hide Pow2;
    DropParts(x, Pow2(s), Pow2(32 - s));
    Divides(x, Pow2(s));
  }

  lemma Divides(x: nat, t: nat)
    requires t >= 1
    ensures x == x / t * t + x % t && x % t < t && (t == 1 ==> x % t == 0)
  {
  }

  /** What the limb above moves down. */
  function MovedDown(a: seq<nat>, s: nat, m: nat): nat
    requires s < 32
  {
    if m < |a| then Lowered(a[m], s) else 0
  }

  function DownLimb(a: seq<nat>, s: nat, m: nat): nat
    requires m < |a| && s < 32
  {
    Kept(a[m], s) + MovedDown(a, s, m + 1)
  }

  ghost predicate IsDown(a: seq<nat>, s: nat, u: seq<nat>)
    requires s < 32
  {
    |u| == |a| && forall i :: 0 <= i < |u| ==> u[i] == DownLimb(a, s, i)
  }

  function DroppedAt(a: seq<nat>, s: nat, m: nat): nat {
    if m < |a| then Dropped(a[m], s) else 0
  }

  /** The first limbs shifted down; each but the lowest limb's dropped bits reappear below. */
  lemma {:induction false} DownPrefix(a: seq<nat>, s: nat, u: seq<nat>, m: nat)
    requires Ok(a) && s < 32 && IsDown(a, s, u) && m <= |a|
    ensures Val(u[..m]) * Pow2(s) + DroppedAt(a, s, 0) == Val(a[..m]) + DroppedAt(a, s, m) * Base(m)
    decreases m
  {
    hide Kept, Dropped, Lowered, Base, Val, Pow2;
    if m == 0 {
      Nothing(a);
      Nothing(u);
    } else {
      DownPrefix(a, s, u, m - 1);
      ValNext(u, m - 1);
      ValNext(a, m - 1);
      BaseNext(m - 1);
      KeptDropped(a[m - 1], s);
      if m < |a| {
        KeptDropped(a[m], s);
      }
      DownStep(Val(u[..m - 1]), DroppedAt(a, s, 0), Pow2(s), Val(a[..m - 1]), DroppedAt(a, s, m - 1), Base(m - 1),
               Kept(a[m - 1], s), MovedDown(a, s, m), DroppedAt(a, s, m), a[m - 1]);
    }
  }

  lemma DownStep(v: int, d0: int, t: int, va: int, d: int, p: int, kept: int, moved: int, next: int, x: int)
    requires v * t + d0 == va + d * p && x == kept * t + d && moved * t == next * B
    ensures (v + (kept + moved) * p) * t + d0 == va + x * p + next * (B * p)
  {
    assert (v + (kept + moved) * p) * t == v * t + kept * t * p + moved * t * p;
    assert x * p == kept * t * p + d * p;
    assert next * B * p == next * (B * p);
  }

  lemma DownValue(a: seq<nat>, s: nat, u: seq<nat>)
    requires Ok(a) && s < 32 && IsDown(a, s, u)
    ensures Val(u) == Val(a) / Pow2(s)
  {
    hide Val, Base, Pow2, IsDown;
    DownPrefix(a, s, u, |a|);
    SameLength(a, s, u);
    assert u[..|a|] == u && a[..|a|] == a;
    DroppedRange(a, s);
    DivModUnique(Val(a), Pow2(s), Val(u), DroppedAt(a, s, 0));
  }

  lemma SameLength(a: seq<nat>, s: nat, u: seq<nat>)
    requires s < 32 && IsDown(a, s, u)
    ensures |u| == |a|
  {
  }

  lemma DroppedRange(a: seq<nat>, s: nat)
    requires Ok(a) && s < 32
    ensures DroppedAt(a, s, 0) < Pow2(s)
  {
    if |a| > 0 {
      KeptDropped(a[0], s);
    }
  }

  /** A shift down by s bits and k limbs. */
  lemma DownWhole(a: seq<nat>, s: nat, k: nat, r: seq<nat>)
    requires Ok(a) && s < 32 && |r| == |a|
    requires forall j :: 0 <= j < |r| && j + k >= |a| ==> r[j] == 0
    requires k <= |a| ==> IsDown(a[k..], s, r[..|a| - k])
    ensures Val(r) == Val(a) / Pow2(32 * k + s)
  {
    hide IsDown, Base, Val, Pow2;
    var w := |a|;
    ShiftAmount(k, s);
    if k > w {
      ValZeros(r);
      ValRange(a);
      BaseSum(w, k - w);
      TooFar(Val(a), Pow2(s), Base(w), Base(k - w));
      DivModUnique(Val(a), Pow2(s) * Base(k), 0, Val(a));
    } else {
      var n := w - k;
      assert r == r[..n] + r[n..] && a == a[..k] + a[k..];
      ValConcat(r[..n], r[n..]);
      ValZeros(r[n..]);
      ValConcat(a[..k], a[k..]);
      ValRange(a[..k]);
      DownValue(a[k..], s, r[..n]);
      var v := Val(a[k..]);
      Nested(Val(a), Val(a[..k]), v, Base(k), Pow2(s), v / Pow2(s), v % Pow2(s));
    }
  }

  lemma TooFar(v: nat, t: nat, p: nat, q: nat)
    requires v < p && t >= 1 && q >= 1
    ensures v < t * (p * q)
  {
    MulMonotone(1, q, p);
    MulMonotone(1, t, p * q);
    assert q * p == p * q;
  }

  lemma Nested(a: nat, low: nat, v: nat, p: nat, t: nat, q: nat, r: nat)
    requires a == low + v * p && low < p && v == q * t + r && r < t
    ensures a / (t * p) == q
  {
    assert a == q * (t * p) + (r * p + low) by {
      assert v * p == q * t * p + r * p;
      assert q * t * p == q * (t * p);
    }
    MulMonotone(r + 1, t, p);
    Distribute(r, 1, p);
    DivModUnique(a, t * p, q, r * p + low);
  }
}
