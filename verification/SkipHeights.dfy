/**
Skip heights: where the shortcut of a block leads, and why following shortcuts takes few steps. A
walk from w to a target t goes through phases, one for each bit in which the two differ, from the
highest on. In a phase the bits of w below that bit run out one or two at a time.
*/
module SkipHeights {
  import opened Powers

  /** Clears the lowest one bit. */
  function InvertLowestOne(n: nat): (r: nat)
    ensures r <= n && (n > 0 ==> r < n)
  {
    if n == 0 then 0 else if n % 2 == 1 then n - 1 else 2 * InvertLowestOne(n / 2)
  }

  function Ones(n: nat): nat {
    if n == 0 then 0 else n % 2 + Ones(n / 2)
  }

  /** What is cleared is one bit: a power of two that divides the number. */
  lemma {:induction false} LowestOneCleared(n: nat) returns (k: nat)
    requires n > 0
    ensures n == InvertLowestOne(n) + Pow2(k) && Ones(n) == Ones(InvertLowestOne(n)) + 1
  {
    if n % 2 == 1 {
      k := 0;
      assert Ones(n - 1) == Ones(n / 2);
    } else {
      var j := LowestOneCleared(n / 2);
      k := j + 1;
      assert Ones(2 * InvertLowestOne(n / 2)) == Ones(InvertLowestOne(n / 2));
    }
  }

  function GetSkipHeight(height: int): (r: int)
    ensures 0 <= r && (height >= 1 ==> r < height)
  {
    if height < 2 then 0
    else if height % 2 == 1 then InvertLowestOne(InvertLowestOne(height - 1)) + 1
    else InvertLowestOne(height)
  }

  /** Where the walk goes from a height above its target: along the shortcut or one block back. */
  function Next(w: nat, t: nat): (n: nat)
    requires t < w
    ensures t <= n < w
  {
    var skip, skipPrev := GetSkipHeight(w), GetSkipHeight(w - 1);
    if skip == t || (skip > t && !(skipPrev < skip - 2 && skipPrev >= t)) then skip else w - 1
  }

  // ----------------------------------------------------------- single bits

  /** q * 2^k */
  function Scaled(q: nat, k: nat): nat {
    if k == 0 then q else 2 * Scaled(q, k - 1)
  }

  lemma {:induction false} ScaledSum(a: nat, b: nat, k: nat)
    ensures Scaled(a + b, k) == Scaled(a, k) + Scaled(b, k)
  {
    if k > 0 {
      ScaledSum(a, b, k - 1);
    }
  }

  lemma {:induction false} ScaledPow2(k: nat)
    ensures Scaled(1, k) == Pow2(k) && Scaled(0, k) == 0
  {
    if k > 0 {
      ScaledPow2(k - 1);
    }
  }

  lemma OnesTwice(u: nat)
    ensures Ones(2 * u) == Ones(u) && Ones(2 * u + 1) == Ones(u) + 1
  {
  }

  lemma InvertTwice(u: nat)
    ensures InvertLowestOne(2 * u) == 2 * InvertLowestOne(u) && InvertLowestOne(2 * u + 1) == 2 * u
  {
  }

  lemma Halves(n: nat)
    ensures n == 2 * (n / 2) + n % 2
  {
  }

  /** Clearing the lowest bit of a number, with zeros or not below a given place. */
  lemma {:induction false} InvertHigh(q: nat, k: nat, x: nat)
    requires x < Pow2(k)
    ensures InvertLowestOne(Scaled(q, k) + x) ==
              if x > 0 then Scaled(q, k) + InvertLowestOne(x) else Scaled(InvertLowestOne(q), k)
    decreases k
  {
    hide InvertLowestOne;
    if k > 0 {
      var h := Scaled(q, k - 1);
      Halves(x);
      InvertHigh(q, k - 1, x / 2);
      InvertTwice(h + x / 2);
      InvertTwice(x / 2);
    }
  }

  lemma InvertEven(n: nat)
    requires n % 2 == 0
    ensures InvertLowestOne(n) % 2 == 0
  {
    InvertTwice(n / 2);
  }

  lemma OnesInvert(x: nat)
    requires x > 0
    ensures Ones(x) == Ones(InvertLowestOne(x)) + 1
  {
    var k := LowestOneCleared(x);
  }

  lemma OnesZero(x: nat)
    ensures Ones(x) == 0 <==> x == 0
  {
    if x > 0 {
      OnesInvert(x);
    }
  }

  lemma {:induction false} OnesBound(x: nat, k: nat)
    requires x < Pow2(k)
    ensures Ones(x) <= k
    decreases k
  {
    if k > 0 {
      OnesBound(x / 2, k - 1);
    }
  }

  /** Taking two from an even number adds ones only where the next two ones are cleared at no gain. */
  lemma BorrowOnes(x: nat)
    requires x >= 2 && x % 2 == 0
    ensures Ones(x - 2) <= Ones(x) || InvertLowestOne(InvertLowestOne(x - 2)) >= InvertLowestOne(x)
  {
    hide Ones, InvertLowestOne;
    var u := x / 2;
    Halves(x);
    OnesTwice(u);
    OnesTwice(u - 1);
    InvertTwice(u);
    InvertTwice(u - 1);
    InvertTwice(InvertLowestOne(u - 1));
    BorrowHalf(u);
  }

  lemma BorrowHalf(u: nat)
    requires u >= 1
    ensures Ones(u - 1) <= Ones(u) || InvertLowestOne(InvertLowestOne(u - 1)) >= InvertLowestOne(u)
  {
    hide Ones, InvertLowestOne;
    var v := u / 2;
    Halves(u);
    OnesTwice(v);
    if u % 2 == 0 {
      OnesTwice(v - 1);
      InvertTwice(v);
      InvertTwice(v - 1);
      BorrowQuarter(v);
    }
  }

  lemma BorrowQuarter(v: nat)
    requires v >= 1
    ensures Ones(v - 1) < Ones(v) || InvertLowestOne(v - 1) >= InvertLowestOne(v)
  {
    hide Ones, InvertLowestOne;
    var z := v / 2;
    Halves(v);
    if v % 2 == 1 {
      OnesTwice(z);
    } else {
      InvertTwice(z);
      InvertTwice(z - 1);
    }
  }

  // ---------------------------------------------------------------- a phase

  /** A height and a target that differ in bit k first: what is above that bit, and what is below. */
  datatype Phase = Phase(p: nat, k: nat, x: nat, y: nat) {
    predicate Ok() {
      x < Pow2(k) && y < Pow2(k)
    }

    /** The bits of the target above bit k, and the same with bit k set. */
    function Base(): nat {
      Scaled(2 * p, k)
    }

    function Top(): nat {
      Scaled(2 * p + 1, k)
    }

    function Walk(): nat {
      Top() + x
    }

    function Target(): nat {
      Base() + y
    }
  }

  /** How many steps the rest of a phase may take. */
  function Left(x: nat, near: bool): (n: nat)
    ensures n >= 1
  {
    if x % 2 == 0 then 3 * Ones(x) + 1
    else if Ones(x - 1) == 0 then 2
    else if Ones(x - 1) == 1 && near then 1
    else Ones(x - 1) + 4
  }

  lemma LeftBound(x: nat, near: bool, k: nat)
    requires x < Pow2(k)
    ensures Left(x, near) <= 3 * k + 1
  {
    if x % 2 == 0 {
      OnesBound(x, k);
    } else {
      Halves(x);
      OnesTwice(x / 2);
      OnesBound(x / 2, k - 1);
    }
  }

  lemma PhaseFacts(s: Phase)
    requires s.Ok()
    ensures s.Base() <= s.Target() < s.Top() <= s.Walk() && s.Top() == s.Base() + Pow2(s.k)
    ensures s.k > 0 ==> s.Top() % 2 == 0 && s.Top() >= s.Base() + 2
    ensures InvertLowestOne(s.Top()) == s.Base()
  {
    hide *;
    PhaseOrder(s);
    PhaseParity(s);
    PhaseInverted(s);
  }

  lemma PhaseOrder(s: Phase)
    requires s.Ok()
    ensures s.Base() <= s.Target() < s.Top() <= s.Walk() && s.Top() == s.Base() + Pow2(s.k)
  {
    hide Pow2, Scaled;
    ScaledSum(2 * s.p, 1, s.k);
    ScaledPow2(s.k);
  }

  lemma PhaseParity(s: Phase)
    requires s.Ok()
    ensures s.k > 0 ==> s.Top() % 2 == 0 && s.Top() >= s.Base() + 2
  {
    hide Pow2, Scaled;
    ScaledSum(2 * s.p, 1, s.k);
    ScaledPow2(s.k);
    ScaledEven(2 * s.p + 1, s.k);
    PowPositive(s.k);
  }

  lemma PhaseInverted(s: Phase)
    requires s.Ok()
    ensures InvertLowestOne(s.Top()) == s.Base()
  {
    hide InvertLowestOne, Pow2, Scaled;
    InvertTwice(s.p);
    InvertHigh(2 * s.p + 1, s.k, 0);
  }

  lemma ScaledEven(q: nat, k: nat)
    ensures k > 0 ==> Scaled(q, k) % 2 == 0
  {
  }

  lemma PowPositive(k: nat)
    ensures Pow2(k) > 0 && (k > 0 ==> Pow2(k) >= 2) && (k == 0 ==> Pow2(k) == 1)
  {
  }

  /** Clearing a bit in the lower part leaves the upper part alone. */
  lemma InvertLow(s: Phase, x: nat)
    requires s.Ok() && 0 < x < Pow2(s.k)
    ensures InvertLowestOne(s.Top() + x) == s.Top() + InvertLowestOne(x)
  {
    InvertHigh(2 * s.p + 1, s.k, x);
  }

  /** What one step of a phase does: it leaves the phase, or lowers what is left of it. */
  ghost predicate Advances(s: Phase, n: int) {
    n < s.Top() || (n < s.Walk() && Left(n - s.Top(), s.y <= 1) < Left(s.x, s.y <= 1))
  }

  lemma Small(k: nat, x: nat)
    requires x < Pow2(k) && x > 0
    ensures k > 0
  {
    PowPositive(k);
  }

  lemma StepFromTop(s: Phase)
    requires s.Ok() && s.x == 0
    ensures s.Target() < s.Walk() && Advances(s, Next(s.Walk(), s.Target()))
  {
    hide InvertLowestOne, Ones, Scaled, Pow2;
    PhaseFacts(s);
    PowPositive(s.k);
  }

  lemma StepFromEven(s: Phase)
    requires s.Ok() && s.x > 0 && s.x % 2 == 0
    ensures s.Target() < s.Walk() && Advances(s, Next(s.Walk(), s.Target()))
  {
    hide InvertLowestOne, Ones, Scaled, Pow2;
    PhaseFacts(s);
    Small(s.k, s.x);
    InvertEven(s.x);
    OnesInvert(s.x);
    InvertLow(s, s.x);
    EvenShortcut(s);
    if Next(s.Walk(), s.Target()) == s.Walk() - 1 {
      BackFromEven(s);
    }
  }

  lemma EvenShortcut(s: Phase)
    requires s.Ok() && s.x > 0 && s.x % 2 == 0
    ensures GetSkipHeight(s.Walk()) == s.Top() + InvertLowestOne(s.x)
  {
    hide InvertLowestOne, Scaled, Pow2;
    PhaseFacts(s);
    Small(s.k, s.x);
    InvertLow(s, s.x);
  }

  /** Stepping back from an even height only happens when the shortcut of the odd one is better. */
  lemma BackFromEven(s: Phase)
    requires s.Ok() && s.x > 0 && s.x % 2 == 0
    requires var skipPrev := GetSkipHeight(s.Walk() - 1);
             s.Target() <= skipPrev && skipPrev < s.Top() + InvertLowestOne(s.x) - 2
    ensures Left(s.x - 1, s.y <= 1) < Left(s.x, s.y <= 1)
  {
    hide InvertLowestOne, Ones, Scaled, Pow2;
    PhaseFacts(s);
    Small(s.k, s.x);
    var x, m, o := s.x, s.Top(), Ones(s.x - 2);
    assert GetSkipHeight(s.Walk() - 1) == InvertLowestOne(InvertLowestOne(m + (x - 2))) + 1;
    OnesZero(x);
    OnesZero(x - 2);
    if o >= 1 {
      OnesInvert(x - 2);
      InvertLow(s, x - 2);
      OnesZero(InvertLowestOne(x - 2));
      if o >= 2 {
        InvertLow(s, InvertLowestOne(x - 2));
        BorrowOnes(x);
      }
    }
  }

  lemma StepFromOdd(s: Phase)
    requires s.Ok() && s.x % 2 == 1
    ensures s.Target() < s.Walk() && Advances(s, Next(s.Walk(), s.Target()))
  {
    hide *;
    if Ones(s.x - 1) >= 2 {
      OddManyBits(s);
    } else if Ones(s.x - 1) == 1 {
      OddOneBit(s);
    } else {
      OddNoBits(s);
    }
  }

  lemma OddShortcuts(s: Phase)
    requires s.Ok() && s.x % 2 == 1
    ensures GetSkipHeight(s.Walk()) == InvertLowestOne(InvertLowestOne(s.Top() + (s.x - 1))) + 1
    ensures GetSkipHeight(s.Walk() - 1) == InvertLowestOne(s.Top() + (s.x - 1))
  {
    hide InvertLowestOne, Scaled, Pow2;
    PhaseFacts(s);
    Small(s.k, s.x);
  }

  /** With two bits left the shortcut is taken, and clears both. */
  lemma OddManyBits(s: Phase)
    requires s.Ok() && s.x % 2 == 1 && Ones(s.x - 1) >= 2
    ensures s.Target() < s.Walk() && Advances(s, Next(s.Walk(), s.Target()))
  {
    hide InvertLowestOne, Ones, Scaled, Pow2, GetSkipHeight;
    PhaseFacts(s);
    OddShortcuts(s);
    var x := s.x;
    var z := InvertLowestOne(x - 1);
    OnesZero(x - 1);
    OnesInvert(x - 1);
    InvertLow(s, x - 1);
    OnesZero(z);
    OnesInvert(z);
    InvertEven(x - 1);
    InvertEven(z);
    InvertLow(s, z);
  }

  /** With one bit left the shortcut leaves the phase, unless it leads below the target. */
  lemma OddOneBit(s: Phase)
    requires s.Ok() && s.x % 2 == 1 && Ones(s.x - 1) == 1
    ensures s.Target() < s.Walk() && Advances(s, Next(s.Walk(), s.Target()))
  {
    hide InvertLowestOne, Ones, Scaled, Pow2, GetSkipHeight;
    PhaseOrder(s);
    PhaseInverted(s);
    OddShortcuts(s);
    OnesZero(s.x - 1);
    OnesInvert(s.x - 1);
    OnesZero(InvertLowestOne(s.x - 1));
    InvertLow(s, s.x - 1);
    assert GetSkipHeight(s.Walk()) == s.Base() + 1 && GetSkipHeight(s.Walk() - 1) == s.Top();
  }

  /** One above the top of the phase. */
  lemma OddNoBits(s: Phase)
    requires s.Ok() && s.x % 2 == 1 && Ones(s.x - 1) == 0
    ensures s.Target() < s.Walk() && Advances(s, Next(s.Walk(), s.Target()))
  {
    hide InvertLowestOne, Ones, Scaled, Pow2, GetSkipHeight;
    PhaseFacts(s);
    Small(s.k, s.x);
    OddShortcuts(s);
    OnesZero(s.x - 1);
  }

  // ------------------------------------------------------------- all phases

  /** One more than the highest bit in which two numbers differ. */
  function Level(w: nat, t: nat): nat {
    if w == t then 0 else 1 + Level(w / 2, t / 2)
  }

  /** The lowest k bits of a number. */
  function Low(n: nat, k: nat): nat
    decreases k
  {
    if k == 0 then 0 else 2 * Low(n / 2, k - 1) + n % 2
  }

  lemma {:induction false} LowIs(q: nat, k: nat, x: nat)
    requires x < Pow2(k)
    ensures Low(Scaled(q, k) + x, k) == x
    decreases k
  {
    if k > 0 {
      assert (Scaled(q, k) + x) / 2 == Scaled(q, k - 1) + x / 2;
      LowIs(q, k - 1, x / 2);
    }
  }

  /** The phase a walk is in. */
  lemma {:induction false} PhaseOf(w: nat, t: nat) returns (s: Phase)
    requires t < w
    ensures s.Ok() && s.Walk() == w && s.Target() == t
    decreases w
  {
    Halves(w);
    Halves(t);
    if w / 2 == t / 2 {
      s := Phase(w / 2, 0, 0, 0);
    } else {
      var h := PhaseOf(w / 2, t / 2);
      s := Phase(h.p, h.k + 1, 2 * h.x + w % 2, 2 * h.y + t % 2);
    }
  }

  /** Numbers that agree from bit k on. */
  lemma {:induction false} LevelAtMost(q: nat, k: nat, x: nat, y: nat)
    requires x < Pow2(k) && y < Pow2(k)
    ensures Level(Scaled(q, k) + x, Scaled(q, k) + y) <= k
    decreases k
  {
    if k > 0 && x != y {
      LevelAtMost(q, k - 1, x / 2, y / 2);
      assert (Scaled(q, k) + x) / 2 == Scaled(q, k - 1) + x / 2 && (Scaled(q, k) + y) / 2 == Scaled(q, k - 1) + y / 2;
    }
  }

  lemma {:induction false} LevelIs(s: Phase)
    requires s.Ok()
    ensures Level(s.Walk(), s.Target()) == s.k + 1
    decreases s.k
  {
    PhaseFacts(s);
    if s.k > 0 {
      var h := Phase(s.p, s.k - 1, s.x / 2, s.y / 2);
      assert s.Walk() / 2 == h.Walk() && s.Target() / 2 == h.Target();
      LevelIs(h);
    } else {
      assert s.Walk() / 2 == s.Target() / 2;
    }
  }

  /** The most that all phases up to a level take together. */
  function AllPhases(d: nat): nat {
    if d == 0 then 0 else AllPhases(d - 1) + 3 * (d - 1) + 1
  }

  lemma {:induction false} AllPhasesIs(d: nat)
    ensures 2 * AllPhases(d) == 3 * d * d - d
  {
    if d > 0 {
      AllPhasesIs(d - 1);
      assert 3 * d * d - d == 3 * (d - 1) * (d - 1) - (d - 1) + 6 * (d - 1) + 2;
    }
  }

  lemma {:induction false} AllPhasesGrow(c: nat, d: nat)
    requires c <= d
    ensures AllPhases(c) <= AllPhases(d)
    decreases d
  {
    if c < d {
      AllPhasesGrow(c, d - 1);
    }
  }

  /** A bound on the steps from a height to a target. */
  ghost function Steps(w: nat, t: nat): nat {
    if w <= t then 0 else
      var k := Level(w, t) - 1;
      Left(Low(w, k), Low(t, k) <= 1) + AllPhases(k)
  }

  lemma StepsIs(s: Phase)
    requires s.Ok()
    ensures s.Target() < s.Walk() && Steps(s.Walk(), s.Target()) == Left(s.x, s.y <= 1) + AllPhases(s.k)
  {
    hide Level, Low, AllPhases, Left, Scaled, Pow2;
    PhaseFacts(s);
    LevelIs(s);
    LowIs(2 * s.p + 1, s.k, s.x);
    LowIs(2 * s.p, s.k, s.y);
  }

  lemma StepsBound(w: nat, t: nat)
    ensures Steps(w, t) <= AllPhases(Level(w, t))
  {
    hide Left, Level, Low, Scaled, Pow2;
    if t < w {
      var s := PhaseOf(w, t);
      StepsIs(s);
      LevelIs(s);
      LeftBound(s.x, s.y <= 1, s.k);
    }
  }

  /** Every step of the walk lowers the bound. */
  lemma StepsFall(w: nat, t: nat)
    requires t < w
    ensures Steps(Next(w, t), t) < Steps(w, t)
  {
    hide Steps, Left, Level, Low, Scaled, Pow2, Next, AllPhases;
    var s := PhaseOf(w, t);
    StepsIs(s);
    PhaseFacts(s);
    var n := Next(w, t);
    if s.x == 0 {
      StepFromTop(s);
    } else if s.x % 2 == 0 {
      StepFromEven(s);
    } else {
      StepFromOdd(s);
    }
    if n < s.Top() {
      LevelAtMost(2 * s.p, s.k, n - s.Base(), s.y);
      StepsBound(n, t);
      AllPhasesGrow(Level(n, t), s.k);
    } else {
      StepsIs(Phase(s.p, s.k, n - s.Top(), s.y));
    }
  }

  /** For heights of d bits the number of steps is at most d(3d - 1) / 2. */
  lemma StepsPolylog(w: nat, t: nat, d: nat)
    requires t <= w < Pow2(d)
    ensures 2 * Steps(w, t) <= 3 * d * d - d
  {
    hide Steps, Level, Pow2, AllPhases;
    StepsBound(w, t);
    ScaledPow2(d);
    LevelAtMost(0, d, w, t);
    AllPhasesGrow(Level(w, t), d);
    AllPhasesIs(d);
  }
}
