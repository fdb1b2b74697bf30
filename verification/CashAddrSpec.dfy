/**
The cashaddr checksum: a 40-bit remainder, eight 5-bit coefficients over GF(32), folded
over the values one at a time.
*/
module CashAddrSpec {

  type Data = seq<bv8>

  function Xor(a: bv64, b: bv64): bv64 {
    a ^ b
  }

  function When(b: bool, k: bv64): bv64 {
    if b then k else 0
  }

  /** The part of the remainder below its leading coefficient, moved up one place. */
  function Up(c: bv64): bv64 {
    (c & 0x07ffffffff) << 5
  }

  function Widen(d: bv8): bv64 {
    d as bv64
  }

  /** Multiples of the generator's tail, one for each bit of the leading coefficient. */
  function TailLow(c: bv64): bv64 {
    Xor(When(Has(c, 0x0800000000), 0x98f2bc8e61), When(Has(c, 0x1000000000), 0x79b76d99e2))
  }

  function TailHigh(c: bv64): bv64 {
    Xor(Xor(When(Has(c, 0x2000000000), 0xf33e5fb3c4), When(Has(c, 0x4000000000), 0xae2eabe2a8)),
        When(Has(c, 0x8000000000), 0x1e4f43e470))
  }

  predicate Has(c: bv64, m: bv64) {
    c & m != 0
  }

  function Tail(c: bv64): bv64 {
    Xor(TailLow(c), TailHigh(c))
  }

  /** Multiplies the remainder by x and adds the next value. */
  function Step(c: bv64, d: bv8): bv64 {
    Xor(Xor(Up(c), Widen(d)), Tail(c))
  }

  // ------------------------------------------------------------ linearity

  lemma Associative(a: bv64, b: bv64, c: bv64)
    ensures Xor(Xor(a, b), c) == Xor(a, Xor(b, c))
  {
  }

  lemma Commutative(a: bv64, b: bv64)
    ensures Xor(a, b) == Xor(b, a)
  {
  }

  lemma Exchange(a: bv64, b: bv64, c: bv64, d: bv64)
    ensures Xor(Xor(a, b), Xor(c, d)) == Xor(Xor(a, c), Xor(b, d))
  {
    hide Xor;
    Associative(a, b, Xor(c, d));
    Associative(b, c, d);
    Commutative(b, c);
    Associative(c, b, d);
    Associative(a, c, Xor(b, d));
  }

  lemma XorSelf(a: bv64, b: bv64)
    ensures Xor(a, a) == 0 && Xor(a, 0) == a
    ensures Xor(a, b) == 0 ==> a == b
  {
  }

  lemma UpLinear(c: bv64, e: bv64)
    ensures Up(Xor(c, e)) == Xor(Up(c), Up(e))
  {
  }

  lemma WidenLinear(d: bv8, f: bv8)
    ensures Widen(XorByte(d, f)) == Xor(Widen(d), Widen(f))
  {
  }

  /** One of the five leading bits. */
  predicate Leading(m: bv64) {
    m == 0x0800000000 || m == 0x1000000000 || m == 0x2000000000 || m == 0x4000000000 || m == 0x8000000000
  }

  function And(c: bv64, m: bv64): bv64 {
    c & m
  }

  lemma AndLinear0(c: bv64, e: bv64)
    ensures And(Xor(c, e), 0x0800000000) == Xor(And(c, 0x0800000000), And(e, 0x0800000000))
  {
  }

  lemma AndLinear1(c: bv64, e: bv64)
    ensures And(Xor(c, e), 0x1000000000) == Xor(And(c, 0x1000000000), And(e, 0x1000000000))
  {
  }

  lemma AndLinear2(c: bv64, e: bv64)
    ensures And(Xor(c, e), 0x2000000000) == Xor(And(c, 0x2000000000), And(e, 0x2000000000))
  {
  }

  lemma AndLinear3(c: bv64, e: bv64)
    ensures And(Xor(c, e), 0x4000000000) == Xor(And(c, 0x4000000000), And(e, 0x4000000000))
  {
  }

  lemma AndLinear4(c: bv64, e: bv64)
    ensures And(Xor(c, e), 0x8000000000) == Xor(And(c, 0x8000000000), And(e, 0x8000000000))
  {
  }

  lemma AndLinear(c: bv64, e: bv64, m: bv64)
    requires Leading(m)
    ensures And(Xor(c, e), m) == Xor(And(c, m), And(e, m))
  {
    hide And, Xor;
    AndLinear0(c, e);
    AndLinear1(c, e);
    AndLinear2(c, e);
    AndLinear3(c, e);
    AndLinear4(c, e);
  }

  lemma OneBit(c: bv64, m: bv64)
    requires Leading(m)
    ensures And(c, m) == 0 || And(c, m) == m
  {
  }

  /** A leading bit is set in a sum exactly when it is set in one of the two. */
  lemma BitLinear(c: bv64, e: bv64, m: bv64)
    requires Leading(m)
    ensures And(Xor(c, e), m) != 0 <==> (And(c, m) != 0) != (And(e, m) != 0)
  {
    hide Xor, And, Leading;
    AndLinear(c, e, m);
    OneBit(c, m);
    OneBit(e, m);
    XorSelf(And(c, m), And(e, m));
    XorSelf(And(e, m), And(c, m));
    Commutative(And(c, m), And(e, m));
  }

  lemma HasAnd(c: bv64, m: bv64)
    ensures Has(c, m) <==> And(c, m) != 0
  {
  }

  /** Each bit brings in its multiple of the tail linearly. */
  lemma WhenLinear(c: bv64, e: bv64, m: bv64, g: bv64)
    requires Leading(m)
    ensures When(Has(Xor(c, e), m), g) == Xor(When(Has(c, m), g), When(Has(e, m), g))
  {
    hide Xor, And, Has, Leading;
    BitLinear(c, e, m);
    HasAnd(Xor(c, e), m);
    HasAnd(c, m);
    HasAnd(e, m);
    XorSelf(g, 0);
    XorSelf(0, g);
    Commutative(0, g);
  }

  lemma TailLowLinear(c: bv64, e: bv64)
    ensures TailLow(Xor(c, e)) == Xor(TailLow(c), TailLow(e))
  {
    hide Xor, Has, When;
    WhenLinear(c, e, 0x0800000000, 0x98f2bc8e61);
    WhenLinear(c, e, 0x1000000000, 0x79b76d99e2);
    Exchange(When(Has(c, 0x0800000000), 0x98f2bc8e61), When(Has(e, 0x0800000000), 0x98f2bc8e61),
             When(Has(c, 0x1000000000), 0x79b76d99e2), When(Has(e, 0x1000000000), 0x79b76d99e2));
  }

  lemma TailHighLinear(c: bv64, e: bv64)
    ensures TailHigh(Xor(c, e)) == Xor(TailHigh(c), TailHigh(e))
  {
    hide Xor, Has, When;
    WhenLinear(c, e, 0x2000000000, 0xf33e5fb3c4);
    WhenLinear(c, e, 0x4000000000, 0xae2eabe2a8);
    WhenLinear(c, e, 0x8000000000, 0x1e4f43e470);
    var x, y, z := When(Has(c, 0x2000000000), 0xf33e5fb3c4), When(Has(c, 0x4000000000), 0xae2eabe2a8),
                   When(Has(c, 0x8000000000), 0x1e4f43e470);
    var u, v, w := When(Has(e, 0x2000000000), 0xf33e5fb3c4), When(Has(e, 0x4000000000), 0xae2eabe2a8),
                   When(Has(e, 0x8000000000), 0x1e4f43e470);
    Exchange(x, u, y, v);
    Exchange(Xor(x, y), Xor(u, v), z, w);
  }

  lemma TailLinear(c: bv64, e: bv64)
    ensures Tail(Xor(c, e)) == Xor(Tail(c), Tail(e))
  {
    hide Xor, TailLow, TailHigh;
    TailLowLinear(c, e);
    TailHighLinear(c, e);
    Exchange(TailLow(c), TailLow(e), TailHigh(c), TailHigh(e));
  }

  /** The step is linear in remainder and value together. */
  lemma StepLinear(c: bv64, e: bv64, d: bv8, f: bv8)
    ensures Step(Xor(c, e), XorByte(d, f)) == Xor(Step(c, d), Step(e, f))
  {
    hide Xor, XorByte, Up, Tail, Widen;
    UpLinear(c, e);
    TailLinear(c, e);
    WidenLinear(d, f);
    Exchange(Up(c), Up(e), Widen(d), Widen(f));
    Exchange(Xor(Up(c), Widen(d)), Xor(Up(e), Widen(f)), Tail(c), Tail(e));
  }

  lemma StepRange(c: bv64, d: bv8)
    requires InRange(c)
    ensures InRange(Step(c, d))
  {
  }

  lemma StepInjective(c: bv64)
    requires InRange(c) && Step(c, 0) == 0
    ensures c == 0
  {
  }

  /** Forty bits. */
  predicate InRange(c: bv64) {
    c < 0x10000000000
  }

  /** One more than the largest number of k five-bit groups. */
  function Limit(k: nat): bv64
    requires k <= 8
  {
    if k == 0 then 1 else if k == 1 then 0x20 else if k == 2 then 0x400 else if k == 3 then 0x8000
    else if k == 4 then 0x100000 else if k == 5 then 0x2000000 else if k == 6 then 0x40000000
    else if k == 7 then 0x800000000 else 0x10000000000
  }

  predicate Below(c: bv64, k: nat)
    requires k <= 8
  {
    c < Limit(k)
  }

  predicate IsFive(f: bv8) {
    f < 32
  }

  lemma ShiftIn(e: bv64, f: bv8, k: nat)
    requires k < 8 && Below(e, k) && IsFive(f)
    ensures Below(Step(e, f), k + 1)
    ensures Step(e, f) == 0 ==> e == 0 && f == 0
  {
  }

  lemma ZeroStep()
    ensures Step(0, 0) == 0
  {
  }

  lemma LimitFacts(c: bv64)
    ensures Below(0, 0) && InRange(0) && InRange(1) && (InRange(c) <==> Below(c, 8))
  {
  }

  // ------------------------------------------------------------ folding

  /** Any way to take in one more value. */
  type Stepper = (bv64, bv8) -> bv64

  function Take(step: Stepper, c: bv64, d: bv8): bv64 {
    step(c, d)
  }

  ghost predicate Linear(step: Stepper) {
    forall c, e, d, f {:trigger Take(step, Xor(c, e), XorByte(d, f))} ::
      Take(step, Xor(c, e), XorByte(d, f)) == Xor(Take(step, c, d), Take(step, e, f))
  }

  ghost predicate Lossless(step: Stepper) {
    && Take(step, 0, 0) == 0
    && (forall c, d :: InRange(c) ==> InRange(Take(step, c, d)))
    && (forall c :: InRange(c) && Take(step, c, 0) == 0 ==> c == 0)
  }

  ghost predicate FillsUp(step: Stepper) {
    forall e, f, k: nat | k < 8 :: Below(e, k) && IsFive(f) ==>
      Below(Take(step, e, f), k + 1) && (Take(step, e, f) == 0 ==> e == 0 && f == 0)
  }

  function XorByte(d: bv8, f: bv8): bv8 {
    d ^ f
  }

  lemma TakeStep(c: bv64, d: bv8)
    ensures Take(Step, c, d) == Step(c, d)
  {
    hide Step;
  }

  lemma LinearStep()
    ensures Linear(Step)
  {
    hide Step, Xor, XorByte, Take;
    forall c, e, d, f ensures Take(Step, Xor(c, e), XorByte(d, f)) == Xor(Take(Step, c, d), Take(Step, e, f)) {
      StepLinear(c, e, d, f);
      TakeStep(c, d);
      TakeStep(e, f);
      TakeStep(Xor(c, e), XorByte(d, f));
    }
  }

  lemma LosslessStep()
    ensures Lossless(Step)
  {
    hide Step, InRange, Take;
    ZeroStep();
    TakeStep(0, 0);
    forall c, d | InRange(c) ensures InRange(Take(Step, c, d)) {
      StepRange(c, d);
      TakeStep(c, d);
    }
    forall c | InRange(c) && Take(Step, c, 0) == 0 ensures c == 0 {
      TakeStep(c, 0);
      StepInjective(c);
    }
  }

  lemma StepFillsUp()
    ensures FillsUp(Step)
  {
    hide Step, Below, IsFive, Take;
    forall e, f, k: nat | k < 8 && Below(e, k) && IsFive(f)
      ensures Below(Take(Step, e, f), k + 1) && (Take(Step, e, f) == 0 ==> e == 0 && f == 0)
    {
      ShiftIn(e, f, k);
      TakeStep(e, f);
    }
  }

  function Fold(step: Stepper, c: bv64, v: Data): bv64 {
    if v == [] then c else Take(step, Fold(step, c, v[..|v| - 1]), v[|v| - 1])
  }

  function Remainder(step: Stepper, v: Data): bv64 {
    Xor(Fold(step, 1, v), 1)
  }

  /** Zero when the checksum is right. */
  function PolyMod(v: Data): bv64 {
    Remainder(Step, v)
  }

  /** Values by which two sequences differ. */
  function Difference(v: Data, w: Data): (r: Data)
    requires |v| == |w|
    ensures |r| == |v| && forall i :: 0 <= i < |v| ==> r[i] == XorByte(v[i], w[i])
  {
    seq(|v|, i requires 0 <= i < |v| => XorByte(v[i], w[i]))
  }

  /** Folding a linear step over sequences of any length is linear. */
  lemma {:induction false} FoldLinear(step: Stepper, c: bv64, e: bv64, v: Data, w: Data)
    requires Linear(step) && |v| == |w|
    ensures Fold(step, Xor(c, e), Difference(v, w)) == Xor(Fold(step, c, v), Fold(step, e, w))
  {
    hide Xor, XorByte, Take;
    if v != [] {
      var n := |v| - 1;
      FoldLinear(step, c, e, v[..n], w[..n]);
      assert Difference(v, w)[..n] == Difference(v[..n], w[..n]);
      var d, f := v[n], w[n];
      assert Take(step, Xor(Fold(step, c, v[..n]), Fold(step, e, w[..n])), XorByte(d, f)) ==
             Xor(Take(step, Fold(step, c, v[..n]), d), Take(step, Fold(step, e, w[..n]), f));
    }
  }

  lemma {:induction false} FoldConcat(step: Stepper, c: bv64, v: Data, w: Data)
    ensures Fold(step, c, v + w) == Fold(step, Fold(step, c, v), w)
    decreases |w|
  {
    hide Take;
    if w == [] {
      assert v + w == v;
    } else {
      var n := |w| - 1;
      FoldConcat(step, c, v, w[..n]);
      assert (v + w)[..|v + w| - 1] == v + w[..n];
    }
  }

  lemma {:induction false} FoldRange(step: Stepper, c: bv64, v: Data)
    requires Lossless(step) && InRange(c)
    ensures InRange(Fold(step, c, v))
  {
    hide InRange, Take;
    if v != [] {
      FoldRange(step, c, v[..|v| - 1]);
    }
  }

  ghost predicate Zeros(v: Data) {
    forall i :: 0 <= i < |v| ==> v[i] == 0
  }

  lemma {:induction false} FoldZeros(step: Stepper, v: Data)
    requires Lossless(step) && Zeros(v)
    ensures Fold(step, 0, v) == 0
  {
    hide Take;
    if v != [] {
      FoldZeros(step, v[..|v| - 1]);
    }
  }

  /** A difference once present never disappears while values agree. */
  lemma {:induction false} FoldKeeps(step: Stepper, c: bv64, v: Data)
    requires Lossless(step) && Zeros(v) && InRange(c) && Fold(step, c, v) == 0
    ensures c == 0
  {
    hide InRange, Take;
    if v != [] {
      FoldRange(step, c, v[..|v| - 1]);
      FoldKeeps(step, c, v[..|v| - 1]);
    }
  }

  // ------------------------------------------------------ up to eight values

  ghost predicate FiveBit(v: Data) {
    forall i :: 0 <= i < |v| ==> IsFive(v[i])
  }

  /** Up to eight five-bit values fill the remainder from below, so a nonzero one shows. */
  lemma {:induction false} FoldShort(step: Stepper, v: Data)
    requires FillsUp(step) && |v| <= 8 && FiveBit(v)
    ensures Below(Fold(step, 0, v), |v|)
    ensures Fold(step, 0, v) == 0 ==> Zeros(v)
  {
    hide Below, IsFive, Take;
    if v == [] {
      LimitFacts(0);
    } else {
      var n := |v| - 1;
      FoldShort(step, v[..n]);
      var f := v[n];
      assert Below(Fold(step, 0, v[..n]), n) && IsFive(f);
    }
  }

  /** A window of eight is seen through any step with the three properties. */
  lemma WindowSeen(step: Stepper, v: Data, w: Data, start: nat, size: nat)
    requires Linear(step) && Lossless(step) && FillsUp(step)
    requires |v| == |w| && size <= 8 && start + size <= |v|
    requires FiveBit(v[start..start + size]) && FiveBit(w[start..start + size])
    requires forall i :: 0 <= i < |v| && !(start <= i < start + size) ==> v[i] == w[i]
    requires Remainder(step, v) == Remainder(step, w)
    ensures v == w
  {
    hide Xor, XorByte, Fold, Take, InRange, Linear, Lossless, FillsUp, IsFive, Below, Remainder;
    var d := Difference(v, w);
    SameFold(step, v, w);
    var before, window, after := d[..start], d[start..start + size], d[start + size..];
    forall i | 0 <= i < |v| && !(start <= i < start + size) ensures d[i] == 0 {
      SelfDifference(v[i]);
    }
    assert Zeros(before) && Zeros(after);
    assert d == before + window + after;
    FoldConcat(step, 0, before + window, after);
    FoldConcat(step, 0, before, window);
    FoldZeros(step, before);
    LimitFacts(0);
    FoldRange(step, 0, window);
    FoldKeeps(step, Fold(step, 0, window), after);
    forall i | 0 <= i < size ensures IsFive(window[i]) {
      assert IsFive(v[start..start + size][i]) && IsFive(w[start..start + size][i]);
      FiveBitDifference(v[start + i], w[start + i]);
    }
    FoldShort(step, window);
    forall i | 0 <= i < |v| ensures v[i] == w[i] {
      if start <= i < start + size {
        assert window[i - start] == 0;
        NoDifference(v[i], w[i]);
      }
    }
  }

  /**
    Burst detection: changing values only inside a window of eight consecutive five-bit
    values always changes the checksum.
  */
  lemma BurstDetected(v: Data, w: Data, start: nat, size: nat)
    requires |v| == |w| && size <= 8 && start + size <= |v|
    requires FiveBit(v[start..start + size]) && FiveBit(w[start..start + size])
    requires forall i :: 0 <= i < |v| && !(start <= i < start + size) ==> v[i] == w[i]
    requires PolyMod(v) == PolyMod(w)
    ensures v == w
  {
    hide Remainder, Linear, Lossless, FillsUp, FiveBit, Step;
    LinearStep();
    LosslessStep();
    StepFillsUp();
    WindowSeen(Step, v, w, start, size);
  }

  lemma SelfDifference(x: bv8)
    ensures XorByte(x, x) == 0 && XorByte(x, 0) == x
  {
  }

  lemma NoDifference(x: bv8, y: bv8)
    requires XorByte(x, y) == 0
    ensures x == y
  {
  }

  lemma FiveBitDifference(x: bv8, y: bv8)
    requires IsFive(x) && IsFive(y)
    ensures IsFive(XorByte(x, y))
  {
  }

  lemma SameFold(step: Stepper, v: Data, w: Data)
    requires Linear(step) && |v| == |w| && Remainder(step, v) == Remainder(step, w)
    ensures Fold(step, 0, Difference(v, w)) == 0
  {
    hide Fold, Xor, Linear;
    FoldLinear(step, 1, 1, v, w);
    XorSelf(1, 1);
    XorCancel(Fold(step, 1, v), Fold(step, 1, w), 1);
    XorSelf(Fold(step, 1, v), Fold(step, 1, w));
  }

  lemma XorCancel(a: bv64, b: bv64, c: bv64)
    requires Xor(a, c) == Xor(b, c)
    ensures a == b
  {
  }

  /** The checksum as computed, one value at a time. */
  method ComputePolyMod(v: Data) returns (r: bv64)
    ensures r == PolyMod(v)
  {
    hide Xor, Up, Tail, Widen, Take, Step;
    var c: bv64 := 1;
    for i := 0 to |v|
      invariant c == Fold(Step, 1, v[..i])
    {
      assert v[..i + 1][..i] == v[..i];
      var c0 := c >> 35;
      TakeStep(c, v[i]);
      StepByBits(c, v[i]);
      var next := Xor(Up(c), Widen(v[i]));
      next := Xor(next, When(c0 & 0x01 != 0, 0x98f2bc8e61));
      next := Xor(next, When(c0 & 0x02 != 0, 0x79b76d99e2));
      next := Xor(next, When(c0 & 0x04 != 0, 0xf33e5fb3c4));
      next := Xor(next, When(c0 & 0x08 != 0, 0xae2eabe2a8));
      c := Xor(next, When(c0 & 0x10 != 0, 0x1e4f43e470));
    }
    assert v[..|v|] == v;
    r := Xor(c, 1);
  }

  lemma LeadingBits(c: bv64)
    ensures (c >> 35) & 0x01 != 0 <==> c & 0x0800000000 != 0
    ensures (c >> 35) & 0x02 != 0 <==> c & 0x1000000000 != 0
    ensures (c >> 35) & 0x04 != 0 <==> c & 0x2000000000 != 0
    ensures (c >> 35) & 0x08 != 0 <==> c & 0x4000000000 != 0
    ensures (c >> 35) & 0x10 != 0 <==> c & 0x8000000000 != 0
  {
  }

  lemma StepByBits(c: bv64, d: bv8)
    ensures var c0 := c >> 35;
            Step(c, d) ==
            Xor(Xor(Xor(Xor(Xor(Xor(Up(c), Widen(d)),
                                When(c0 & 0x01 != 0, 0x98f2bc8e61)),
                            When(c0 & 0x02 != 0, 0x79b76d99e2)),
                        When(c0 & 0x04 != 0, 0xf33e5fb3c4)),
                    When(c0 & 0x08 != 0, 0xae2eabe2a8)),
                When(c0 & 0x10 != 0, 0x1e4f43e470))
  {
    hide Xor, Up, Widen, When;
    LeadingBits(c);
    var start := Xor(Up(c), Widen(d));
    var k1, k2 := When(c & 0x0800000000 != 0, 0x98f2bc8e61), When(c & 0x1000000000 != 0, 0x79b76d99e2);
    var k3, k4 := When(c & 0x2000000000 != 0, 0xf33e5fb3c4), When(c & 0x4000000000 != 0, 0xae2eabe2a8);
    var k5 := When(c & 0x8000000000 != 0, 0x1e4f43e470);
    Associative(start, k1, k2);
    Associative(Xor(Xor(start, k1), k2), k3, k4);
    Associative(Xor(Xor(start, k1), k2), Xor(k3, k4), k5);
    Associative(start, Xor(k1, k2), Xor(Xor(k3, k4), k5));
  }
}
