/** Proof of work: the target required of the next block, and the header checks that depend on it. */
module Retarget {
  import opened Common
  import opened Powers
  import opened Limbs
  import opened LimbShifts
  import opened Arith256
  import opened Difficulty
  import opened MedianTime

  datatype Params = Params(
    powLimit: seq<nat>,
    nPowTargetSpacing: int, nPowAveragingWindow: int, nPowMaxAdjustDown: int, nPowMaxAdjustUp: int,
    BIP34Height: int, BIP65Height: int, BIP66Height: int)

  function AveragingWindowTimespan(p: Params): int {
    p.nPowAveragingWindow * p.nPowTargetSpacing
  }

  function MinActualTimespan(p: Params): int {
    AveragingWindowTimespan(p) * (100 - p.nPowMaxAdjustUp) / 100
  }

  function MaxActualTimespan(p: Params): int {
    AveragingWindowTimespan(p) * (100 + p.nPowMaxAdjustDown) / 100
  }

  /** Parameters within the ranges that the arithmetic on them needs. */
  ghost predicate Sane(p: Params) {
    |p.powLimit| == WIDTH && Ok(p.powLimit) && Val(p.powLimit) > 0 &&
    p.nPowAveragingWindow >= 1 && p.nPowTargetSpacing >= 1 && 0 <= p.nPowMaxAdjustUp <= 100 &&
    0 <= p.nPowMaxAdjustDown <= 100 * p.nPowAveragingWindow - 100 &&
    1 <= MinActualTimespan(p) && MaxActualTimespan(p) < B
  }

  /** A whole window of the easiest targets does not wrap around 2^256. */
  ghost predicate Headroom(p: Params) {
    p.nPowAveragingWindow * Val(p.powLimit) < Base(WIDTH)
  }

  lemma TimespanOrder(p: Params)
    requires Sane(p)
    ensures 1 <= MinActualTimespan(p) <= AveragingWindowTimespan(p) <= MaxActualTimespan(p) < B
    ensures p.nPowAveragingWindow <= AveragingWindowTimespan(p)
    ensures 100 * MaxActualTimespan(p) <= AveragingWindowTimespan(p) * (100 + p.nPowMaxAdjustDown)
    ensures MaxActualTimespan(p) <= AveragingWindowTimespan(p) * p.nPowAveragingWindow
  {
    var w := AveragingWindowTimespan(p);
    MulMonotone(1, p.nPowTargetSpacing, p.nPowAveragingWindow);
    hide AveragingWindowTimespan;
    Percentages(w, p.nPowAveragingWindow, 100 - p.nPowMaxAdjustUp, 100 + p.nPowMaxAdjustDown);
  }

  lemma Percentages(w: nat, n: nat, low: nat, high: nat)
    requires low <= 100 <= high <= 100 * n
    ensures w * low / 100 <= w <= w * high / 100 <= w * n
    ensures 100 * (w * high / 100) <= w * high
  {
    MulMonotone(low, 100, w);
    MulMonotone(100, high, w);
    MulMonotone(high, 100 * n, w);
    assert w * (100 * n) == 100 * (w * n);
    assert low * w == w * low && high * w == w * high && 100 * n * w == w * (100 * n);
  }

  // -------------------------------------------------------- what is computed

  /** The time between two medians, limited to what one adjustment allows. */
  function Timespan(p: Params, t: int): int {
    var raised := if t < MinActualTimespan(p) then MinActualTimespan(p) else t;
    if MaxActualTimespan(p) < raised then MaxActualTimespan(p) else raised
  }

  lemma TimespanRange(p: Params, t: int)
    requires Sane(p)
    ensures MinActualTimespan(p) <= Timespan(p, t) <= MaxActualTimespan(p)
  {
    hide MinActualTimespan, MaxActualTimespan, AveragingWindowTimespan;
    TimespanOrder(p);
  }

  ghost function Scaled(p: Params, avg: nat, t: int): (r: nat)
    requires Sane(p)
  {
    TimespanOrder(p);
    TimespanRange(p, t);
    Product(Quotient(avg, AveragingWindowTimespan(p)), Timespan(p, t))
  }

  function Product(x: nat, y: nat): nat {
    x * y
  }

  /** The target for a given average and time, in 256-bit arithmetic. */
  ghost function Retargeted(p: Params, avg: nat, t: int): nat
    requires Sane(p)
  {
    Min(Val(p.powLimit), Scaled(p, avg, t) % Base(WIDTH))
  }

  /** A compact number is what a value is written as. */
  ghost predicate Writes(v: nat, c: nat) {
    c < 0x1_0000_0000 && !Sign(c) && exists n :: ByteLength(v, n) && Coded(v, n, c)
  }

  ghost function Target(b: Header): nat {
    Magnitude(b.nBits) % Base(WIDTH)
  }

  /** The targets of the last blocks of a chain, added up. */
  ghost function Sum(chain: seq<Header>, i: nat): nat
    requires i <= |chain|
  {
    if i == 0 then 0 else Sum(chain, i - 1) + Target(chain[|chain| - i])
  }

  /** The average over the window, of a sum that is kept in 256 bits. */
  ghost function Average(p: Params, chain: seq<Header>): nat
    requires p.nPowAveragingWindow >= 1 && |chain| >= p.nPowAveragingWindow
  {
    Quotient(Sum(chain, p.nPowAveragingWindow) % Base(WIDTH), p.nPowAveragingWindow)
  }

  ghost function Elapsed(p: Params, chain: seq<Header>): int
    requires p.nPowAveragingWindow >= 1 && |chain| > p.nPowAveragingWindow
  {
    MedianTimePast(chain) - MedianTimePast(chain[..|chain| - p.nPowAveragingWindow])
  }

  ghost function NextTarget(p: Params, chain: seq<Header>): nat
    requires Sane(p)
  {
    if |chain| <= p.nPowAveragingWindow then Val(p.powLimit) else Retargeted(p, Average(p, chain), Elapsed(p, chain))
  }

  // ----------------------------------------------------------------- methods

  method CalculateNextWorkRequired(bnAvg: seq<nat>, lastBlockTime: int, firstBlockTime: int, p: Params)
    returns (nBits: nat)
    requires Sane(p) && |bnAvg| == WIDTH && Ok(bnAvg)
    ensures Writes(Retargeted(p, Val(bnAvg), lastBlockTime - firstBlockTime), nBits)
  {
    hide Val, Base, ByteLength, Coded, Truncated, MinActualTimespan, MaxActualTimespan, AveragingWindowTimespan;
    TimespanOrder(p);
    TimespanRange(p, lastBlockTime - firstBlockTime);
    var actualTimeSpan := lastBlockTime - firstBlockTime;
    if actualTimeSpan < MinActualTimespan(p) {
      actualTimeSpan := MinActualTimespan(p);
    }
    if MaxActualTimespan(p) < actualTimeSpan {
      actualTimeSpan := MaxActualTimespan(p);
    }
    var bnNew := new BaseUint(bnAvg);
    FromWordValue(AveragingWindowTimespan(p));
    var ok := bnNew.Divide(FromWord(AveragingWindowTimespan(p)));
    bnNew.MultiplyWord(actualTimeSpan);
    var least := bnNew.pn[..];
    var c := BaseUint.CompareTo(least, p.powLimit);
    if c != -1 {
      least := p.powLimit;
    }
    nBits := GetCompact(least, false);
  }

  lemma SumModulo(a: nat, b: nat, m: nat)
    requires m >= 1
    ensures (a % m + b) % m == (a + b) % m
  {
    var q := (a % m + b) / m;
    Distribute(a / m, q, m);
    DivModUnique(a + b, m, a / m + q, (a % m + b) % m);
  }

  /** The sum of the last targets, of as many as there are, and how many blocks come before them. */
  method SumTargets(chain: seq<Header>, n: nat) returns (bnTot: seq<nat>, pindexFirst: nat)
    requires forall b :: b in chain ==> b.nBits < 0x1_0000_0000
    ensures |bnTot| == WIDTH && Ok(bnTot) && pindexFirst == (if n < |chain| then |chain| - n else 0)
    ensures Val(bnTot) == Wrap(Sum(chain, |chain| - pindexFirst))
  {
    hide Val, Base, Target, Wrap;
    var total := new BaseUint(FromWord(0));
    FromWordValue(0);
    WrapZero();
    pindexFirst := |chain|;
    var i := 0;
    while pindexFirst > 0 && i < n
      invariant 0 <= i <= n && pindexFirst == |chain| - i >= 0
      invariant total.Valid() && fresh(total.pn) && total.Value() == Wrap(Sum(chain, i))
    {
      AddTarget(total, chain[pindexFirst - 1], Sum(chain, i));
      pindexFirst := pindexFirst - 1;
      i := i + 1;
    }
    bnTot := total.pn[..];
  }

  method AddTarget(total: BaseUint, b: Header, ghost sum: nat)
    requires total.Valid() && total.Value() == Wrap(sum) && b.nBits < 0x1_0000_0000
    modifies total.pn
    ensures total.Valid() && total.Value() == Wrap(sum + Target(b))
  {
    hide Val, Base, Magnitude, Mantissa;
    var bnTmp, _, _ := SetCompact(b.nBits);
    total.Add(bnTmp);
    SumModulo(sum, Target(b), Base(WIDTH));
  }

  ghost function Wrap(x: nat): nat {
    x % Base(WIDTH)
  }

  lemma WrapZero()
    ensures Wrap(0) == 0
  {
    hide Base;
    DivModUnique(0, Base(WIDTH), 0, 0);
  }

  method GetNextWorkRequired(chain: seq<Header>, p: Params) returns (nBits: nat)
    requires chain != [] && Sane(p) && forall b :: b in chain ==> b.nBits < 0x1_0000_0000
    ensures Writes(NextTarget(p, chain), nBits)
  {
    hide Val, Base, ByteLength, Coded, Truncated, MinActualTimespan, MaxActualTimespan, AveragingWindowTimespan;
    hide MedianTimePast, Retargeted, Magnitude, Mantissa, Sum;
    TimespanOrder(p);
    var pow := GetCompact(p.powLimit, false);
    var bnTot, pindexFirst := SumTargets(chain, p.nPowAveragingWindow);
    if pindexFirst == 0 {
      return pow;
    }
    var bnAvg := new BaseUint(bnTot);
    FromWordValue(p.nPowAveragingWindow);
    var ok := bnAvg.Divide(FromWord(p.nPowAveragingWindow));
    var last := GetMedianTimePast(chain);
    var first := GetMedianTimePast(chain[..pindexFirst]);
    nBits := CalculateNextWorkRequired(bnAvg.pn[..], last, first, p);
  }

  ghost predicate InRange(p: Params, nBits: nat) {
    ValidTarget(nBits) && Magnitude(nBits) <= Val(p.powLimit)
  }

  /** Accepts exactly the hashes that do not exceed a target that is positive, fits, and is within the limit. */
  method CheckProofOfWork(hash: seq<nat>, nBits: nat, p: Params) returns (ok: bool)
    requires Sane(p) && |hash| == WIDTH && Ok(hash) && nBits < 0x1_0000_0000
    ensures ok <==> InRange(p, nBits) && Val(hash) <= Magnitude(nBits)
  {
    hide Val, Base, Pow2, Magnitude, Mantissa, Sign;
    var bnTarget, fNegative, fOverflow := SetCompact(nBits);
    WholeBase();
    ZeroMantissa(nBits);
    FromWordValue(0);
    var zero := BaseUint.CompareTo(bnTarget, FromWord(0));
    var limit := BaseUint.CompareTo(p.powLimit, bnTarget);
    if fNegative || zero == 0 || fOverflow || limit == -1 {
      return false;
    }
    var c := BaseUint.CompareTo(bnTarget, hash);
    ok := c != -1;
  }

  datatype Verdict = Accepted | BadDiffBits | TimeTooOld | TimeTooNew | BadVersion

  predicate Outdated(p: Params, nVersion: int, nHeight: int) {
    (nVersion < 2 && nHeight >= p.BIP34Height) ||
    (nVersion < 3 && nHeight >= p.BIP66Height) ||
    (nVersion < 4 && nHeight >= p.BIP65Height)
  }

  /** Which versions are refused at a height, version by version. */
  lemma OutdatedIs(p: Params, nVersion: int, nHeight: int)
    ensures nVersion >= 4 ==> !Outdated(p, nVersion, nHeight)
    ensures nVersion == 3 ==> (Outdated(p, nVersion, nHeight) <==> nHeight >= p.BIP65Height)
    ensures nVersion == 2 ==> (Outdated(p, nVersion, nHeight) <==> nHeight >= Min(p.BIP65Height, p.BIP66Height))
    ensures nVersion <= 1 ==>
              (Outdated(p, nVersion, nHeight) <==> nHeight >= Min(p.BIP34Height, Min(p.BIP65Height, p.BIP66Height)))
  {
  }

  /** The checks of a header against the chain it extends, in their order. */
  method ContextualCheckBlockHeader(block: Header, chain: seq<Header>, p: Params, nAdjustedTime: int)
    returns (v: Verdict)
    requires chain != [] && Sane(p) && block.nBits < 0x1_0000_0000
    requires forall b :: b in chain ==> b.nBits < 0x1_0000_0000
    ensures v == BadDiffBits <==> !Writes(NextTarget(p, chain), block.nBits)
    ensures v == TimeTooOld <==>
            Writes(NextTarget(p, chain), block.nBits) && block.nTime <= MedianTimePast(chain)
    ensures v == TimeTooNew <==>
            Writes(NextTarget(p, chain), block.nBits) && block.nTime > MedianTimePast(chain) &&
            block.nTime > nAdjustedTime + 2 * 60 * 60
    ensures v == BadVersion <==>
            Writes(NextTarget(p, chain), block.nBits) &&
            MedianTimePast(chain) < block.nTime <= nAdjustedTime + 2 * 60 * 60 &&
            Outdated(p, block.nVersion, |chain|)
    ensures v == Accepted <==>
            Writes(NextTarget(p, chain), block.nBits) &&
            MedianTimePast(chain) < block.nTime <= nAdjustedTime + 2 * 60 * 60 &&
            !Outdated(p, block.nVersion, |chain|)
  {
    hide MedianTimePast, NextTarget, Writes, Sane;
    var bits := GetNextWorkRequired(chain, p);
    if block.nBits != bits {
      if Writes(NextTarget(p, chain), block.nBits) {
        WritesUnique(NextTarget(p, chain), bits, block.nBits);
      }
      return BadDiffBits;
    }
    var m := GetMedianTimePast(chain);
    if block.nTime <= m {
      return TimeTooOld;
    }
    if block.nTime > nAdjustedTime + 2 * 60 * 60 {
      return TimeTooNew;
    }
    if Outdated(p, block.nVersion, |chain|) {
      return BadVersion;
    }
    return Accepted;
  }

  // ------------------------------------------------------- what compact keeps

  lemma WritesUnique(v: nat, c: nat, c': nat)
    requires Writes(v, c) && Writes(v, c')
    ensures c == c'
  {
    hide ByteLength, Leading;
    var n :| ByteLength(v, n) && Coded(v, n, c);
    var n' :| ByteLength(v, n') && Coded(v, n', c');
    OneByteLength(v, n, n');
    Unpacked(c);
    Unpacked(c');
  }

  /** A written target is not above its value, and loses less than one part in 2^15 of it. */
  lemma Precision(v: nat, c: nat)
    requires Writes(v, c)
    ensures Magnitude(c) <= v && v * 0x8000 <= Magnitude(c) * 0x8001
  {
    hide ByteLength, Leading, Magnitude, Bytes;
    var n :| ByteLength(v, n) && Coded(v, n, c);
    LeadingRange(v, n);
    CompactValue(v, n, c, Size(c), Word(c));
    TruncatedBelow(v, Size(c));
    MagnitudeBytes(c);
    if Size(c) > 3 && v > 0 {
      Lost(v, Bytes(Size(c) - 3), Word(c));
    }
  }

  lemma Lost(v: nat, p: nat, word: nat)
    requires p >= 1 && word >= 0x8000 && word * p == Quotient(v, p) * p
    ensures v * 0x8000 <= word * p * 0x8001
  {
    MulMonotone(0x8000, word, p);
    assert v == v / p * p + v % p;
  }

  /** The bits required of the next block are accepted as a target exactly when that target is not zero. */
  lemma UsableExact(p: Params, v: nat, c: nat)
    requires Sane(p) && v <= Val(p.powLimit) && Writes(v, c)
    ensures InRange(p, c) <==> v > 0
  {
    hide Writes, Magnitude, Val, Base, Pow2;
    Precision(v, c);
    NotNegative(v, c);
    ValRange(p.powLimit);
    WholeBase();
  }

  lemma NotNegative(v: nat, c: nat)
    requires Writes(v, c)
    ensures !Sign(c) && c < 0x1_0000_0000
  {
  }

  // ------------------------------------------------------------ one step

  lemma AverageOf(p: Params, chain: seq<Header>)
    requires p.nPowAveragingWindow >= 1 && |chain| >= p.nPowAveragingWindow
    ensures Average(p, chain) * p.nPowAveragingWindow <= Sum(chain, p.nPowAveragingWindow) % Base(WIDTH)
  {
    hide Base, Sum;
    var s, w := Sum(chain, p.nPowAveragingWindow) % Base(WIDTH), p.nPowAveragingWindow;
    assert s == s / w * w + s % w;
  }

  lemma AverageFits(p: Params, chain: seq<Header>)
    requires p.nPowAveragingWindow >= 1 && |chain| >= p.nPowAveragingWindow
    ensures Average(p, chain) * p.nPowAveragingWindow < Base(WIDTH)
  {
    hide Base, Sum, Average;
    AverageOf(p, chain);
  }

  /** Scaling an average of a window never wraps around 2^256. */
  lemma ScaledFits(p: Params, avg: nat, t: int)
    requires Sane(p) && avg * p.nPowAveragingWindow < Base(WIDTH)
    ensures Scaled(p, avg, t) < Base(WIDTH)
  {
    hide Base, Val, MinActualTimespan, MaxActualTimespan, AveragingWindowTimespan, Timespan, Product, Quotient;
    TimespanOrder(p);
    TimespanRange(p, t);
    ProductBelow(avg, AveragingWindowTimespan(p), p.nPowAveragingWindow, Timespan(p, t));
  }

  lemma ProductBelow(avg: nat, w: nat, n: nat, t: nat)
    requires w >= 1 && t <= w * n
    ensures Product(Quotient(avg, w), t) <= avg * n
  {
    var q := avg / w;
    assert avg == q * w + avg % w;
    MulMonotone(t, w * n, q);
    MulMonotone(q * w, avg, n);
    Rearranged(w, n, q, t);
  }

  lemma Rearranged(w: int, n: int, q: int, t: int)
    ensures w * n * q == q * w * n && q * t == t * q
  {
  }

  /** The bounds of one adjustment, from the average target of the window. */
  lemma ScaledBounds(p: Params, avg: nat, t: int)
    requires Sane(p)
    ensures 100 * Scaled(p, avg, t) <= avg * (100 + p.nPowMaxAdjustDown)
    ensures (avg - AveragingWindowTimespan(p)) * MinActualTimespan(p) <= AveragingWindowTimespan(p) * Scaled(p, avg, t)
    ensures Scaled(p, avg, t) == 0 <==> avg < AveragingWindowTimespan(p)
  {
    hide Base, Val, MinActualTimespan, MaxActualTimespan, AveragingWindowTimespan, Timespan;
    TimespanOrder(p);
    TimespanRange(p, t);
    Bounds(avg, AveragingWindowTimespan(p), Timespan(p, t), MinActualTimespan(p), MaxActualTimespan(p),
           100 + p.nPowMaxAdjustDown);
  }

  lemma Bounds(avg: nat, w: nat, t: nat, low: nat, high: nat, percent: nat)
    requires w >= 1 && 1 <= low <= t <= high && 100 * high <= w * percent
    ensures 100 * Product(avg / w, t) <= avg * percent
    ensures (avg - w) * low <= w * Product(avg / w, t)
    ensures Product(avg / w, t) == 0 <==> avg < w
  {
    var q := avg / w;
    assert avg == q * w + avg % w;
    UpperBound(avg, q, w, t, high, percent);
    LowerBound(avg, q, w, t, low);
    ZeroProduct(q, t);
    if avg < w {
      DivModUnique(avg, w, 0, avg);
    } else if q < 1 {
      MulMonotone(q, 0, w);
    }
  }

  lemma ZeroProduct(q: nat, t: nat)
    requires t >= 1
    ensures q * t == 0 <==> q == 0
  {
    MulMonotone(1, t, q);
  }

  lemma UpperBound(avg: nat, q: nat, w: nat, t: nat, high: nat, percent: nat)
    requires q * w <= avg && t <= high && 100 * high <= w * percent
    ensures 100 * (q * t) <= avg * percent
  {
    MulMonotone(100 * t, w * percent, q);
    assert 100 * t * q == 100 * (q * t) && w * percent * q == q * w * percent;
    MulMonotone(q * w, avg, percent);
  }

  lemma LowerBound(avg: nat, q: nat, w: nat, t: nat, low: nat)
    requires avg - w <= q * w && low <= t
    ensures (avg - w) * low <= w * (q * t)
  {
    MulMonotone(avg - w, q * w, low);
    MulMonotone(low, t, q * w);
    assert low * (q * w) == q * w * low && t * (q * w) == w * (q * t);
  }

  /** The next target, without any wrap-around: the smaller of the limit and the scaled average. */
  lemma NextTargetExact(p: Params, chain: seq<Header>)
    requires Sane(p) && |chain| > p.nPowAveragingWindow
    ensures NextTarget(p, chain) == Min(Val(p.powLimit), Scaled(p, Average(p, chain), Elapsed(p, chain)))
  {
    hide Base, Val, Average, Elapsed, Scaled;
    var v := Scaled(p, Average(p, chain), Elapsed(p, chain));
    AverageFits(p, chain);
    ScaledFits(p, Average(p, chain), Elapsed(p, chain));
    DivModUnique(v, Base(WIDTH), 0, v);
  }

  /** The adjustment that a given time between the medians stands for. */
  lemma TimespanIs(p: Params, t: int)
    requires Sane(p)
    ensures t <= MinActualTimespan(p) ==> Timespan(p, t) == MinActualTimespan(p)
    ensures t >= MaxActualTimespan(p) ==> Timespan(p, t) == MaxActualTimespan(p)
    ensures MinActualTimespan(p) <= t <= MaxActualTimespan(p) ==> Timespan(p, t) == t
  {
    hide MinActualTimespan, MaxActualTimespan, AveragingWindowTimespan;
    TimespanOrder(p);
  }

  /**
    The next target past the window: the average, divided by the timespan of the window and multiplied
    by the time between the medians, but by no less and no more than the adjustment allows.
  */
  lemma NextTargetClamped(p: Params, chain: seq<Header>)
    requires Sane(p) && |chain| > p.nPowAveragingWindow
    ensures var w := p.nPowAveragingWindow * p.nPowTargetSpacing;
            var low, high := w * (100 - p.nPowMaxAdjustUp) / 100, w * (100 + p.nPowMaxAdjustDown) / 100;
            var t := MedianTimePast(chain) - MedianTimePast(chain[..|chain| - p.nPowAveragingWindow]);
            var limit, next := Val(p.powLimit), NextTarget(p, chain);
            && 1 <= low <= w <= high
            && (t <= low ==> next == Min(limit, Average(p, chain) / w * low))
            && (low <= t <= high ==> next == Min(limit, Average(p, chain) / w * t))
            && (t >= high ==> next == Min(limit, Average(p, chain) / w * high))
  {
    hide Val, Base, Average, MedianTimePast, NextTarget, Timespan;
    TimespanOrder(p);
    TimespanIs(p, Elapsed(p, chain));
    NextTargetExact(p, chain);
  }

  /** For the same average, more time never makes the next target harder. */
  lemma NextTargetMonotone(p: Params, chain: seq<Header>, chain': seq<Header>)
    requires Sane(p) && |chain| > p.nPowAveragingWindow && |chain'| > p.nPowAveragingWindow
    requires Average(p, chain) == Average(p, chain') && Elapsed(p, chain) <= Elapsed(p, chain')
    ensures NextTarget(p, chain) <= NextTarget(p, chain')
  {
    hide Val, Base, Average, Elapsed, NextTarget, MinActualTimespan, MaxActualTimespan, AveragingWindowTimespan,
         Quotient;
    TimespanOrder(p);
    NextTargetExact(p, chain);
    NextTargetExact(p, chain');
    var t, t' := Elapsed(p, chain), Elapsed(p, chain');
    TimespanRange(p, t);
    TimespanRange(p, t');
    MulMonotone(Timespan(p, t), Timespan(p, t'), Quotient(Average(p, chain), AveragingWindowTimespan(p)));
  }

  /** Blocks that come too fast never make mining easier; blocks that come too slowly hardly make it harder. */
  lemma DirectionRight(p: Params, chain: seq<Header>)
    requires Sane(p) && |chain| > p.nPowAveragingWindow
    ensures var w, avg := p.nPowAveragingWindow * p.nPowTargetSpacing, Average(p, chain);
            && (Elapsed(p, chain) <= w ==> NextTarget(p, chain) <= avg)
            && (Elapsed(p, chain) >= w ==> NextTarget(p, chain) >= Min(Val(p.powLimit), avg - w + 1))
  {
    hide Val, Base, Average, Elapsed, NextTarget, MinActualTimespan, MaxActualTimespan;
    TimespanOrder(p);
    NextTargetExact(p, chain);
    var t, w, avg := Timespan(p, Elapsed(p, chain)), AveragingWindowTimespan(p), Average(p, chain);
    TimespanRange(p, Elapsed(p, chain));
    hide AveragingWindowTimespan;
    var q := Quotient(avg, w);
    assert avg == q * w + avg % w;
    if t <= w {
      MulMonotone(t, w, q);
    }
    if t >= w {
      MulMonotone(w, t, q);
    }
  }

  lemma NextInLimit(p: Params, chain: seq<Header>)
    requires Sane(p)
    ensures NextTarget(p, chain) <= Val(p.powLimit)
  {
  }

  /** How far the bits of the next block move from the average of the window. */
  lemma StepBounds(p: Params, chain: seq<Header>, c: nat)
    requires Sane(p) && |chain| > p.nPowAveragingWindow && Writes(NextTarget(p, chain), c)
    ensures 100 * Magnitude(c) <= Average(p, chain) * (100 + p.nPowMaxAdjustDown)
    ensures NextTarget(p, chain) < Val(p.powLimit) ==>
              (Average(p, chain) - AveragingWindowTimespan(p)) * MinActualTimespan(p)
                <= AveragingWindowTimespan(p) * NextTarget(p, chain)
    ensures InRange(p, c) <==> Average(p, chain) >= AveragingWindowTimespan(p)
  {
    hide Writes, Average, Elapsed, Scaled, NextTarget, Val, Base, Magnitude, AveragingWindowTimespan, MinActualTimespan,
         InRange;
    NextTargetExact(p, chain);
    NextInLimit(p, chain);
    ScaledBounds(p, Average(p, chain), Elapsed(p, chain));
    Precision(NextTarget(p, chain), c);
    UsableExact(p, NextTarget(p, chain), c);
  }

  // ------------------------------------------------------------ whole chains

  /** Every block carries the bits required after the blocks before it; the first is within the limit. */
  ghost predicate Follows(p: Params, chain: seq<Header>)
    requires Sane(p)
  {
    chain != [] && InLimit(p, chain[0]) &&
    forall h :: 1 <= h < |chain| ==> Writes(NextTarget(p, chain[..h]), chain[h].nBits)
  }

  ghost predicate InLimit(p: Params, b: Header) {
    !Sign(b.nBits) && b.nBits < 0x1_0000_0000 && Magnitude(b.nBits) <= Val(p.powLimit)
  }

  /** No block of such a chain has a target above the limit. */
  lemma RunInLimit(p: Params, chain: seq<Header>, h: nat)
    requires Sane(p) && Follows(p, chain) && h < |chain|
    ensures InLimit(p, chain[h]) && Target(chain[h]) == Magnitude(chain[h].nBits)
  {
    hide Writes, NextTarget, Val, Base, Magnitude, Sane;
    if h > 0 {
      NextInLimit(p, chain[..h]);
      Precision(NextTarget(p, chain[..h]), chain[h].nBits);
      NotNegative(NextTarget(p, chain[..h]), chain[h].nBits);
    }
    LimitFits(p);
    DivModUnique(Magnitude(chain[h].nBits), Base(WIDTH), 0, Magnitude(chain[h].nBits));
  }

  lemma LimitFits(p: Params)
    requires Sane(p)
    ensures Val(p.powLimit) < Base(WIDTH)
  {
    hide Val, Base;
    ValRange(p.powLimit);
  }

  /** The targets themselves, added up without a bound. */
  ghost function Total(chain: seq<Header>, i: nat): nat
    requires i <= |chain|
  {
    if i == 0 then 0 else Total(chain, i - 1) + Magnitude(chain[|chain| - i].nBits)
  }

  lemma {:induction false} SumIsTotal(p: Params, chain: seq<Header>, i: nat)
    requires Sane(p) && Follows(p, chain) && i <= |chain|
    ensures Sum(chain, i) == Total(chain, i) <= i * Val(p.powLimit)
  {
    hide Follows, Val, Base, Magnitude, Sane;
    if i > 0 {
      SumIsTotal(p, chain, i - 1);
      RunInLimit(p, chain, |chain| - i);
      Distribute(i - 1, 1, Val(p.powLimit));
    }
  }

  /** The computed average is the average of the targets exactly when their sum fits 256 bits. */
  lemma AverageExact(p: Params, chain: seq<Header>)
    requires Sane(p) && Follows(p, chain) && |chain| >= p.nPowAveragingWindow
    ensures Average(p, chain) == Total(chain, p.nPowAveragingWindow) / p.nPowAveragingWindow <==>
            Total(chain, p.nPowAveragingWindow) < Base(WIDTH)
  {
    hide Follows, Val, Base, Sum, Total, AveragingWindowTimespan, MinActualTimespan, MaxActualTimespan;
    var n := p.nPowAveragingWindow;
    var s, m := Total(chain, n), Base(WIDTH);
    SumIsTotal(p, chain, n);
    TimespanOrder(p);
    BaseNext(7);
    MulMonotone(1, Base(7), B);
    if s < m {
      DivModUnique(s, m, 0, s);
    } else {
      WrapLoses(s, m);
      QuotientLess(s % m, s, n);
    }
  }

  lemma WrapLoses(s: nat, m: nat)
    requires 1 <= m <= s
    ensures s % m + m <= s
  {
    assert s == s / m * m + s % m;
    if s / m < 1 {
      MulMonotone(s / m, 0, m);
    } else {
      MulMonotone(1, s / m, m);
    }
  }

  lemma QuotientLess(r: nat, s: nat, n: nat)
    requires n >= 1 && r + n <= s
    ensures r / n < s / n
  {
    if s / n <= r / n {
      MulMonotone(s / n, r / n, n);
    }
  }

  /** With headroom, the average of every chain is the average of its targets. */
  lemma TrueAverage(p: Params, chain: seq<Header>)
    requires Sane(p) && Headroom(p) && Follows(p, chain) && |chain| >= p.nPowAveragingWindow
    ensures Average(p, chain) == Total(chain, p.nPowAveragingWindow) / p.nPowAveragingWindow <= Val(p.powLimit)
  {
    hide Follows, Val, Base, Sum, Total;
    var n := p.nPowAveragingWindow;
    SumIsTotal(p, chain, n);
    DivModUnique(Sum(chain, n), Base(WIDTH), 0, Sum(chain, n));
    AtMost(Total(chain, n), n, Val(p.powLimit));
  }

  lemma AtMost(s: nat, n: nat, v: nat)
    requires n >= 1 && s <= n * v
    ensures s / n <= v
  {
    if s / n >= v + 1 {
      MulMonotone(v + 1, s / n, n);
      Distribute(v, 1, n);
    }
  }

  /** A chain that every header check of this module has accepted. */
  ghost predicate AcceptedChain(p: Params, chain: seq<Header>)
    requires Sane(p)
  {
    Follows(p, chain) && Timely(chain) && forall b :: b in chain ==> InRange(p, b.nBits)
  }

  /**
   * What holds of every accepted chain past the window: time has not gone back over the window, the
   * target moves from the true average of the window by no more than the adjustment allows, and the
   * next block can be mined exactly when that average has not fallen below the window's timespan.
   */
  lemma AcceptedRun(p: Params, chain: seq<Header>, c: nat)
    requires Sane(p) && Headroom(p) && AcceptedChain(p, chain) && |chain| > p.nPowAveragingWindow
    requires Writes(NextTarget(p, chain), c)
    ensures Elapsed(p, chain) >= 0
    ensures var avg := Total(chain, p.nPowAveragingWindow) / p.nPowAveragingWindow;
            avg <= Val(p.powLimit) && 100 * Magnitude(c) <= avg * (100 + p.nPowMaxAdjustDown) &&
            (InRange(p, c) <==> avg >= AveragingWindowTimespan(p))
  {
    hide Follows, Writes, Average, NextTarget, Val, Base, Magnitude, AveragingWindowTimespan, InRange, Total,
         MedianTimePast;
    var n := p.nPowAveragingWindow;
    MedianMonotone(chain, |chain| - n, |chain|);
    assert chain[..|chain|] == chain;
    TrueAverage(p, chain);
    StepBounds(p, chain, c);
  }

  // ---------------------------------------------------------------- networks

  function Network(top: nat, fill: nat, down: int, up: int, bip34: int, bip65: int, bip66: int): Params {
    Params([fill, fill, fill, fill, fill, fill, fill, top], 10 * 60, 30, down, up, bip34, bip65, bip66)
  }

  const MAIN := Network(0x0007_ffff, 0xffff_ffff, 32, 16, 1, 0, 0)
  const TESTNET := Network(0x07ff_ffff, 0xffff_ffff, 32, 16, 0, 0, 0)
  const REGTEST := Network(0x0f0f_0f0f, 0x0f0f_0f0f, 0, 0, 100_000_000, 1351, 1251)

  /** The top limb bounds a value from both sides. */
  lemma TopLimb(l: seq<nat>)
    requires |l| == WIDTH && Ok(l)
    ensures l[7] * Base(7) <= Val(l) < (l[7] + 1) * Base(7)
    ensures Base(WIDTH) == B * Base(7)
  {
    hide Val, Base;
    BaseNext(7);
    ValNext(l, 7);
    assert l[..8] == l;
    ValRange(l[..7]);
    Distribute(l[7], 1, Base(7));
  }

  lemma NetworkSane(top: nat, fill: nat, down: int, up: int, bip34: int, bip65: int, bip66: int)
    requires 1 <= top < B && fill < B && 0 <= down <= 100 && 0 <= up <= 50
    ensures Sane(Network(top, fill, down, up, bip34, bip65, bip66))
  {
    hide Val, Base;
    var p := Network(top, fill, down, up, bip34, bip65, bip66);
    TopLimb(p.powLimit);
    MulMonotone(1, top, Base(7));
    assert AveragingWindowTimespan(p) == 18000;
  }

  /** The public networks have headroom for a whole window. The regression test network has not. */
  lemma Networks()
    ensures Sane(MAIN) && Headroom(MAIN) && Sane(TESTNET) && Headroom(TESTNET)
    ensures Sane(REGTEST) && !Headroom(REGTEST)
  {
    hide Val, Base, Sane;
    NetworkSane(0x0007_ffff, 0xffff_ffff, 32, 16, 1, 0, 0);
    NetworkSane(0x07ff_ffff, 0xffff_ffff, 32, 16, 0, 0, 0);
    NetworkSane(0x0f0f_0f0f, 0x0f0f_0f0f, 0, 0, 100_000_000, 1351, 1251);
    TopLimb(MAIN.powLimit);
    TopLimb(TESTNET.powLimit);
    TopLimb(REGTEST.powLimit);
  }

  /** Blocks at the limit: their bits keep almost all of it, whatever the number of blocks. */
  lemma {:induction false} EasyTotal(p: Params, chain: seq<Header>, i: nat)
    requires Sane(p) && Follows(p, chain) && |chain| == p.nPowAveragingWindow + 1 && i <= p.nPowAveragingWindow
    ensures i * Val(p.powLimit) * 0x8000 <= Total(chain, i) * 0x8001
  {
    hide Val, Base, Magnitude, Writes, Sane;
    if i > 0 {
      EasyTotal(p, chain, i - 1);
      var h := |chain| - i;
      assert NextTarget(p, chain[..h]) == Val(p.powLimit);
      Precision(Val(p.powLimit), chain[h].nBits);
      Distribute(i - 1, 1, Val(p.powLimit));
    }
  }

  /**
   * The regression test network, whose first blocks all have the easiest target: as soon as the window
   * is full the sum wraps around, and the next target is less than half of the target of every block.
   */
  lemma RegtestWraps(chain: seq<Header>)
    requires Sane(REGTEST) && Follows(REGTEST, chain) && |chain| == 31
    ensures Average(REGTEST, chain) != Total(chain, 30) / 30
    ensures 2 * NextTarget(REGTEST, chain) < Val(REGTEST.powLimit)
  {
    hide Val, Base, Sane, Follows, Total, Average, Scaled, NextTarget, Elapsed;
    var p := REGTEST;
    var v := Val(p.powLimit);
    TopLimb(p.powLimit);
    EasyTotal(p, chain, 30);
    SumIsTotal(p, chain, 30);
    AverageExact(p, chain);
    NextTargetExact(p, chain);
    ScaledBounds(p, Average(p, chain), Elapsed(p, chain));
    AverageOf(p, chain);
    WrapLoses(Total(chain, 30), Base(WIDTH));
  }

  /** The limit of that network is written as the bits of its first block. */
  lemma RegtestBits()
    requires Sane(REGTEST)
    ensures Writes(Val(REGTEST.powLimit), 0x200f_0f0f)
  {
    hide Val, Base, Bytes, Sane;
    var v, c := Val(REGTEST.powLimit), 0x200f_0f0f;
    TopLimb(REGTEST.powLimit);
    LimbBytes(7);
    BytesSum(4, 28);
    BytesSum(3, 28);
    BytesSum(1, 28);
    FewBytes();
    FourBytes();
    assert ByteLength(v, 32);
    QuotientBetween(v, Bytes(29), 0x0f_0f0f, 0x0f_0f10);
    assert Leading(v, 32) == 0x0f_0f0f;
    assert Coded(v, 32, c);
  }

  lemma LimbBytes(n: nat)
    ensures Base(n) == Bytes(4 * n)
  {
    assert 32 * n == 8 * (4 * n);
  }

  lemma FourBytes()
    ensures Bytes(4) == B
  {
    WordSize();
  }

  /** A chain of that network: blocks that all carry the bits of the first. */
  lemma RegtestChain(n: nat) returns (chain: seq<Header>)
    requires Sane(REGTEST) && 1 <= n <= 31
    ensures |chain| == n && Follows(REGTEST, chain) && forall b :: b in chain ==> b.nBits == 0x200f_0f0f
  {
    hide Val, Base, Writes, Sane, Magnitude;
    var b := Header(4, 0, 0x200f_0f0f);
    chain := seq(n, i => b);
    RegtestBits();
    Precision(Val(REGTEST.powLimit), b.nBits);
    NotNegative(Val(REGTEST.powLimit), b.nBits);
    forall h | 1 <= h < |chain| ensures Writes(NextTarget(REGTEST, chain[..h]), chain[h].nBits) {
      assert NextTarget(REGTEST, chain[..h]) == Val(REGTEST.powLimit);
    }
  }
}
