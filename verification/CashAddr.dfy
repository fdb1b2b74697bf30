/** Encoding and decoding cashaddr strings, as bytes. */
module CashAddr {
  import opened CashAddrSpec

  type Bytes = seq<bv8>

  /** The character of a five-bit value, as ASCII; the table is written in four parts. */
  function Charset(v: bv8): bv8 {
    if v < 8 then CharsetFirst(v) else if v < 16 then CharsetSecond(v) else if v < 24 then CharsetThird(v)
       else CharsetFourth(v)
  }

  function CharsetFirst(v: bv8): bv8 {
    if v == 0 then 0x71 else if v == 1 then 0x70 else if v == 2 then 0x7a else if v == 3 then 0x72 else
    if v == 4 then 0x79 else if v == 5 then 0x39 else if v == 6 then 0x78 else 0x38
  }

  function CharsetSecond(v: bv8): bv8 {
    if v == 8 then 0x67 else if v == 9 then 0x66 else if v == 10 then 0x32 else if v == 11 then 0x74 else
    if v == 12 then 0x76 else if v == 13 then 0x64 else if v == 14 then 0x77 else 0x30
  }

  function CharsetThird(v: bv8): bv8 {
    if v == 16 then 0x73 else if v == 17 then 0x33 else if v == 18 then 0x6a else if v == 19 then 0x6e else
    if v == 20 then 0x35 else if v == 21 then 0x34 else if v == 22 then 0x6b else 0x68
  }

  function CharsetFourth(v: bv8): bv8 {
    if v == 24 then 0x63 else if v == 25 then 0x65 else if v == 26 then 0x36 else if v == 27 then 0x6d else
    if v == 28 then 0x75 else if v == 29 then 0x61 else if v == 30 then 0x37 else 0x6c
  }

  const NONE: bv8 := 0xff

  /** The value of a character of either case, or NONE. */
  function CharsetRev(c: bv8): bv8 {
    if RevFirst(c) != NONE then RevFirst(c) else if RevSecond(c) != NONE then RevSecond(c)
    else if RevThird(c) != NONE then RevThird(c) else RevFourth(c)
  }

  function RevFirst(c: bv8): bv8 {
    if c == 0x51 || c == 0x71 then 0 else if c == 0x50 || c == 0x70 then 1 else if c == 0x5a || c == 0x7a then 2 else
    if c == 0x52 || c == 0x72 then 3 else if c == 0x59 || c == 0x79 then 4 else if c == 0x39 then 5 else
    if c == 0x58 || c == 0x78 then 6 else if c == 0x38 then 7 else NONE
  }

  function RevSecond(c: bv8): bv8 {
    if c == 0x47 || c == 0x67 then 8 else if c == 0x46 || c == 0x66 then 9 else if c == 0x32 then 10 else
    if c == 0x54 || c == 0x74 then 11 else if c == 0x56 || c == 0x76 then 12 else if c == 0x44 || c == 0x64 then 13 else
    if c == 0x57 || c == 0x77 then 14 else if c == 0x30 then 15 else NONE
  }

  function RevThird(c: bv8): bv8 {
    if c == 0x53 || c == 0x73 then 16 else if c == 0x33 then 17 else if c == 0x4a || c == 0x6a then 18 else
    if c == 0x4e || c == 0x6e then 19 else if c == 0x35 then 20 else if c == 0x34 then 21 else
    if c == 0x4b || c == 0x6b then 22 else if c == 0x48 || c == 0x68 then 23 else NONE
  }

  function RevFourth(c: bv8): bv8 {
    if c == 0x43 || c == 0x63 then 24 else if c == 0x45 || c == 0x65 then 25 else if c == 0x36 then 26 else
    if c == 0x4d || c == 0x6d then 27 else if c == 0x55 || c == 0x75 then 28 else if c == 0x41 || c == 0x61 then 29 else
    if c == 0x37 then 30 else if c == 0x4c || c == 0x6c then 31 else NONE
  }

  lemma FirstBack(v: bv8)
    requires 0 <= v < 8
    ensures RevFirst(CharsetFirst(v)) == v
  {
  }

  lemma FirstLower(c: bv8)
    requires RevFirst(c) != NONE
    ensures 0 <= RevFirst(c) < 8 && c < 128 && CharsetFirst(RevFirst(c)) == LowerCase(c)
  {
  }

  lemma SecondBack(v: bv8)
    requires 8 <= v < 16
    ensures RevFirst(CharsetSecond(v)) == NONE && RevSecond(CharsetSecond(v)) == v
  {
  }

  lemma SecondLower(c: bv8)
    requires RevSecond(c) != NONE
    ensures 8 <= RevSecond(c) < 16 && c < 128 && CharsetSecond(RevSecond(c)) == LowerCase(c)
  {
  }

  lemma ThirdBack(v: bv8)
    requires 16 <= v < 24
    ensures RevFirst(CharsetThird(v)) == NONE && RevSecond(CharsetThird(v)) == NONE && RevThird(CharsetThird(v)) == v
  {
  }

  lemma ThirdLower(c: bv8)
    requires RevThird(c) != NONE
    ensures 16 <= RevThird(c) < 24 && c < 128 && CharsetThird(RevThird(c)) == LowerCase(c)
  {
  }

  lemma FourthBack(v: bv8)
    requires 24 <= v < 32
    ensures RevFirst(CharsetFourth(v)) == NONE && RevSecond(CharsetFourth(v)) == NONE
            && RevThird(CharsetFourth(v)) == NONE && RevFourth(CharsetFourth(v)) == v
  {
  }

  lemma FourthLower(c: bv8)
    requires RevFourth(c) != NONE
    ensures 24 <= RevFourth(c) < 32 && c < 128 && CharsetFourth(RevFourth(c)) == LowerCase(c)
  {
  }

  lemma CharsetIsLower(v: bv8)
    ensures IsLower(Charset(v)) || IsDigit(Charset(v))
  {
  }

  /** Every value's character is a lower-case letter or a digit that reads back as the value. */
  lemma RevCharset(v: bv8)
    requires IsFive(v)
    ensures CharsetRev(Charset(v)) == v
    ensures IsLower(Charset(v)) || IsDigit(Charset(v))
  {
    CharsetIsLower(v);
    hide CharsetFirst, CharsetSecond, CharsetThird, CharsetFourth, RevFirst, RevSecond, RevThird, RevFourth;
    if v < 8 {
      FirstBack(v);
    } else if v < 16 {
      SecondBack(v);
    } else if v < 24 {
      ThirdBack(v);
    } else {
      FourthBack(v);
    }
  }

  /** A character with a value is that value's character, up to case. */
  lemma CharsetRevLower(c: bv8)
    requires CharsetRev(c) != NONE
    ensures IsFive(CharsetRev(c)) && c < 128 && Charset(CharsetRev(c)) == LowerCase(c)
  {
    hide CharsetFirst, CharsetSecond, CharsetThird, CharsetFourth, RevFirst, RevSecond, RevThird, RevFourth;
    if RevFirst(c) != NONE {
      FirstLower(c);
    } else if RevSecond(c) != NONE {
      SecondLower(c);
    } else if RevThird(c) != NONE {
      ThirdLower(c);
    } else {
      FourthLower(c);
    }
  }

  predicate IsLower(c: bv8) {
    0x61 <= c <= 0x7a
  }

  predicate IsUpper(c: bv8) {
    0x41 <= c <= 0x5a
  }

  predicate IsDigit(c: bv8) {
    0x30 <= c <= 0x39
  }

  const COLON: bv8 := 0x3a

  function LowerCase(c: bv8): bv8 {
    c | 0x20
  }

  function Lowered(s: Bytes): (r: Bytes)
    ensures |r| == |s| && forall i :: 0 <= i < |s| ==> r[i] == LowerCase(s[i])
  {
    seq(|s|, i requires 0 <= i < |s| => LowerCase(s[i]))
  }

  function Expanded(prefix: Bytes): (r: Data)
    ensures |r| == |prefix| + 1
  {
    seq(|prefix|, i requires 0 <= i < |prefix| => prefix[i] & 0x1f) + [0]
  }

  predicate Verifies(prefix: Bytes, values: Data) {
    PolyMod(Expanded(prefix) + values) == 0
  }

  // ---------------------------------------------------------------- checksum

  /** The leading k groups of a 40-bit number: the number shifted right by 5 * (8 - k) bits. */
  function Top(m: bv64, k: nat): bv64
    requires k <= 8
    decreases 8 - k
  {
    if k == 8 then m else Top(m, k + 1) >> 5
  }

  /** The k-th of the eight five-bit groups. */
  function Group(m: bv64, k: nat): bv8
    requires k < 8
  {
    (Top(m, k + 1) & 0x1f) as bv8
  }

  function Groups(m: bv64, k: nat): (r: Data)
    requires k <= 8
    ensures |r| == k && forall i :: 0 <= i < k ==> r[i] == Group(m, i)
  {
    seq(k, i requires 0 <= i < k => Group(m, i))
  }

  const ZEROS: Data := [0, 0, 0, 0, 0, 0, 0, 0]

  function Checksum(prefix: Bytes, payload: Data): Data {
    Groups(PolyMod(Expanded(prefix) + payload + ZEROS), 8)
  }

  lemma SmallStep(e: bv64, f: bv8)
    requires e < 0x800000000
    ensures Step(e, f) == (e << 5) ^ (f as bv64)
  {
  }

  lemma Regroup(x: bv64)
    requires InRange(x)
    ensures x >> 5 < 0x800000000 && (x & 0x1f) < 32
    ensures ((x >> 5) << 5) ^ (((x & 0x1f) as bv8) as bv64) == x
  {
  }

  lemma ShiftLimit(x: bv64, k: nat)
    requires k < 8 && Below(x, k + 1)
    ensures Below(x >> 5, k) && InRange(x)
  {
  }

  lemma {:induction false} TopRange(m: bv64, k: nat)
    requires k <= 8 && InRange(m)
    ensures Below(Top(m, k), k)
    decreases 8 - k
  {
    hide Below, InRange;
    if k == 8 {
      LimitFacts(m);
    } else {
      TopRange(m, k + 1);
      ShiftLimit(Top(m, k + 1), k);
    }
  }

  lemma StepRegroup(x: bv64)
    requires InRange(x)
    ensures Step(x >> 5, (x & 0x1f) as bv8) == x && IsFive((x & 0x1f) as bv8)
  {
    hide Step;
    Regroup(x);
    SmallStep(x >> 5, (x & 0x1f) as bv8);
  }

  lemma TopStep(m: bv64, k: nat)
    requires k < 8 && InRange(m)
    ensures Take(Step, Top(m, k), Group(m, k)) == Top(m, k + 1) && IsFive(Group(m, k))
  {
    hide Step, Below, InRange, Take;
    TopRange(m, k + 1);
    ShiftLimit(Top(m, k + 1), k);
    StepRegroup(Top(m, k + 1));
    TakeStep(Top(m, k), Group(m, k));
  }

  lemma NothingBelow(x: bv64)
    requires Below(x, 0)
    ensures x == 0
  {
  }

  lemma {:induction false} FoldGroups(m: bv64, k: nat)
    requires k <= 8 && InRange(m)
    ensures Fold(Step, 0, Groups(m, k)) == Top(m, k) && FiveBit(Groups(m, k))
  {
    hide Step, Take, Top, Group, InRange, Below, IsFive;
    if k == 0 {
      TopRange(m, 0);
      NothingBelow(Top(m, 0));
    } else {
      FoldGroups(m, k - 1);
      TopStep(m, k - 1);
      assert Groups(m, k)[..k - 1] == Groups(m, k - 1);
    }
  }

  lemma PolyModRange(v: Data)
    ensures InRange(PolyMod(v))
  {
    hide Fold, Step, InRange, Linear, Lossless, FillsUp, Xor;
    LosslessStep();
    LimitFacts(0);
    FoldRange(Step, 1, v);
    FlipRange(Fold(Step, 1, v));
  }

  lemma FlipRange(c: bv64)
    requires InRange(c)
    ensures InRange(Xor(c, 1))
  {
  }

  /** Replacing the eight zeros at the end by values adds those values to the remainder. */
  lemma EndsWith(step: Stepper, x: Data, chk: Data)
    requires Linear(step) && Lossless(step) && |chk| == 8
    ensures Remainder(step, x + chk) == Xor(Remainder(step, x + ZEROS), Fold(step, 0, chk))
  {
    hide Xor, XorByte, Fold, Linear, Lossless;
    var v, w := x + chk, x + ZEROS;
    FoldLinear(step, 1, 1, v, w);
    XorSelf(1, 1);
    forall i | 0 <= i < |x| ensures XorByte(x[i], x[i]) == 0 {
      SelfDifference(x[i]);
    }
    forall i | 0 <= i < 8 ensures XorByte(chk[i], 0) == chk[i] {
      SelfDifference(chk[i]);
    }
    var zeros := Difference(x, x);
    assert Difference(v, w) == zeros + chk;
    FoldConcat(step, 0, zeros, chk);
    FoldZeros(step, zeros);
    Rearranged(Fold(step, 1, v), Fold(step, 1, w), 1);
  }

  lemma Rearranged(a: bv64, b: bv64, c: bv64)
    ensures Xor(a, c) == Xor(Xor(b, c), Xor(a, b))
  {
    hide Xor;
    Commutative(Xor(b, c), Xor(a, b));
    Associative(a, b, Xor(b, c));
    Associative(b, b, c);
    XorSelf(b, b);
    XorZero(c);
  }

  lemma XorZero(c: bv64)
    ensures Xor(0, c) == c
  {
  }

  /** Eight five-bit values complete a payload to a valid one exactly when they are its checksum. */
  lemma ChecksumVerifies(prefix: Bytes, payload: Data, chk: Data)
    requires |chk| == 8 && FiveBit(chk)
    ensures Verifies(prefix, payload + chk) <==> chk == Checksum(prefix, payload)
  {
    hide Xor, Step, Fold, Remainder, Groups, Linear, Lossless, FillsUp, FiveBit, InRange;
    LinearStep();
    LosslessStep();
    StepFillsUp();
    var x := Expanded(prefix) + payload;
    var m := PolyMod(x + ZEROS);
    assert Expanded(prefix) + (payload + chk) == x + chk;
    EndsWith(Step, x, chk);
    XorSelf(m, Fold(Step, 0, chk));
    PolyModRange(x + ZEROS);
    FoldGroups(m, 8);
    TopEight(m);
    if Fold(Step, 0, chk) == m {
      FoldInjective(Step, chk, Groups(m, 8));
    }
  }

  lemma TopEight(m: bv64)
    ensures Top(m, 8) == m
  {
  }

  lemma FoldInjective(step: Stepper, v: Data, w: Data)
    requires Linear(step) && FillsUp(step)
    requires |v| == |w| == 8 && FiveBit(v) && FiveBit(w) && Fold(step, 0, v) == Fold(step, 0, w)
    ensures v == w
  {
    hide Xor, XorByte, Fold, Linear, FillsUp, IsFive;
    FoldLinear(step, 0, 0, v, w);
    XorSelf(0, 0);
    XorSelf(Fold(step, 0, v), 0);
    var d := Difference(v, w);
    forall i | 0 <= i < 8 ensures IsFive(d[i]) {
      FiveBitDifference(v[i], w[i]);
    }
    FoldShort(step, d);
    forall i | 0 <= i < 8 ensures v[i] == w[i] {
      NoDifference(v[i], w[i]);
    }
  }

  lemma ChecksumFiveBit(prefix: Bytes, payload: Data)
    ensures |Checksum(prefix, payload)| == 8 && FiveBit(Checksum(prefix, payload))
  {
    hide Fold, PolyMod, Group, Step, InRange;
    var x := Expanded(prefix) + payload + ZEROS;
    PolyModRange(x);
    FoldGroups(PolyMod(x), 8);
  }

  // ------------------------------------------------------------------ strings

  function Characters(values: Data): (r: Bytes)
    ensures |r| == |values| && forall i :: 0 <= i < |values| ==> r[i] == Charset(values[i])
  {
    seq(|values|, i requires 0 <= i < |values| => Charset(values[i]))
  }

  function Encoded(prefix: Bytes, payload: Data): Bytes {
    prefix + [COLON] + Characters(payload + Checksum(prefix, payload))
  }

  predicate IsLetter(c: bv8) {
    IsLower(c) || IsUpper(c)
  }

  /** Letters, one separator, then letters and digits. */
  ghost predicate Separated(str: Bytes, p: int) {
    && 0 < p < |str| && str[p] == COLON
    && (forall j :: 0 <= j < p ==> IsLetter(str[j]))
    && (forall j :: p < j < |str| ==> IsLetter(str[j]) || IsDigit(str[j]))
  }

  ghost predicate HasLower(str: Bytes) {
    exists j :: 0 <= j < |str| && IsLower(str[j])
  }

  ghost predicate HasUpper(str: Bytes) {
    exists j :: 0 <= j < |str| && IsUpper(str[j])
  }

  ghost predicate ReadsAs(str: Bytes, values: Data) {
    |str| == |values| && forall i :: 0 <= i < |str| ==> CharsetRev(str[i]) != NONE && values[i] == CharsetRev(str[i])
  }

  /** A string split into its prefix, in lower case, and the values after the separator. */
  ghost predicate Parses(str: Bytes, p: int, prefix: Bytes, values: Data) {
    && Separated(str, p) && !(HasLower(str) && HasUpper(str))
    && prefix == Lowered(str[..p]) && ReadsAs(str[p + 1..], values)
  }

  /** Fewer than eight values with a matching checksum are outside what the decoder handles. */
  datatype Decoded = Failed | TooShort | Ok(prefix: Bytes, payload: Data)

  /** What decoding a string gives. */
  ghost predicate DecodesTo(str: Bytes, r: Decoded) {
    match r
    case Failed => forall p, prefix, values :: Parses(str, p, prefix, values) ==> !Verifies(prefix, values)
    case TooShort => exists p, prefix, values ::
      Parses(str, p, prefix, values) && Verifies(prefix, values) && |values| < 8
    case Ok(prefix, payload) => exists p, chk ::
      Parses(str, p, prefix, payload + chk) && Verifies(prefix, payload + chk) && |chk| == 8
  }

  /** r p z r r z p r : a prefix whose own remainder is zero. */
  const SHORT_PREFIX: Bytes := [0x72, 0x70, 0x7a, 0x72, 0x72, 0x7a, 0x70, 0x72]

  lemma FoldAppend(c: bv64, v: Data, d: bv8)
    ensures Fold(Step, c, v + [d]) == Step(Fold(Step, c, v), d)
  {
    assert (v + [d])[..|v|] == v;
  }

  lemma FoldedSteps()
    ensures Step(0x1, 18) == 0x32
    ensures Step(0x32, 16) == 0x650
    ensures Step(0x650, 26) == 0xca1a
    ensures Step(0xca1a, 18) == 0x194352
    ensures Step(0x194352, 18) == 0x3286a52
    ensures Step(0x3286a52, 26) == 0x650d4a5a
    ensures Step(0x650d4a5a, 16) == 0xca1a94b50
    ensures Step(0xca1a94b50, 18) == 0xcc795e473
    ensures Step(0xcc795e473, 0) == 0x1
  {
  }

  lemma FoldedPrefix()
    ensures Fold(Step, 1, [18, 16, 26, 18, 18, 26, 16, 18, 0]) == 1
  {
    FoldedSteps();
    hide Step;
    var v: Data := [];
    FoldAppend(1, v, 18);
    v := v + [18];
    FoldAppend(1, v, 16);
    v := v + [16];
    FoldAppend(1, v, 26);
    v := v + [26];
    FoldAppend(1, v, 18);
    v := v + [18];
    FoldAppend(1, v, 18);
    v := v + [18];
    FoldAppend(1, v, 26);
    v := v + [26];
    FoldAppend(1, v, 16);
    v := v + [16];
    FoldAppend(1, v, 18);
    v := v + [18];
    FoldAppend(1, v, 0);
    v := v + [0];
    assert v == [18, 16, 26, 18, 18, 26, 16, 18, 0];
  }

  /** That prefix with nothing behind it verifies, with fewer values than a checksum has. */
  lemma ShortExample()
    ensures DecodesTo(SHORT_PREFIX + [COLON], TooShort)
  {
    hide Fold, Step, Charset, CharsetRev;
    var none: Data := [];
    FoldedPrefix();
    XorSelf(1, 1);
    assert Expanded(SHORT_PREFIX) + none == [18, 16, 26, 18, 18, 26, 16, 18, 0] by {
      LowBits();
    }
    assert Verifies(SHORT_PREFIX, none);
    JoinedParses(SHORT_PREFIX, none);
    assert SHORT_PREFIX + [COLON] + Characters(none) == SHORT_PREFIX + [COLON];
  }

  lemma LowBits()
    ensures 0x72 as bv8 & 0x1f == 18 && 0x70 as bv8 & 0x1f == 16 && 0x7a as bv8 & 0x1f == 26
  {
  }

  predicate BetweenBytes(c: bv8, low: bv8, high: bv8) {
    low <= c <= high
  }

  /**
    A string that decodes has one separator, letters before it, letters and digits after it, and letters
    of one case only.
  */
  lemma AcceptedStrings(str: Bytes, prefix: Bytes, payload: Data)
    requires DecodesTo(str, Ok(prefix, payload))
    ensures 0 < |prefix| < |str| && str[|prefix|] == 0x3a
    ensures forall j :: 0 <= j < |prefix| ==> BetweenBytes(str[j], 0x41, 0x5a) || BetweenBytes(str[j], 0x61, 0x7a)
    ensures forall j :: |prefix| < j < |str| ==>
              BetweenBytes(str[j], 0x30, 0x39) || BetweenBytes(str[j], 0x41, 0x5a) || BetweenBytes(str[j], 0x61, 0x7a)
    ensures !exists i, j ::
              0 <= i < |str| && 0 <= j < |str| && BetweenBytes(str[i], 0x41, 0x5a) && BetweenBytes(str[j], 0x61, 0x7a)
  {
    hide Verifies, ReadsAs;
    var p, chk :| Parses(str, p, prefix, payload + chk) && Verifies(prefix, payload + chk) && |chk| == 8;
    assert |prefix| == p;
  }

  // ---------------------------------------------------------- known strings

  /** The characters in the order of their values. */
  const CHARACTERS := "qpzry9x8gf2tvdw0s3jn54khce6mua7l"

  lemma CharsetFirstIs(i: nat)
    requires 0 <= i < 8
    ensures CharsetFirst(i as bv8) as int == CHARACTERS[i] as int
  {
    assert i == 0 || i == 1 || i == 2 || i == 3 || i == 4 || i == 5 || i == 6 || i == 7;
  }

  lemma CharsetSecondIs(i: nat)
    requires 8 <= i < 16
    ensures CharsetSecond(i as bv8) as int == CHARACTERS[i] as int
  {
    assert i == 8 || i == 9 || i == 10 || i == 11 || i == 12 || i == 13 || i == 14 || i == 15;
  }

  lemma CharsetThirdIs(i: nat)
    requires 16 <= i < 24
    ensures CharsetThird(i as bv8) as int == CHARACTERS[i] as int
  {
    assert i == 16 || i == 17 || i == 18 || i == 19 || i == 20 || i == 21 || i == 22 || i == 23;
  }

  lemma CharsetFourthIs(i: nat)
    requires 24 <= i < 32
    ensures CharsetFourth(i as bv8) as int == CHARACTERS[i] as int
  {
    assert i == 24 || i == 25 || i == 26 || i == 27 || i == 28 || i == 29 || i == 30 || i == 31;
  }

  lemma CharsetIs(i: nat)
    requires i < 32
    ensures Charset(i as bv8) as int == CHARACTERS[i] as int
  {
    hide CharsetFirst, CharsetSecond, CharsetThird, CharsetFourth;
    Eighths(i);
    if i < 8 {
      CharsetFirstIs(i);
    } else if i < 16 {
      CharsetSecondIs(i);
    } else if i < 24 {
      CharsetThirdIs(i);
    } else {
      CharsetFourthIs(i);
    }
  }

  lemma Eighths(i: nat)
    requires i < 32
    ensures (i < 8 <==> i as bv8 < 8) && (i < 16 <==> i as bv8 < 16) && (i < 24 <==> i as bv8 < 24)
  {
  }

  /** The steps of the checksum of "p:gpf8m4h7". */
  lemma KnownSteps()
    ensures Step(0x1, 16) == 0x30
    ensures Step(0x30, 0) == 0x600
    ensures Step(0x600, 8) == 0xc008
    ensures Step(0xc008, 1) == 0x180101
    ensures Step(0x180101, 9) == 0x3002029
    ensures Step(0x3002029, 7) == 0x60040527
    ensures Step(0x60040527, 27) == 0xc0080a4fb
    ensures Step(0xc0080a4fb, 21) == 0x18e2a81114
    ensures Step(0x18e2a81114, 23) == 0xfd10d33514
    ensures Step(0xfd10d33514, 30) == 0x1
  {
  }

  lemma KnownFold()
    ensures Fold(Step, 1, [16, 0, 8, 1, 9, 7, 27, 21, 23, 30]) == 1
  {
    KnownSteps();
    hide Step;
    var v: Data := [];
    FoldAppend(1, v, 16);
    v := v + [16];
    FoldAppend(1, v, 0);
    v := v + [0];
    FoldAppend(1, v, 8);
    v := v + [8];
    FoldAppend(1, v, 1);
    v := v + [1];
    FoldAppend(1, v, 9);
    v := v + [9];
    FoldAppend(1, v, 7);
    v := v + [7];
    FoldAppend(1, v, 27);
    v := v + [27];
    FoldAppend(1, v, 21);
    v := v + [21];
    FoldAppend(1, v, 23);
    v := v + [23];
    FoldAppend(1, v, 30);
    v := v + [30];
    assert v == [16, 0, 8, 1, 9, 7, 27, 21, 23, 30];
  }

  lemma KnownCharacters()
    ensures var values: Data := [8, 1, 9, 7, 27, 21, 23, 30];
            Characters(values) == [0x67, 0x70, 0x66, 0x38, 0x6d, 0x34, 0x68, 0x37]
  {
  }

  lemma KnownVerifies()
    ensures Verifies([0x70], [8, 1, 9, 7, 27, 21, 23, 30])
  {
    hide Fold, Step;
    var values: Data := [8, 1, 9, 7, 27, 21, 23, 30];
    KnownFold();
    XorSelf(1, 1);
    assert Expanded([0x70]) + values == [16, 0, 8, 1, 9, 7, 27, 21, 23, 30] by {
      LowBits();
    }
  }

  /** The string "p:gpf8m4h7" decodes: a prefix, and the checksum of an empty payload. */
  lemma KnownDecodes()
    ensures DecodesTo([0x70, COLON, 0x67, 0x70, 0x66, 0x38, 0x6d, 0x34, 0x68, 0x37], Ok([0x70], []))
  {
    hide Verifies, Parses, Charset, CharsetRev, Characters;
    var values, none: Data := [8, 1, 9, 7, 27, 21, 23, 30], [];
    KnownVerifies();
    KnownCharacters();
    JoinedParses([0x70], values);
    assert none + values == values;
    assert [0x70] + [COLON] + Characters(values) == [0x70, COLON, 0x67, 0x70, 0x66, 0x38, 0x6d, 0x34, 0x68, 0x37];
  }

  lemma ParsesOnce(str: Bytes, p: int, prefix: Bytes, values: Data, p': int, prefix': Bytes, values': Data)
    requires Parses(str, p, prefix, values) && Parses(str, p', prefix', values')
    ensures p == p' && prefix == prefix' && values == values'
  {
    ColonIsNoLetter();
    assert p == p';
  }

  lemma ColonIsNoLetter()
    ensures !IsLetter(COLON) && !IsDigit(COLON)
  {
  }

  /** Decoding has one outcome. */
  lemma DecodesOnce(str: Bytes, r: Decoded, r': Decoded)
    requires DecodesTo(str, r) && DecodesTo(str, r')
    ensures r == r'
  {
    hide Verifies, Parses;
    forall p, prefix, values, p', prefix', values' | Parses(str, p, prefix, values) && Parses(str, p', prefix', values')
      ensures p == p' && prefix == prefix' && values == values'
    {
      ParsesOnce(str, p, prefix, values, p', prefix', values');
    }
    if r.Ok? && r'.Ok? {
      var p, chk :| Parses(str, p, r.prefix, r.payload + chk) && |chk| == 8;
      var p', chk' :| Parses(str, p', r'.prefix, r'.payload + chk') && |chk'| == 8;
      assert r.payload + chk == r'.payload + chk';
      assert r.payload == (r.payload + chk)[..|r.payload|];
      assert r'.payload == (r.payload + chk)[..|r.payload|];
    }
  }

  ghost predicate LowerLetters(prefix: Bytes) {
    prefix != [] && forall i :: 0 <= i < |prefix| ==> IsLower(prefix[i])
  }

  lemma LowerStays(c: bv8)
    ensures IsLower(c) || IsDigit(c) || c == COLON ==> LowerCase(c) == c && !IsUpper(c)
    ensures IsLetter(c) ==> IsLower(LowerCase(c))
  {
  }

  lemma CharactersRead(values: Data)
    requires FiveBit(values)
    ensures ReadsAs(Characters(values), values)
    ensures forall i :: 0 <= i < |values| ==> IsLower(Characters(values)[i]) || IsDigit(Characters(values)[i])
  {
    hide Charset, CharsetRev, IsLower, IsDigit;
    forall i | 0 <= i < |values|
      ensures CharsetRev(Charset(values[i])) == values[i] && values[i] != NONE
      ensures IsLower(Charset(values[i])) || IsDigit(Charset(values[i]))
    {
      RevCharset(values[i]);
      NotNone(values[i]);
    }
  }

  /** A lower-case prefix, a separator and lower-case characters parse back. */
  lemma JoinedParses(prefix: Bytes, values: Data)
    requires LowerLetters(prefix) && FiveBit(values)
    ensures Parses(prefix + [COLON] + Characters(values), |prefix|, prefix, values)
  {
    hide Charset, CharsetRev, LowerCase, IsLower, IsUpper, IsDigit, ReadsAs, Characters;
    CharactersRead(values);
    var p, chars := |prefix|, Characters(values);
    var str := prefix + [COLON] + chars;
    assert str[..p] == prefix && str[p + 1..] == chars;
    forall j | 0 <= j < |str| ensures !IsUpper(str[j]) {
      assert j > p ==> str[j] == chars[j - p - 1];
      LowerStays(str[j]);
    }
    forall j | 0 <= j < p ensures LowerCase(prefix[j]) == prefix[j] {
      LowerStays(prefix[j]);
    }
    assert Lowered(prefix) == prefix;
    assert forall j :: p < j < |str| ==> str[j] == chars[j - p - 1];
  }

  /** Encoding and decoding gives back prefix and payload. */
  lemma DecodeEncode(prefix: Bytes, payload: Data)
    requires LowerLetters(prefix) && FiveBit(payload)
    ensures DecodesTo(Encoded(prefix, payload), Ok(prefix, payload))
  {
    hide Checksum, Verifies, Parses, Characters, LowerLetters;
    var chk := Checksum(prefix, payload);
    ChecksumFiveBit(prefix, payload);
    ChecksumVerifies(prefix, payload, chk);
    JoinedParses(prefix, payload + chk);
  }

  lemma NotNone(v: bv8)
    requires IsFive(v)
    ensures v != NONE
  {
  }

  lemma ReadBack(str: Bytes, values: Data)
    requires ReadsAs(str, values)
    ensures FiveBit(values) && Characters(values) == Lowered(str)
  {
    hide Charset, CharsetRev, LowerCase;
    forall i | 0 <= i < |values| ensures IsFive(values[i]) && Charset(values[i]) == LowerCase(str[i]) {
      CharsetRevLower(str[i]);
    }
  }

  /** The parts of a parsed string make up its lower-case form. */
  lemma PartsJoin(str: Bytes, p: int, prefix: Bytes, values: Data)
    requires Parses(str, p, prefix, values)
    ensures FiveBit(values) && prefix + [COLON] + Characters(values) == Lowered(str)
  {
    hide LowerCase, Characters, HasLower, HasUpper, IsLetter, IsDigit, ReadsAs, Lowered;
    ReadBack(str[p + 1..], values);
    LoweredParts(str, p);
  }

  lemma LoweredParts(str: Bytes, p: int)
    requires 0 <= p < |str| && str[p] == COLON
    ensures Lowered(str) == Lowered(str[..p]) + [COLON] + Lowered(str[p + 1..])
  {
    hide LowerCase;
    LowerStays(COLON);
    var s := Lowered(str[..p]) + [COLON] + Lowered(str[p + 1..]);
    forall j | 0 <= j < |str| ensures s[j] == LowerCase(str[j]) {
      if j > p {
        assert s[j] == Lowered(str[p + 1..])[j - p - 1];
      }
    }
  }

  /** A string that decodes is, up to case, the encoding of what it decodes to. */
  lemma EncodeDecode(str: Bytes, prefix: Bytes, payload: Data)
    requires DecodesTo(str, Ok(prefix, payload))
    ensures Encoded(prefix, payload) == Lowered(str)
  {
    hide Checksum, Verifies, Parses, Characters;
    var p, chk :| Parses(str, p, prefix, payload + chk) && Verifies(prefix, payload + chk) && |chk| == 8;
    PartsJoin(str, p, prefix, payload + chk);
    assert forall i :: 0 <= i < 8 ==> chk[i] == (payload + chk)[|payload| + i];
    ChecksumVerifies(prefix, payload, chk);
  }

  // ------------------------------------------------------------ as computed

  method ExpandPrefix(prefix: Bytes) returns (ret: Data)
    ensures ret == Expanded(prefix)
  {
    ret := [];
    for i := 0 to |prefix|
      invariant ret == Expanded(prefix)[..i]
    {
      ret := ret + [prefix[i] & 0x1f];
    }
    ret := ret + [0];
  }

  method VerifyChecksum(prefix: Bytes, payload: Data) returns (ok: bool)
    ensures ok <==> Verifies(prefix, payload)
  {
    hide PolyMod;
    var enc := ExpandPrefix(prefix);
    var mod := ComputePolyMod(enc + payload);
    ok := mod == 0;
  }

  /** The result makes the payload valid, and is the only one to do so. */
  method CreateChecksum(prefix: Bytes, payload: Data) returns (ret: Data)
    ensures ret == Checksum(prefix, payload) && Verifies(prefix, payload + ret)
  {
    hide PolyMod, Group, Verifies;
    var enc := ExpandPrefix(prefix);
    enc := enc + payload;
    enc := enc + ZEROS;
    var mod := ComputePolyMod(enc);
    ret := [];
    for i := 0 to 8
      invariant ret == Groups(mod, 8)[..i]
    {
      ret := ret + [Group(mod, i)];
    }
    ChecksumFiveBit(prefix, payload);
    ChecksumVerifies(prefix, payload, ret);
  }

  method Encode(prefix: Bytes, payload: Data) returns (ret: Bytes)
    ensures ret == Encoded(prefix, payload)
  {
    hide Checksum, Charset, Verifies;
    var checksum := CreateChecksum(prefix, payload);
    var combined := payload + checksum;
    ret := prefix + [COLON];
    for i := 0 to |combined|
      invariant ret == prefix + [COLON] + Characters(combined)[..i]
    {
      ret := ret + [Charset(combined[i])];
    }
  }

  /** What the scan has established about the first n characters. */
  ghost predicate Scanned(str: Bytes, n: int, lower: bool, upper: bool, prefixSize: int)
    requires 0 <= n <= |str|
  {
    && (lower <==> HasLower(str[..n])) && (upper <==> HasUpper(str[..n]))
    && (if prefixSize == 0 then forall j :: 0 <= j < n ==> IsLetter(str[j]) else Separated(str[..n], prefixSize))
  }

  lemma ScanNext(str: Bytes, n: int)
    requires 0 <= n < |str|
    ensures HasLower(str[..n + 1]) <==> HasLower(str[..n]) || IsLower(str[n])
    ensures HasUpper(str[..n + 1]) <==> HasUpper(str[..n]) || IsUpper(str[n])
  {
    hide IsLower, IsUpper;
    var s, t := str[..n], str[..n + 1];
    assert t[n] == str[n] && forall j :: 0 <= j < n ==> s[j] == t[j];
  }

  lemma SeparatedNext(str: Bytes, n: int, p: int)
    requires 0 <= n < |str| && Separated(str[..n], p) && (IsLetter(str[n]) || IsDigit(str[n]))
    ensures Separated(str[..n + 1], p)
  {
    hide IsLetter, IsDigit;
    var s, t := str[..n], str[..n + 1];
    assert t[n] == str[n] && forall j :: 0 <= j < n ==> s[j] == t[j];
  }

  /** A prefix that no string with one separator can start with. */
  lemma NeverSeparated(str: Bytes, n: int, prefixSize: int)
    requires 0 <= n < |str|
    requires if prefixSize == 0 then forall j :: 0 <= j < n ==> IsLetter(str[j]) else Separated(str[..n], prefixSize)
    requires !IsLetter(str[n])
    requires (IsDigit(str[n]) && prefixSize == 0) || (str[n] == COLON && (n == 0 || prefixSize != 0))
             || (!IsDigit(str[n]) && str[n] != COLON)
    ensures forall p :: !Separated(str, p)
  {
    ColonIsNoLetter();
    hide IsLetter, IsDigit;
    assert prefixSize != 0 ==> str[prefixSize] == str[..n][prefixSize] == COLON;
  }

  /** The first pass of decoding: where the prefix ends, if the characters and their cases are right. */
  method Scan(str: Bytes) returns (p: int)
    ensures p != 0 ==> Separated(str, p) && !(HasLower(str) && HasUpper(str))
    ensures p == 0 ==> forall q :: !(Separated(str, q) && !(HasLower(str) && HasUpper(str)))
  {
    var lower, upper, prefixSize := false, false, 0;
    for i := 0 to |str|
      invariant Scanned(str, i, lower, upper, prefixSize) && 0 <= prefixSize
    {
      hide HasLower, HasUpper, Separated;
      var c := str[i];
      ScanNext(str, i);
      Classes(c);
      if 0x61 <= c <= 0x7a {
        lower := true;
        if prefixSize != 0 {
          SeparatedNext(str, i, prefixSize);
        }
        continue;
      }
      if 0x41 <= c <= 0x5a {
        upper := true;
        if prefixSize != 0 {
          SeparatedNext(str, i, prefixSize);
        }
        continue;
      }
      if 0x30 <= c <= 0x39 {
        if prefixSize == 0 {
          NeverSeparated(str, i, prefixSize);
          return 0;
        }
        SeparatedNext(str, i, prefixSize);
        continue;
      }
      if c == COLON {
        if i == 0 || prefixSize != 0 {
          NeverSeparated(str, i, prefixSize);
          return 0;
        }
        FirstSeparator(str, i);
        prefixSize := i;
        continue;
      }
      NeverSeparated(str, i, prefixSize);
      return 0;
    }
    assert str[..|str|] == str;
    if prefixSize == 0 || (upper && lower) {
      if prefixSize == 0 {
        NoSeparator(str);
      }
      return 0;
    }
    return prefixSize;
  }

  lemma Classes(c: bv8)
    ensures IsLower(c) <==> 0x61 <= c <= 0x7a
    ensures IsUpper(c) <==> 0x41 <= c <= 0x5a
    ensures IsDigit(c) <==> 0x30 <= c <= 0x39
    ensures c == COLON ==> !IsLower(c) && !IsUpper(c) && !IsDigit(c)
    ensures !(IsLower(c) && IsUpper(c))
  {
  }

  lemma FirstSeparator(str: Bytes, i: int)
    requires 0 < i < |str| && str[i] == COLON && forall j :: 0 <= j < i ==> IsLetter(str[j])
    ensures Separated(str[..i + 1], i)
  {
  }

  lemma NoSeparator(str: Bytes)
    requires forall j :: 0 <= j < |str| ==> IsLetter(str[j])
    ensures forall p :: !Separated(str, p)
  {
    ColonIsNoLetter();
    hide IsLetter;
  }

  /** Reads the values of the characters after the separator. */
  method ReadValues(str: Bytes) returns (ok: bool, values: Data)
    ensures ok ==> ReadsAs(str, values)
    ensures !ok ==> forall v :: !ReadsAs(str, v)
  {
    hide CharsetRev;
    values := [];
    for i := 0 to |str|
      invariant |values| == i
                && forall j :: 0 <= j < i ==> CharsetRev(str[j]) != NONE && values[j] == CharsetRev(str[j])
    {
      var c := str[i];
      if c > 127 || CharsetRev(c) == NONE {
        if CharsetRev(c) != NONE {
          CharsetRevLower(c);
        }
        return false, [];
      }
      values := values + [CharsetRev(c)];
    }
    ok := true;
  }

  method Decode(str: Bytes) returns (r: Decoded)
    ensures DecodesTo(str, r)
  {
    hide Verifies, HasLower, HasUpper, Separated, ReadsAs;
    var prefixSize := Scan(str);
    if prefixSize == 0 {
      return Failed;
    }
    SeparatorInside(str, prefixSize);
    var prefix := [];
    for i := 0 to prefixSize
      invariant prefix == Lowered(str[..prefixSize])[..i]
    {
      prefix := prefix + [LowerCase(str[i])];
    }
    assert prefix == Lowered(str[..prefixSize]);
    var rest := str[prefixSize + 1..];
    var ok, values := ReadValues(rest);
    if !ok {
      NotRead(str, prefixSize, rest);
      return Failed;
    }
    assert Parses(str, prefixSize, prefix, values);
    var verified := VerifyChecksum(prefix, values);
    if !verified {
      NotVerified(str, prefixSize, prefix, values);
      return Failed;
    }
    if |values| < 8 {
      return TooShort;
    }
    var payload := values[..|values| - 8];
    assert payload + values[|values| - 8..] == values;
    return Ok(prefix, payload);
  }

  lemma SeparatorInside(str: Bytes, p: int)
    requires Separated(str, p)
    ensures 0 < p < |str|
  {
  }

  lemma NotRead(str: Bytes, p: int, rest: Bytes)
    requires Separated(str, p) && rest == str[p + 1..] && forall v :: !ReadsAs(rest, v)
    ensures forall q, prefix, values :: !Parses(str, q, prefix, values)
  {
    forall q, prefix, values ensures !Parses(str, q, prefix, values) {
      if Parses(str, q, prefix, values) {
        SeparatedOnce(str, p, q);
        assert false;
      }
    }
  }

  lemma SeparatedOnce(str: Bytes, p: int, q: int)
    requires Separated(str, p) && Separated(str, q)
    ensures p == q
  {
    ColonIsNoLetter();
  }

  lemma NotVerified(str: Bytes, p: int, prefix: Bytes, values: Data)
    requires Parses(str, p, prefix, values) && !Verifies(prefix, values)
    ensures DecodesTo(str, Failed)
  {
    hide Verifies, Parses;
    forall p', prefix', values' | Parses(str, p', prefix', values') ensures !Verifies(prefix', values') {
      ParsesOnce(str, p, prefix, values, p', prefix', values');
    }
  }
}
