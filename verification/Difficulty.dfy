/** Difficulty targets: the compact format, and the work a block proves. */
module Difficulty {
  import opened Powers
  import opened Limbs
  import opened LimbShifts
  import opened Arith256

  /** The exponent, mantissa and sign of a compact number. */
  function Size(nCompact: nat): nat {
    nCompact / 0x100_0000
  }

  function Word(nCompact: nat): nat {
    nCompact % 0x80_0000
  }

  predicate Sign(nCompact: nat) {
    nCompact / 0x80_0000 % 2 == 1
  }

  /** The mantissa, cut to the bytes that an exponent below three leaves. */
  function Mantissa(nCompact: nat): nat {
    if Size(nCompact) <= 3 then Quotient(Word(nCompact), Pow2(8 * (3 - Size(nCompact)))) else Word(nCompact)
  }

  /** The magnitude a compact number stands for: mantissa times a power of 256. */
  function Magnitude(nCompact: nat): nat {
    if Size(nCompact) <= 3 then Mantissa(nCompact) else Word(nCompact) * Pow2(8 * (Size(nCompact) - 3))
  }

  lemma Scales(w: nat, low: nat, high: nat, e: nat)
    requires Pow2(low) <= w < Pow2(high)
    ensures Pow2(low + e) <= w * Pow2(e) < Pow2(high + e)
  {
    Pow2Sum(low, e);
    Pow2Sum(high, e);
    hide Pow2;
    MulMonotone(Pow2(low), w, Pow2(e));
    MulMonotone(w + 1, Pow2(high), Pow2(e));
    Distribute(w, 1, Pow2(e));
  }

  /** Whether a product with a power of two reaches 2^256, for a mantissa of known length. */
  lemma Reaches(w: nat, low: nat, high: nat, e: nat)
    requires Pow2(low) <= w < Pow2(high)
    ensures low + e >= 256 ==> w * Pow2(e) >= Pow2(256)
    ensures high + e <= 256 ==> w * Pow2(e) < Pow2(256)
  {
    hide Pow2;
    Scales(w, low, high, e);
    if low + e >= 256 {
      Pow2Monotone(256, low + e);
    }
    if high + e <= 256 {
      Pow2Monotone(high + e, 256);
    }
  }

  predicate OverflowFlag(word: nat, size: nat) {
    word != 0 && (size > 34 || (word > 0xff && size > 33) || (word > 0xffff && size > 32))
  }

  /** The overflow flag is raised exactly when the magnitude does not fit 256 bits. */
  lemma OverflowExact(nCompact: nat)
    ensures OverflowFlag(Mantissa(nCompact), Size(nCompact)) <==> Magnitude(nCompact) >= Pow2(256)
  {
    var size, word := Size(nCompact), Word(nCompact);
    WordSize();
    hide Pow2;
    if size <= 3 {
      SmallMantissa(word, Pow2(8 * (3 - size)));
      Pow2Monotone(32, 256);
    } else {
      var e := 8 * (size - 3);
      if word == 0 {
        PowPositive();
      } else if word <= 0xff {
        One();
        Reaches(word, 0, 8, e);
      } else if word <= 0xffff {
        Reaches(word, 8, 16, e);
      } else {
        Reaches(word, 16, 24, e);
      }
    }
  }

  lemma SmallMantissa(w: nat, p: nat)
    requires p >= 1
    ensures Quotient(w, p) <= w
  {
    if Quotient(w, p) > w {
      MulMonotone(w + 1, w / p, p);
      MulMonotone(1, p, w + 1);
    }
  }

  lemma One()
    ensures Pow2(0) == 1
  {
  }

  lemma PowPositive()
    ensures Pow2(256) > 0
  {
  }

  /** Limbs of a number below 2^32. */
  function FromWord(b: nat): (l: seq<nat>)
    requires b < B
    ensures |l| == WIDTH && Ok(l)
  {
    [b, 0, 0, 0, 0, 0, 0, 0]
  }

  lemma FromWordValue(b: nat)
    requires b < B
    ensures Val(FromWord(b)) == b
  {
    hide Val, Base;
    var l := FromWord(b);
    assert l == l[..1] + l[1..] && l[..1] == l[..0 + 1] && l[..0] == [];
    ValConcat(l[..1], l[1..]);
    ValZeros(l[1..]);
    ValNext(l, 0);
    BaseUint.Nothing(l);
  }

  /** Reads a compact number: its magnitude modulo 2^256, and flags that tell when that is not the number. */
  method SetCompact(nCompact: nat) returns (r: seq<nat>, fNegative: bool, fOverflow: bool)
    requires nCompact < 0x1_0000_0000
    ensures |r| == WIDTH && Ok(r) && Val(r) == Magnitude(nCompact) % Base(WIDTH)
    ensures fOverflow <==> Magnitude(nCompact) >= Base(WIDTH)
    ensures fNegative <==> Sign(nCompact) && Mantissa(nCompact) != 0
    ensures !fOverflow ==> Val(r) == Magnitude(nCompact)
  {
    hide Val, Base, Pow2, Magnitude, Mantissa;
    var nSize := nCompact / 0x100_0000;
    var nWord := nCompact % 0x80_0000;
    MantissaRange(nCompact);
    OverflowExact(nCompact);
    WholeBase();
    if nSize <= 3 {
      nWord := Quotient(nWord, Pow2(8 * (3 - nSize)));
      r := FromWord(nWord);
      FromWordValue(nWord);
    } else {
      var t := new BaseUint(FromWord(nWord));
      FromWordValue(nWord);
      t.ShiftLeft(8 * (nSize - 3));
      r := t.pn[..];
    }
    fNegative := nWord != 0 && nCompact / 0x80_0000 % 2 == 1;
    fOverflow := OverflowFlag(nWord, nSize);
    if !fOverflow {
      DivModUnique(Magnitude(nCompact), Base(WIDTH), 0, Magnitude(nCompact));
    }
  }

  lemma WholeBase()
    ensures Base(WIDTH) == Pow2(256)
  {
  }

  lemma MantissaRange(nCompact: nat)
    ensures Mantissa(nCompact) < 0x80_0000
    ensures Size(nCompact) <= 3 ==>
              Mantissa(nCompact) == Quotient(Word(nCompact), Pow2(8 * (3 - Size(nCompact)))) == Magnitude(nCompact)
    ensures Size(nCompact) > 3 ==>
              Mantissa(nCompact) == Word(nCompact)
              && Magnitude(nCompact) == Word(nCompact) * Pow2(8 * (Size(nCompact) - 3))
  {
    hide Pow2;
    if Size(nCompact) <= 3 {
      SmallMantissa(Word(nCompact), Pow2(8 * (3 - Size(nCompact))));
    }
  }

  /** A target is never 2^256 - 1: it is below 2^23 or even. */
  lemma TargetBelowMax(nCompact: nat)
    requires Magnitude(nCompact) < Pow2(256)
    ensures Magnitude(nCompact) + 1 < Pow2(256)
  {
    hide Pow2, Magnitude, Mantissa;
    MantissaRange(nCompact);
    WordSize();
    Pow2Monotone(32, 256);
    if Size(nCompact) > 3 {
      EvenProduct(Word(nCompact), 8 * (Size(nCompact) - 3));
      EvenPower();
    }
  }

  lemma EvenProduct(w: nat, e: nat)
    requires e >= 1
    ensures w * Pow2(e) % 2 == 0
  {
    assert w * Pow2(e) == 2 * (w * Pow2(e - 1));
  }

  lemma EvenPower()
    ensures Pow2(256) % 2 == 0
  {
    assert Pow2(256) == 2 * Pow2(255);
  }

  /** Dividing the complement avoids the number 2^256 itself. */
  lemma WorkFormula(n: nat, t: nat)
    requires t >= 1 && t + 1 < n
    ensures (n - 1 - t) / (t + 1) + 1 == n / (t + 1) < n
  {
    var d, q, r := t + 1, (n - 1 - t) / (t + 1), (n - 1 - t) % (t + 1);
    Distribute(q, 1, d);
    DivModUnique(n, d, q + 1, r);
    MulMonotone(2, d, q + 1);
  }

  ghost predicate ValidTarget(nBits: nat) {
    Magnitude(nBits) != 0 && !Sign(nBits) && Magnitude(nBits) < Pow2(256)
  }

  /** The work of a block: 2^256 divided by target plus one, or zero for an invalid target. */
  method GetBlockProof(nBits: nat) returns (work: seq<nat>)
    requires nBits < 0x1_0000_0000
    ensures |work| == WIDTH && Ok(work)
    ensures Val(work) == if ValidTarget(nBits) then Pow2(256) / (Magnitude(nBits) + 1) else 0
  {
    hide Val, Base, Pow2, Magnitude, Mantissa;
    var target, fNegative, fOverflow := SetCompact(nBits);
    WholeBase();
    FromWordValue(0);
    var c := BaseUint.CompareTo(target, FromWord(0));
    ZeroMantissa(nBits);
    if fNegative || fOverflow || c == 0 {
      return FromWord(0);
    }
    TargetBelowMax(nBits);
    ghost var t := Magnitude(nBits);
    var inverse := BaseUint.Complement(target);
    var next := new BaseUint(target);
    FromWordValue(1);
    next.Add(FromWord(1));
    DivModUnique(t + 1, Base(WIDTH), 0, t + 1);
    var quotient := new BaseUint(inverse);
    var ok := quotient.Divide(next.pn[..]);
    assert ok;
    WorkFormula(Pow2(256), t);
    quotient.Add(FromWord(1));
    DivModUnique(Pow2(256) / (t + 1), Base(WIDTH), 0, Pow2(256) / (t + 1));
    work := quotient.pn[..];
  }

  /** A number is zero exactly when its mantissa is, so the sign of a nonzero target is seen. */
  lemma ZeroMantissa(nCompact: nat)
    ensures Mantissa(nCompact) == 0 <==> Magnitude(nCompact) == 0
  {
    hide Pow2;
    if Size(nCompact) > 3 {
      MulMonotone(1, Pow2(8 * (Size(nCompact) - 3)), Word(nCompact));
    }
  }

  // --------------------------------------------------------- writing compact

  /** A power of 256. */
  function Bytes(k: nat): (p: nat)
    ensures p >= 1
  {
    Pow2(8 * k)
  }

  lemma BytesSum(j: nat, k: nat)
    ensures Bytes(j + k) == Bytes(j) * Bytes(k)
  {
    Pow2Sum(8 * j, 8 * k);
    assert 8 * (j + k) == 8 * j + 8 * k;
  }

  lemma FewBytes()
    ensures Bytes(0) == 1 && Bytes(1) == 256 && Bytes(2) == 0x1_0000 && Bytes(3) == 0x100_0000
  {
    WordSize();
  }

  /** The number of bytes of a value. */
  ghost predicate ByteLength(v: nat, n: nat) {
    if v == 0 then n == 0 else n >= 1 && Bytes(n - 1) <= v < Bytes(n)
  }

  lemma ByteLengthOf(v: nat, bits: nat)
    requires BaseUint.BitLength(v, bits)
    ensures ByteLength(v, (bits + 7) / 8)
  {
    var n := (bits + 7) / 8;
    if v > 0 {
      Pow2Monotone(8 * (n - 1), bits - 1);
      Pow2Monotone(bits, 8 * n);
    }
  }

  /** The three leading bytes of a value, padded with zeros if it has fewer. */
  function Leading(v: nat, n: nat): nat {
    if n <= 3 then v * Bytes(3 - n) else Quotient(v, Bytes(n - 3))
  }

  lemma LeadingRange(v: nat, n: nat)
    requires ByteLength(v, n)
    ensures Leading(v, n) < 0x100_0000 && (if v == 0 then Leading(v, n) == 0 else Leading(v, n) >= 0x1_0000)
  {
    hide Bytes;
    FewBytes();
    if v == 0 {
      assert Leading(v, n) == 0;
    } else if n <= 3 {
      BytesSum(n, 3 - n);
      BytesSum(n - 1, 3 - n);
      MulMonotone(v + 1, Bytes(n), Bytes(3 - n));
      Distribute(v, 1, Bytes(3 - n));
      MulMonotone(Bytes(n - 1), v, Bytes(3 - n));
    } else {
      BytesSum(3, n - 3);
      BytesSum(2, n - 3);
      QuotientBetween(v, Bytes(n - 3), 0x1_0000, 0x100_0000);
    }
  }

  lemma QuotientBetween(v: nat, p: nat, low: nat, high: nat)
    requires p >= 1 && low * p <= v < high * p
    ensures low <= v / p < high
  {
    var q, r := v / p, v % p;
    if q < low {
      MulMonotone(q + 1, low, p);
      Distribute(q, 1, p);
    }
    if q >= high {
      MulMonotone(high, q, p);
    }
  }

  /** The value with all but its leading bytes cleared. */
  function Truncated(v: nat, size: nat): nat {
    if size <= 3 then v else Quotient(v, Bytes(size - 3)) * Bytes(size - 3)
  }

  /** A compact number holds the leading bytes, or one byte less when they would set its sign bit. */
  ghost predicate Coded(v: nat, n: nat, c: nat) {
    if Leading(v, n) < 0x80_0000 then Size(c) == n && Word(c) == Leading(v, n)
    else Size(c) == n + 1 && Word(c) == Leading(v, n) / 256
  }

  lemma OneByteLength(v: nat, n: nat, m: nat)
    requires ByteLength(v, n) && ByteLength(v, m)
    ensures n == m
  {
    hide Pow2;
    if n < m {
      Pow2Monotone(8 * n, 8 * (m - 1));
    } else if m < n {
      Pow2Monotone(8 * m, 8 * (n - 1));
    }
  }

  /** What a compact number with the leading bytes, or one byte less of them, stands for. */
  lemma CompactValue(v: nat, n: nat, c: nat, size: nat, word: nat)
    requires ByteLength(v, n) && word < 0x80_0000 && Size(c) == size && Word(c) == word
    requires (size == n && word == Leading(v, n))
             || (size == n + 1 && word == Leading(v, n) / 256 && Leading(v, n) >= 0x80_0000)
    ensures Magnitude(c) == Truncated(v, size) && Coded(v, n, c)
  {
    hide Bytes, Pow2;
    FewBytes();
    MagnitudeBytes(c);
    if size == n {
      if n <= 3 {
        Exact(v, Bytes(3 - n));
      }
    } else if n < 3 {
      BytesSum(1, 2 - n);
      ShiftedExact(v, Bytes(2 - n));
    } else {
      if n == 3 {
        assert Leading(v, n) == v;
      } else {
        BytesSum(n - 3, 1);
        TwiceDivided(v, Bytes(n - 3));
      }
    }
  }

  lemma MagnitudeBytes(c: nat)
    ensures Magnitude(c) == if Size(c) <= 3 then Quotient(Word(c), Bytes(3 - Size(c))) else Word(c) * Bytes(Size(c) - 3)
  {
  }

  lemma Exact(v: nat, p: nat)
    requires p >= 1
    ensures Quotient(v * p, p) == v
  {
    DivModUnique(v * p, p, v, 0);
  }

  lemma ShiftedExact(v: nat, p: nat)
    requires p >= 1
    ensures Quotient(v * (256 * p) / 256, p) == v
  {
    assert v * (256 * p) == 256 * (v * p);
    Exact(v, p);
  }

  lemma TwiceDivided(v: nat, p: nat)
    requires p >= 1
    ensures v / p / 256 == v / (p * 256)
  {
    var q := v / p;
    var a, b := q / 256, q % 256;
    assert v == a * (p * 256) + (b * p + v % p) by {
      assert v == q * p + v % p;
      assert q * p == a * 256 * p + b * p;
      assert a * 256 * p == a * (p * 256);
    }
    MulMonotone(b + 1, 256, p);
    Distribute(b, 1, p);
    DivModUnique(v, p * 256, a, b * p + v % p);
  }

  /** The number of bytes of a value, and the leading three. */
  method LeadingBytes(v: seq<nat>) returns (nSize: nat, word: nat)
    requires |v| == WIDTH && Ok(v)
    ensures ByteLength(Val(v), nSize) && nSize <= 32 && word == Leading(Val(v), nSize)
  {
    hide Val, Base, Pow2, Bytes, Leading, ByteLength;
    var bits := BaseUint.Bits(v);
    nSize := (bits + 7) / 8;
    ByteLengthOf(Val(v), bits);
    if nSize <= 3 {
      word := LowShifted(v, nSize);
    } else {
      var bn := new BaseUint(v);
      bn.ShiftRight(8 * (nSize - 3));
      LeadingIs(Val(v), nSize);
      LeadingRange(Val(v), nSize);
      LowWord(bn.pn[..]);
      word := bn.pn[0];
    }
  }

  /** The compact form of a value keeps its leading bytes; its asserts cannot fail. */
  method GetCompact(v: seq<nat>, fNegative: bool) returns (nCompact: nat)
    requires |v| == WIDTH && Ok(v)
    ensures nCompact < 0x1_0000_0000 && Magnitude(nCompact) == Truncated(Val(v), Size(nCompact))
    ensures Sign(nCompact) <==> fNegative && Val(v) != 0
    ensures Val(v) > 0 ==> Word(nCompact) >= 0x8000
    ensures exists n :: ByteLength(Val(v), n) && Coded(Val(v), n, nCompact)
  {
    hide Val, Base, Pow2, Bytes, Magnitude, Truncated, Leading, ByteLength, Coded;
    var nSize, word := LeadingBytes(v);
    ghost var n := nSize;
    LeadingRange(Val(v), n);
    if word / 0x80_0000 % 2 == 1 {
      word := word / 256;
      nSize := nSize + 1;
    }
    assert word < 0x80_0000 && nSize < 256;
    nCompact := word + nSize * 0x100_0000;
    Packed(word, nSize, false);
    CompactValue(Val(v), n, nCompact, nSize, word);
    if fNegative && word != 0 {
      nCompact := nCompact + 0x80_0000;
      Packed(word, nSize, true);
      CompactValue(Val(v), n, nCompact, nSize, word);
    }
  }

  lemma LeadingIs(v: nat, n: nat)
    ensures n > 3 ==> Leading(v, n) == v / Pow2(8 * (n - 3))
    ensures n <= 3 ==> Leading(v, n) == v * Bytes(3 - n)
  {
  }

  lemma Packed(word: nat, size: nat, sign: bool)
    requires word < 0x80_0000
    ensures var c := word + size * 0x100_0000 + (if sign then 0x80_0000 else 0);
            Size(c) == size && Word(c) == word && (Sign(c) <==> sign)
  {
    var low := word + (if sign then 0x80_0000 else 0);
    DivModUnique(low + size * 0x100_0000, 0x100_0000, size, low);
    DivModUnique(low + size * 0x100_0000, 0x80_0000, 2 * size + (if sign then 1 else 0), word);
  }

  /** A value below one word is its lowest limb. */
  lemma LowWord(l: seq<nat>)
    requires |l| == WIDTH && Ok(l) && Val(l) < B
    ensures l[0] == Val(l)
  {
    hide Val, Base;
    assert l == l[..1] + l[1..] && l[..1] == l[..0 + 1] && l[..0] == [];
    ValConcat(l[..1], l[1..]);
    ValNext(l, 0);
    BaseUint.Nothing(l);
    BaseNext(0);
    if Val(l[1..]) > 0 {
      MulMonotone(1, Val(l[1..]), Base(1));
    }
  }

  method LowShifted(v: seq<nat>, nSize: nat) returns (word: nat)
    requires |v| == WIDTH && Ok(v) && nSize <= 3 && ByteLength(Val(v), nSize)
    ensures word == Leading(Val(v), nSize)
  {
    hide Val, Base, Bytes;
    SmallValue(Val(v), nSize);
    LowWord(v);
    LeadingIs(Val(v), nSize);
    word := v[0] * Bytes(3 - nSize);
  }

  lemma SmallValue(v: nat, n: nat)
    requires ByteLength(v, n) && n <= 3
    ensures v < B
  {
    hide Bytes;
    FewBytes();
  }

  /** A compact number with no leading zero bytes and no bytes that its exponent cuts off. */
  ghost predicate Canonical(c: nat) {
    Word(c) >= 0x8000 && Size(c) >= 1 && (Size(c) < 3 ==> Word(c) % Bytes(3 - Size(c)) == 0)
  }

  /** The byte length and the leading bytes of what a canonical number stands for. */
  lemma CanonicalLeading(c: nat)
    requires Canonical(c)
    ensures var n := if Word(c) >= 0x1_0000 then Size(c) else Size(c) - 1;
            ByteLength(Magnitude(c), n) && Leading(Magnitude(c), n) == (if n == Size(c) then Word(c) else Word(c) * 256)
  {
    hide Bytes, Pow2;
    FewBytes();
    MagnitudeBytes(c);
    var size, word := Size(c), Word(c);
    if size > 3 {
      CanonicalLarge(word, size);
    } else {
      CanonicalSmall(word, size);
    }
  }

  lemma CanonicalSmall(word: nat, size: nat)
    requires 0x8000 <= word < 0x80_0000 && 1 <= size <= 3 && word % Bytes(3 - size) == 0
    ensures var v := Quotient(word, Bytes(3 - size));
            var n := if word >= 0x1_0000 then size else size - 1;
            ByteLength(v, n) && Leading(v, n) == if n == size then word else word * 256
  {
    hide Bytes;
    FewBytes();
  }

  lemma CanonicalLarge(word: nat, size: nat)
    requires 0x8000 <= word < 0x80_0000 && size > 3
    ensures var v := word * Bytes(size - 3);
            var n := if word >= 0x1_0000 then size else size - 1;
            ByteLength(v, n) && Leading(v, n) == if n == size then word else word * 256
  {
    hide Bytes;
    FewBytes();
    var p := Bytes(size - 3);
    BytesSum(3, size - 3);
    BytesSum(2, size - 3);
    if word >= 0x1_0000 {
      MulMonotone(0x1_0000, word, p);
      MulMonotone(word + 1, 0x100_0000, p);
      Distribute(word, 1, p);
      Exact(word, p);
    } else {
      BytesSum(1, size - 3);
      MulMonotone(0x100, word, p);
      MulMonotone(word + 1, 0x1_0000, p);
      Distribute(word, 1, p);
      if size > 4 {
        BytesSum(1, size - 4);
        assert word * p == (word * 256) * Bytes(size - 4);
        Exact(word * 256, Bytes(size - 4));
      } else {
        assert p == 256;
      }
    }
  }

  /** Writing what a canonical number stands for gives that number back. */
  lemma CanonicalBack(c: nat, n: nat, c': nat)
    requires Canonical(c) && (Sign(c) <==> Sign(c'))
    requires ByteLength(Magnitude(c), n) && Coded(Magnitude(c), n, c')
    ensures c' == c
  {
    hide ByteLength, Leading, Magnitude, Bytes;
    CanonicalLeading(c);
    OneByteLength(Magnitude(c), n, if Word(c) >= 0x1_0000 then Size(c) else Size(c) - 1);
    Unpacked(c);
    Unpacked(c');
  }

  lemma Unpacked(c: nat)
    ensures c == Size(c) * 0x100_0000 + (if Sign(c) then 0x80_0000 else 0) + Word(c)
  {
    var t, w := c / 0x80_0000, c % 0x80_0000;
    TopByte(c, t / 2, t % 2, w);
  }

  lemma TopByte(c: nat, h: nat, b: nat, w: nat)
    requires c == h * 0x100_0000 + b * 0x80_0000 + w && b < 2 && w < 0x80_0000
    ensures c / 0x100_0000 == h
  {
  }

  /** A canonical number is never zero, so its sign is kept. */
  lemma CanonicalSign(c: nat)
    requires Canonical(c)
    ensures Mantissa(c) != 0 && Magnitude(c) != 0
  {
    hide Bytes, Pow2;
    FewBytes();
    MagnitudeBytes(c);
    if Size(c) > 3 {
      MulMonotone(1, Word(c), Bytes(Size(c) - 3));
    } else {
      CanonicalSmall(Word(c), Size(c));
    }
  }

  /** Only canonical numbers are written, apart from zero. */
  lemma CodedCanonical(v: nat, n: nat, c: nat)
    requires v > 0 && ByteLength(v, n) && Coded(v, n, c)
    ensures Canonical(c)
  {
    hide Bytes;
    FewBytes();
    LeadingRange(v, n);
    if n == 1 {
      assert Leading(v, n) == v * 0x1_0000;
    } else if n == 2 {
      assert Leading(v, n) == v * 256;
    }
  }

  lemma NothingCoded(n: nat, c: nat)
    requires ByteLength(0, n) && Coded(0, n, c) && !Sign(c)
    ensures c == 0
  {
    hide Bytes;
    LeadingRange(0, n);
    Unpacked(c);
  }

  lemma TruncatedBelow(v: nat, size: nat)
    ensures Truncated(v, size) <= v
  {
    hide Bytes;
    if size > 3 {
      var p := Bytes(size - 3);
      assert v == v / p * p + v % p;
    }
  }

  lemma ZeroMagnitude()
    ensures Magnitude(0) == 0 && !Sign(0) && !Canonical(0)
  {
    hide Pow2;
    SmallMantissa(0, Pow2(8 * 3));
  }

  /** Reading a compact number and writing it again gives it back exactly when it is zero or canonical and fits. */
  method Recode(nCompact: nat) returns (r: nat)
    requires nCompact < 0x1_0000_0000
    ensures r == nCompact <==> nCompact == 0 || (Canonical(nCompact) && Magnitude(nCompact) < Base(WIDTH))
  {
    hide Val, Base, Magnitude, Canonical, ByteLength, Coded, Mantissa, Truncated, Sign, Word, Size;
    var v, fNegative, fOverflow := SetCompact(nCompact);
    r := GetCompact(v, fNegative);
    ghost var n :| ByteLength(Val(v), n) && Coded(Val(v), n, r);
    TruncatedBelow(Val(v), Size(r));
    ValRange(v);
    ZeroMagnitude();
    if Val(v) > 0 {
      CodedCanonical(Val(v), n, r);
    } else {
      NothingCoded(n, r);
    }
    if Canonical(nCompact) && !fOverflow {
      CanonicalSign(nCompact);
      CanonicalBack(nCompact, n, r);
    }
  }
}
