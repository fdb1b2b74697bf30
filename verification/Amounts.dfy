/** Compressing amounts into small numbers, in 64-bit arithmetic. */
module Amounts {
  import opened Powers

  const U64: nat := 0x1_0000_0000_0000_0000
  const COIN: nat := 100000000
  const MAX_MONEY: nat := 1000 * 21000000 * COIN

  function Pow10(e: nat): (p: nat)
    ensures p >= 1
  {
    if e == 0 then 1 else 10 * Pow10(e - 1)
  }

  // -------------------------------------------------------- without a bound

  datatype Trimmed = Trimmed(m: nat, e: nat)

  /** Divides by ten while that is exact, nine times at most. */
  function Trim(n: nat, e: nat): Trimmed
    requires e <= 9
    decreases 9 - e
  {
    if n % 10 == 0 && e < 9 then Trim(n / 10, e + 1) else Trimmed(n, e)
  }

  function Code(m: nat, e: nat): nat
    requires m > 0 && (e < 9 ==> m % 10 != 0)
  {
    if e < 9 then 1 + (m / 10 * 9 + m % 10 - 1) * 10 + e else 1 + (m - 1) * 10 + 9
  }

  function Encoded(n: nat): nat {
    if n == 0 then 0 else
      TrimSplits(n, 0);
      var t := Trim(n, 0);
      Code(t.m, t.e)
  }

  function Significand(x: nat): nat
    requires x > 0
  {
    var e, y := (x - 1) % 10, (x - 1) / 10;
    if e < 9 then y / 9 * 10 + y % 9 + 1 else y + 1
  }

  function Decoded(x: nat): nat {
    if x == 0 then 0 else Significand(x) * Pow10((x - 1) % 10)
  }

  lemma {:induction false} TrimSplits(n: nat, e: nat)
    requires n > 0 && e <= 9
    ensures var t := Trim(n, e);
            && e <= t.e <= 9 && t.m > 0 && (t.e < 9 ==> t.m % 10 != 0)
            && n == t.m * Pow10(t.e - e)
    decreases 9 - e
  {
    if n % 10 == 0 && e < 9 {
      TrimSplits(n / 10, e + 1);
      var t := Trim(n / 10, e + 1);
      NextPower(t.m, t.e - e - 1);
    }
  }

  lemma {:induction false} TrimRestores(m: nat, k: nat, e: nat)
    requires k + e <= 9 && (k + e < 9 ==> m % 10 != 0)
    ensures Trim(m * Pow10(k), e) == Trimmed(m, k + e)
    decreases k
  {
    hide Trim, Pow10;
    if k == 0 {
      NoPower(m);
      TrimEnds(m, e);
    } else {
      NextPower(m, k - 1);
      TrimTen(m * Pow10(k - 1), e);
      TrimRestores(m, k - 1, e + 1);
    }
  }

  lemma TrimEnds(m: nat, e: nat)
    requires e <= 9 && (e < 9 ==> m % 10 != 0)
    ensures Trim(m, e) == Trimmed(m, e)
  {
  }

  lemma TrimTen(n: nat, e: nat)
    requires e < 9
    ensures Trim(10 * n, e) == Trim(n, e + 1)
  {
  }

  lemma DecodeEncode(n: nat)
    ensures Decoded(Encoded(n)) == n
  {
    hide Code, Significand, Trim;
    if n > 0 {
      TrimSplits(n, 0);
      CodeReads(Trim(n, 0).m, Trim(n, 0).e);
    }
  }

  lemma CodeReads(m: nat, e: nat)
    requires m > 0 && e <= 9 && (e < 9 ==> m % 10 != 0)
    ensures Code(m, e) > 0 && Significand(Code(m, e)) == m && (Code(m, e) - 1) % 10 == e
  {
    if e < 9 {
      var n, d := m / 10, m % 10;
      var y := 9 * n + d - 1;
      DivModUnique(y, 9, n, d - 1);
      DivModUnique(10 * y + e, 10, y, e);
    } else {
      DivModUnique(10 * (m - 1) + 9, 10, m - 1, 9);
    }
  }

  lemma CodeWrites(x: nat)
    requires x > 0
    ensures var e, m := (x - 1) % 10, Significand(x);
            m > 0 && (e < 9 ==> m % 10 != 0) && Code(m, e) == x
  {
    var e, y := (x - 1) % 10, (x - 1) / 10;
    if e < 9 {
      DivModUnique(Significand(x), 10, y / 9, y % 9 + 1);
    }
  }

  lemma EncodeDecode(x: nat)
    ensures Encoded(Decoded(x)) == x
  {
    if x > 0 {
      hide Code, Significand;
      var e, m := (x - 1) % 10, Significand(x);
      CodeWrites(x);
      TrimRestores(m, e, 0);
      assert m * Pow10(e) > 0 by {
        MulMonotone(1, m, Pow10(e));
      }
    }
  }

  // ------------------------------------------------------------ in 64 bits

  /** The code in 64 bits. */
  function Compressed(n: nat): nat {
    Encoded(n) % U64
  }

  function Decompressed(x: nat): nat {
    Decoded(x) % U64
  }

  /** The codes of a cent, a coin, the subsidy of the first blocks and all coins there are. */
  lemma KnownCodes()
    ensures Encoded(0) == 0 && Encoded(1) == 1 && Encoded(1000000) == 7 && Encoded(COIN) == 9
    ensures Encoded(50 * COIN) == 0x32 && Encoded(21000000 * COIN) == 0x140_6f40
  {
    assert Trim(1000000, 0) == Trimmed(1, 6);
    assert Trim(100000000, 0) == Trimmed(1, 8);
    assert Trim(5000000000, 0) == Trimmed(5, 9);
    assert Trim(2100000000000000, 0) == Trimmed(2100000, 9);
  }

  method CompressAmount(amt: nat) returns (r: nat)
    requires amt < U64
    ensures r == Compressed(amt)
  {
    var n: nat := amt;
    if n == 0 {
      return 0;
    }
    var e := 0;
    while n % 10 == 0 && e < 9
      invariant 0 <= e <= 9 && 0 < n <= amt && Trim(n, e) == Trim(amt, 0)
    {
      n := n / 10;
      e := e + 1;
    }
    if e < 9 {
      var d := n % 10;
      assert 1 <= d <= 9;
      n := n / 10;
      return (1 + (n * 9 + d - 1) * 10 + e) % U64;
    } else {
      return (1 + (n - 1) * 10 + 9) % U64;
    }
  }

  lemma Wraps(n: nat, v: nat, p: nat)
    requires v == n % U64
    ensures v * p % U64 == n * p % U64
  {
    var q := n / U64;
    assert n * p == v * p + p * q * U64;
    var s, t := v * p / U64, v * p % U64;
    assert v * p == s * U64 + t;
    DivModUnique(n * p, U64, s + p * q, t);
  }

  lemma NoPower(m: nat)
    ensures m * Pow10(0) == m
  {
  }

  lemma NextPower(m: nat, k: nat)
    ensures m * Pow10(k) * 10 == m * Pow10(k + 1)
  {
  }

  method DecompressAmount(code: nat) returns (n: nat)
    requires code < U64
    ensures n == Decompressed(code)
  {
    if code == 0 {
      return 0;
    }
    var x := code - 1;
    var e := x % 10;
    x := x / 10;
    if e < 9 {
      var d := x % 9 + 1;
      x := x / 9;
      n := x * 10 + d;
    } else {
      n := x + 1;
    }
    ghost var m: nat, k: nat := n, 0;
    assert m == Significand(code);
    hide Pow10;
    NoPower(m);
    while e != 0
      invariant 0 <= e && e + k == (code - 1) % 10 && n == m * Pow10(k) % U64
      decreases e
    {
      Wraps(m * Pow10(k), n, 10);
      NextPower(m, k);
      n := n * 10 % U64;
      e := e - 1;
      k := k + 1;
    }
  }

  /** Amounts whose code does not fit: they end in a nonzero digit, so the code is about nine times the amount. */
  lemma CodeSize(a: nat)
    requires a < U64
    ensures Encoded(a) >= U64 ==> a % 10 != 0
    ensures a % 10 != 0 ==> Encoded(a) == 9 * a + a % 10 - 9
  {
    hide Trim;
    if a % 10 != 0 {
      NoTrim(a);
    } else if a > 0 {
      TrimSplits(a, 0);
      var t := Trim(a, 0);
      SomeTrim(a);
      CodeBound(t.m, t.e);
      TenTimes(t.m, t.e);
    }
  }

  lemma NoTrim(a: nat)
    requires a % 10 != 0
    ensures Trim(a, 0) == Trimmed(a, 0)
  {
  }

  lemma SomeTrim(a: nat)
    requires a % 10 == 0 && a > 0
    ensures Trim(a, 0).e >= 1
  {
    TrimSplits(a / 10, 1);
  }

  lemma CodeBound(m: nat, e: nat)
    requires m > 0 && e <= 9 && (e < 9 ==> m % 10 != 0)
    ensures Code(m, e) <= 10 * m
  {
  }

  lemma TenTimes(m: nat, e: nat)
    requires e >= 1
    ensures 10 * m <= m * Pow10(e)
  {
    MulMonotone(1, Pow10(e - 1), m);
    assert m * Pow10(e) == 10 * (m * Pow10(e - 1));
    assert m * Pow10(e - 1) == Pow10(e - 1) * m;
  }

  /** Every amount up to a ninth of the 64-bit range survives compression. */
  lemma SmallAmounts(a: nat)
    requires a <= (U64 - 1) / 9
    ensures Encoded(a) < U64 && Decompressed(Compressed(a)) == a
  {
    hide Encoded, Decoded;
    CodeSize(a);
    DecodeEncode(a);
  }

  /** The condition under which an amount's code fits: its last digit is zero or nine times it does. */
  predicate Fits(a: nat) {
    a % 10 == 0 || 9 * a + a % 10 - 9 < U64
  }

  // A code that wraps around 2^64 and an amount that wraps around 2^64 would have to solve two linear
  // equations for the last digits c and d and the numbers of wraps k and j. There is one lemma for each
  // number of trailing zeros: the first equation leaves few candidates, and their digits fail the second.

  /** A linear equation modulo n is solved by the inverse i of 2^64. */
  lemma Solved(n: int, i: int, t: int, b: int, k: int, delta: int)
    requires n * b == delta + k * U64 && i * U64 == 1 + t * n
    ensures k == n * (i * b - t * k) - i * delta
  {
    assert i * (n * b) == n * (i * b);
    assert i * (k * U64) == k * (i * U64);
    assert k * (1 + t * n) == k + n * (t * k);
    assert i * (delta + k * U64) == i * delta + i * (k * U64);
    assert n * (i * b - t * k) == n * (i * b) - n * (t * k);
  }

  lemma Candidates2(z: int, k: int, delta: int)
    requires -6 <= delta <= 10 && 10 <= k < 100 && k == 891 * z - 229 * delta
    ensures (delta == -4 && k == 25)
  {
    assert delta == -6 || delta == -5 || delta == -4 || delta == -3 || delta == -2 || delta == -1 || delta == 0
           || delta == 1 || delta == 2 || delta == 3 || delta == 4 || delta == 5 || delta == 6 || delta == 7
           || delta == 8 || delta == 9 || delta == 10;
  }

  lemma NoMatch2(m: nat, c: nat, n: nat, d: nat, j: nat, k: nat)
    requires 1 <= c <= 9 && 1 <= d <= 9 && 1 <= j && 1 <= k && 10 * n + d < U64 && 9 * (10 * m + c) + c - 7 < U64
    ensures !((10 * m + c) * 100 == 10 * n + d + j * U64
              && 9 * (10 * n + d) + d - 9 == 9 * (10 * m + c) + c - 7 + k * U64)
  {
    var b, w, delta := 10 * m + c, k + 9 * j, c - d + 2;
    if 891 * b == delta + w * U64 {
      Solved(891, 229, 4741082371357449293, b, w, delta);
      Candidates2(229 * b - 4741082371357449293 * w, w, delta);
    }
  }

  lemma Candidates3(z: int, k: int, delta: int)
    requires -5 <= delta <= 11 && 10 <= k < 1000 && k == 8991 * z - 5251 * delta
    ensures (delta == 5 && k == 718)
  {
    assert delta == -5 || delta == -4 || delta == -3 || delta == -2 || delta == -1 || delta == 0 || delta == 1
           || delta == 2 || delta == 3 || delta == 4 || delta == 5 || delta == 6 || delta == 7 || delta == 8
           || delta == 9 || delta == 10 || delta == 11;
  }

  lemma NoMatch3(m: nat, c: nat, n: nat, d: nat, j: nat, k: nat)
    requires 1 <= c <= 9 && 1 <= d <= 9 && 1 <= j && 1 <= k && 10 * n + d < U64 && 9 * (10 * m + c) + c - 6 < U64
    ensures !((10 * m + c) * 1000 == 10 * n + d + j * U64
              && 9 * (10 * n + d) + d - 9 == 9 * (10 * m + c) + c - 6 + k * U64)
  {
    var b, w, delta := 10 * m + c, k + 9 * j, c - d + 3;
    if 8991 * b == delta + w * U64 {
      Solved(8991, 5251, 10773423771665983265, b, w, delta);
      Candidates3(5251 * b - 10773423771665983265 * w, w, delta);
    }
  }

  lemma Candidates4(z: int, k: int, delta: int)
    requires -4 <= delta <= 12 && 10 <= k < 10000 && k == 89991 * z - 12703 * delta
    ensures (delta == 7 && k == 1070)
  {
    assert delta == -4 || delta == -3 || delta == -2 || delta == -1 || delta == 0 || delta == 1 || delta == 2
           || delta == 3 || delta == 4 || delta == 5 || delta == 6 || delta == 7 || delta == 8 || delta == 9
           || delta == 10 || delta == 11 || delta == 12;
  }

  lemma NoMatch4(m: nat, c: nat, n: nat, d: nat, j: nat, k: nat)
    requires 1 <= c <= 9 && 1 <= d <= 9 && 1 <= j && 1 <= k && 10 * n + d < U64 && 9 * (10 * m + c) + c - 5 < U64
    ensures !((10 * m + c) * 10000 == 10 * n + d + j * U64
              && 9 * (10 * n + d) + d - 9 == 9 * (10 * m + c) + c - 5 + k * U64)
  {
    var b, w, delta := 10 * m + c, k + 9 * j, c - d + 4;
    if 89991 * b == delta + w * U64 {
      Solved(89991, 12703, 2603915835676150217, b, w, delta);
      Candidates4(12703 * b - 2603915835676150217 * w, w, delta);
    }
  }

  lemma Candidates5(z: int, k: int, delta: int)
    requires -3 <= delta <= 13 && 10 <= k < 100000 && k == 899991 * z - 20641 * delta
    ensures (delta == -3 && k == 61923) || (delta == -2 && k == 41282) || (delta == -1 && k == 20641)
  {
    assert delta == -3 || delta == -2 || delta == -1 || delta == 0 || delta == 1 || delta == 2 || delta == 3
           || delta == 4 || delta == 5 || delta == 6 || delta == 7 || delta == 8 || delta == 9 || delta == 10
           || delta == 11 || delta == 12 || delta == 13;
  }

  lemma NoMatch5(m: nat, c: nat, n: nat, d: nat, j: nat, k: nat)
    requires 1 <= c <= 9 && 1 <= d <= 9 && 1 <= j && 1 <= k && 10 * n + d < U64 && 9 * (10 * m + c) + c - 4 < U64
    ensures !((10 * m + c) * 100000 == 10 * n + d + j * U64
              && 9 * (10 * n + d) + d - 9 == 9 * (10 * m + c) + c - 4 + k * U64)
  {
    var b, w, delta := 10 * m + c, k + 9 * j, c - d + 5;
    if 899991 * b == delta + w * U64 {
      Solved(899991, 20641, 423070057839954905, b, w, delta);
      Candidates5(20641 * b - 423070057839954905 * w, w, delta);
    }
  }

  lemma Candidates6(z: int, k: int, delta: int)
    requires -2 <= delta <= 14 && 10 <= k < 1000000 && k == 8999991 * z - 2909344 * delta
    ensures (delta == 3 && k == 271959) || (delta == 6 && k == 543918) || (delta == 9 && k == 815877)
  {
    assert delta == -2 || delta == -1 || delta == 0 || delta == 1 || delta == 2 || delta == 3 || delta == 4
           || delta == 5 || delta == 6 || delta == 7 || delta == 8 || delta == 9 || delta == 10 || delta == 11
           || delta == 12 || delta == 13 || delta == 14;
  }

  lemma NoMatch6(m: nat, c: nat, n: nat, d: nat, j: nat, k: nat)
    requires 1 <= c <= 9 && 1 <= d <= 9 && 1 <= j && 1 <= k && 10 * n + d < U64 && 9 * (10 * m + c) + c - 3 < U64
    ensures !((10 * m + c) * 1000000 == 10 * n + d + j * U64
              && 9 * (10 * n + d) + d - 9 == 9 * (10 * m + c) + c - 3 + k * U64)
  {
    var b, w, delta := 10 * m + c, k + 9 * j, c - d + 6;
    if 8999991 * b == delta + w * U64 {
      Solved(8999991, 2909344, 5963108650928922233, b, w, delta);
      Candidates6(2909344 * b - 5963108650928922233 * w, w, delta);
    }
  }

  lemma Candidates7(z: int, k: int, delta: int)
    requires -1 <= delta <= 15 && 10 <= k < 10000000 && k == 89999991 * z - 28627087 * delta
    ensures (delta == 3 && k == 4118730) || (delta == 6 && k == 8237460)
  {
    assert delta == -1 || delta == 0 || delta == 1 || delta == 2 || delta == 3 || delta == 4 || delta == 5 || delta == 6
           || delta == 7 || delta == 8 || delta == 9 || delta == 10 || delta == 11 || delta == 12 || delta == 13
           || delta == 14 || delta == 15;
  }

  lemma NoMatch7(m: nat, c: nat, n: nat, d: nat, j: nat, k: nat)
    requires 1 <= c <= 9 && 1 <= d <= 9 && 1 <= j && 1 <= k && 10 * n + d < U64 && 9 * (10 * m + c) + c - 2 < U64
    ensures !((10 * m + c) * 10000000 == 10 * n + d + j * U64
              && 9 * (10 * n + d) + d - 9 == 9 * (10 * m + c) + c - 2 + k * U64)
  {
    var b, w, delta := 10 * m + c, k + 9 * j, c - d + 7;
    if 89999991 * b == delta + w * U64 {
      Solved(89999991, 28627087, 5867517780805308601, b, w, delta);
      Candidates7(28627087 * b - 5867517780805308601 * w, w, delta);
    }
  }

  lemma Candidates8(z: int, k: int, delta: int)
    requires 0 <= delta <= 16 && 10 <= k < 100000000 && k == 899999991 * z - 98372866 * delta
    ensures (delta == 9 && k == 14644197)
  {
    assert delta == 0 || delta == 1 || delta == 2 || delta == 3 || delta == 4 || delta == 5 || delta == 6 || delta == 7
           || delta == 8 || delta == 9 || delta == 10 || delta == 11 || delta == 12 || delta == 13 || delta == 14
           || delta == 15 || delta == 16;
  }

  lemma NoMatch8(m: nat, c: nat, n: nat, d: nat, j: nat, k: nat)
    requires 1 <= c <= 9 && 1 <= d <= 9 && 1 <= j && 1 <= k && 10 * n + d < U64 && 9 * (10 * m + c) + c - 1 < U64
    ensures !((10 * m + c) * 100000000 == 10 * n + d + j * U64
              && 9 * (10 * n + d) + d - 9 == 9 * (10 * m + c) + c - 1 + k * U64)
  {
    var b, w, delta := 10 * m + c, k + 9 * j, c - d + 8;
    if 899999991 * b == delta + w * U64 {
      Solved(899999991, 98372866, 2016287890051016505, b, w, delta);
      Candidates8(98372866 * b - 2016287890051016505 * w, w, delta);
    }
  }

  lemma Candidates9(z: int, k: int, delta: int)
    requires 0 <= delta <= 8 && 10 <= k < 900000000 && k == 4499999995 * z - 3292788226 * delta
    ensures (delta == 4 && k == 328847081) || (delta == 8 && k == 657694162)
  {
    assert delta == 0 || delta == 1 || delta == 2 || delta == 3 || delta == 4 || delta == 5 || delta == 6 || delta == 7
           || delta == 8;
  }

  lemma NoMatch9(y: nat, n: nat, d: nat, j: nat, k: nat)
    requires 1 <= d <= 9 && 1 <= j && 1 <= k && 10 * n + d < U64 && 10 * y < U64
    ensures !(y * 1000000000 == 10 * n + d + j * U64 && 9 * (10 * n + d) + d - 9 == 10 * y + k * U64)
  {
    var w, delta := k + 9 * j, 9 - d;
    if 8999999990 * y == delta + w * U64 {
      Solved(4499999995, 3292788226, 13498049280319185357, 2 * y, w, delta);
      Candidates9(3292788226 * (2 * y) - 13498049280319185357 * w, w, delta);
    }
  }

  lemma Tens()
    ensures Pow10(0) == 1 && Pow10(1) == 10 && Pow10(2) == 100 && Pow10(3) == 1000 && Pow10(4) == 10000
    ensures Pow10(5) == 100000 && Pow10(6) == 1000000 && Pow10(7) == 10000000 && Pow10(8) == 100000000
    ensures Pow10(9) == 1000000000
  {
  }

  /** The code of a significand and a number of zeros. */
  function Written(b: nat, e: nat): int {
    if e < 9 then 9 * b + b % 10 - 9 + e else 10 * b
  }

  lemma CodeForm(x: nat)
    requires x > 0
    ensures var e, b := (x - 1) % 10, Significand(x);
            Decoded(x) == b * Pow10(e) && Written(b, e) == x && (e < 9 ==> b % 10 != 0)
  {
    hide Significand;
    CodeWrites(x);
  }

  lemma NoMatch(e: nat, b: nat, a: nat, j: nat, k: nat)
    requires e <= 9 && (e < 9 ==> b % 10 != 0) && a % 10 != 0 && a < U64 && j >= 1 && k >= 1 && Written(b, e) < U64
    ensures !(b * Pow10(e) == a + j * U64 && 9 * a + a % 10 - 9 == Written(b, e) + k * U64)
  {
    hide Pow10;
    Tens();
    var m, c, n, d := b / 10, b % 10, a / 10, a % 10;
    if e == 2 {
      NoMatch2(m, c, n, d, j, k);
    } else if e == 3 {
      NoMatch3(m, c, n, d, j, k);
    } else if e == 4 {
      NoMatch4(m, c, n, d, j, k);
    } else if e == 5 {
      NoMatch5(m, c, n, d, j, k);
    } else if e == 6 {
      NoMatch6(m, c, n, d, j, k);
    } else if e == 7 {
      NoMatch7(m, c, n, d, j, k);
    } else if e == 8 {
      NoMatch8(m, c, n, d, j, k);
    } else if e == 9 {
      NoMatch9(b, n, d, j, k);
    }
  }

  /** A code and an amount that both wrap around are never each other's images. */
  lemma NoCoincidence(a: nat, x: nat)
    requires a < U64 && 0 < x < U64 && Encoded(a) >= U64 && Decoded(x) >= U64
    ensures !(Decompressed(x) == a && Compressed(a) == x)
  {
    hide Encoded, Decoded, Significand, Pow10;
    CodeSize(a);
    CodeForm(x);
    NoMatch((x - 1) % 10, Significand(x), a, Decoded(x) / U64, Encoded(a) / U64);
  }

  /** A 64-bit amount survives compression exactly when its code fits 64 bits. */
  lemma RoundTripExact(a: nat)
    requires a < U64
    ensures Decompressed(Compressed(a)) == a <==> Fits(a)
  {
    hide Encoded, Decoded;
    CodeSize(a);
    DecodeEncode(a);
    if !Fits(a) && Decoded(Compressed(a)) >= U64 {
      ZeroCode();
      NoCoincidence(a, Compressed(a));
    } else if !Fits(a) {
      EncodeDecode(Compressed(a));
    }
  }

  /** A 64-bit code survives decompression exactly when its amount fits 64 bits. */
  lemma CodesExact(x: nat)
    requires x < U64
    ensures Compressed(Decompressed(x)) == x <==> Decoded(x) < U64
  {
    hide Encoded, Decoded;
    EncodeDecode(x);
    if Decoded(x) >= U64 {
      var a := Decompressed(x);
      ZeroCode();
      DecodeEncode(a);
      if Encoded(a) >= U64 {
        NoCoincidence(a, x);
      }
    }
  }

  lemma ZeroCode()
    ensures Decoded(0) == 0
  {
  }

  /** An amount that consensus allows but compression loses. */
  lemma LostAmount()
    ensures var a := MAX_MONEY - 1; Decompressed(Compressed(a)) != a
  {
    RoundTripExact(MAX_MONEY - 1);
  }
}
