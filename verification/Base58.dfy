/** Base58: byte strings as base-58 numbers, leading zero bytes kept as leading ones. */
module Base58 {
  import opened Powers
  import opened Radix

  // ------------------------------------------------------------ buffer sizes

  lemma PowersOf256()
    ensures Pow(256, 8) <= Pow(58, 11)
    ensures forall b :: 0 <= b < 8 ==> Pow(256, b) <= Pow(58, b * 138 / 100 + 1)
  {
    assert Pow(256, 8) == 18446744073709551616 && Pow(58, 11) == 24986644000165537792;
    assert Pow(256, 1) == 256 && Pow(58, 2) == 3364;
    assert Pow(256, 2) == 65536 && Pow(58, 3) == 195112;
    assert Pow(256, 3) == 16777216 && Pow(58, 5) == 656356768;
    assert Pow(256, 4) == 4294967296 && Pow(58, 6) == 38068692544;
    assert Pow(256, 5) == 1099511627776 && Pow(58, 7) == 2207984167552;
    assert Pow(256, 6) == 281474976710656 && Pow(58, 9) == 7427658739644928;
    assert Pow(256, 7) == 72057594037927936 && Pow(58, 10) == 430804206899405824;
  }

  lemma Product(a: nat, b: nat, c: nat, d: nat)
    requires a <= b && c <= d
    ensures a * c <= b * d
  {
    MulMonotone(a, b, c);
    MulMonotone(c, d, b);
    Associate(b, c, 0);
    Associate(b, d, 0);
  }

  lemma PowerStep(b: nat, m: nat, step: nat, b': nat, n: nat, step': nat)
    requires Pow(b, step) <= Pow(b', step') && Pow(b, m) <= Pow(b', n)
    ensures Pow(b, step + m) <= Pow(b', step' + n)
  {
    hide Pow;
    PowSum(b, step, m);
    PowSum(b', step', n);
    Product(Pow(b, step), Pow(b', step'), Pow(b, m), Pow(b', n));
  }

  /** 138/100 digits and one more hold every base-256 number. */
  lemma {:induction false} EncodeBuffer(m: nat)
    ensures Pow(256, m) <= Pow(58, m * 138 / 100 + 1)
  {
    PowersOf256();
    hide Pow;
    if m >= 8 {
      EncodeBuffer(m - 8);
      PowerStep(256, m - 8, 8, 58, (m - 8) * 138 / 100 + 1, 11);
      PowMonotone(58, 11 + (m - 8) * 138 / 100 + 1, m * 138 / 100 + 1);
    }
  }

  /** Bytes that hold up to fourteen base-58 digits. */
  function Few(d: nat): nat
    requires d < 15
  {
    if d < 4 then d else if d < 8 then d - 1 else if d < 12 then d - 2 else d - 3
  }

  lemma PowersOf58(d: nat)
    requires d < 15
    ensures Pow(58, d) <= Pow(256, Few(d))
  {
    assert Pow(58, 1) == 58 && Pow(58, 2) == 3364 && Pow(58, 3) == 195112 && Pow(58, 4) == 11316496;
    assert Pow(58, 5) == 656356768 && Pow(58, 6) == 38068692544 && Pow(58, 7) == 2207984167552;
    assert Pow(58, 8) == 128063081718016 && Pow(58, 9) == 7427658739644928 && Pow(58, 10) == 430804206899405824;
    assert Pow(58, 11) == 24986644000165537792 && Pow(58, 12) == 1449225352009601191936;
    assert Pow(58, 13) == 84055070416556869132288 && Pow(58, 14) == 4875194084160298409672704;
    assert Pow(256, 1) == 256 && Pow(256, 2) == 65536 && Pow(256, 3) == 16777216 && Pow(256, 4) == 4294967296;
    assert Pow(256, 5) == 1099511627776 && Pow(256, 6) == 281474976710656 && Pow(256, 7) == 72057594037927936;
    assert Pow(256, 8) == 18446744073709551616 && Pow(256, 9) == 4722366482869645213696;
    assert Pow(256, 10) == 1208925819614629174706176 && Pow(256, 11) == 309485009821345068724781056;
  }

  lemma FifteenDigits()
    ensures Pow(58, 15) <= Pow(256, 11)
  {
    assert Pow(58, 10) == 430804206899405824 && Pow(58, 5) == 656356768;
    assert Pow(256, 8) == 18446744073709551616 && Pow(256, 3) == 16777216;
    hide Pow;
    PowSum(58, 10, 5);
    PowSum(256, 8, 3);
  }

  lemma SeventyDigits()
    ensures Pow(58, 70) ==
            2753972183846173557677697367882096287875343187903622050228328096163920642997351817085906260982478782493544726182049846657024
  {
    assert Pow(58, 10) == 430804206899405824;
    hide Pow;
    PowSum(58, 10, 10);
    assert Pow(58, 20) == 185592264682226060569122324245118976;
    PowSum(58, 20, 20);
    assert Pow(58, 40) == 34444488709877454747081479018851205589883534409595458615323760395288576;
    PowSum(58, 40, 20);
    PowSum(58, 60, 10);
  }

  lemma FiftyTwoBytes()
    ensures Pow(256, 52) ==
            169230328010303641331690318856389386196071598838855992136870091590247882556495704531248437872567112920983350278405979725889536
  {
    assert Pow(256, 8) == 18446744073709551616 && Pow(256, 4) == 4294967296;
    hide Pow;
    PowSum(256, 8, 8);
    assert Pow(256, 16) == 340282366920938463463374607431768211456;
    PowSum(256, 16, 16);
    assert Pow(256, 32) == 115792089237316195423570985008687907853269984665640564039457584007913129639936;
    PowSum(256, 32, 16);
    PowSum(256, 48, 4);
  }

  lemma SeventyOneDigits()
    ensures Pow(58, 71) <= Pow(256, 52)
  {
    assert Pow(58, 1) == 58;
    hide Pow;
    SeventyDigits();
    FiftyTwoBytes();
    PowSum(58, 70, 1);
  }

  lemma {:induction false} DecodeBufferSmall(m: nat, c: nat, d: nat)
    requires m == 15 * c + d && d < 15 && c < 5
    ensures Pow(58, m) <= Pow(256, 11 * c + Few(d))
    decreases c
  {
    hide Pow, Few;
    if c == 0 {
      PowersOf58(d);
    } else {
      DecodeBufferSmall(m - 15, c - 1, d);
      FifteenDigits();
      PowerStep(58, m - 15, 15, 256, 11 * (c - 1) + Few(d), 11);
    }
  }

  /** 733/1000 bytes and one more hold every base-58 number. */
  lemma {:induction false} DecodeBuffer(m: nat)
    ensures Pow(58, m) <= Pow(256, m * 733 / 1000 + 1)
  {
    hide Pow;
    if m < 71 {
      var c, d := m / 15, m % 15;
      DecodeBufferSmall(m, c, d);
      Enough(c, d);
      PowMonotone(256, 11 * c + Few(d), m * 733 / 1000 + 1);
    } else {
      DecodeBuffer(m - 71);
      SeventyOneDigits();
      PowerStep(58, m - 71, 71, 256, (m - 71) * 733 / 1000 + 1, 52);
      PowMonotone(256, 52 + (m - 71) * 733 / 1000 + 1, m * 733 / 1000 + 1);
    }
  }

  lemma Enough(c: nat, d: nat)
    requires d < 15 && 15 * c + d < 71
    ensures 11 * c + Few(d) <= (15 * c + d) * 733 / 1000 + 1
  {
  }

  // -------------------------------------------------------------- characters

  /** The code of '1', which stands for digit zero. */
  const ONE: nat := 49

  /** ASCII codes of 1-9, A-H, J-N, P-Z, a-k and m-z. */
  function CharOf(d: nat): nat
    requires d < 58
  {
    if d < 9 then 49 + d else if d < 17 then 65 + (d - 9) else if d < 22 then 74 + (d - 17)
    else if d < 33 then 80 + (d - 22) else if d < 44 then 97 + (d - 33) else 109 + (d - 44)
  }

  /** The digit of a character, or -1. */
  function DigitOf(c: nat): int {
    if 49 <= c < 58 then c - 49 else if 65 <= c < 73 then c - 65 + 9 else if 74 <= c < 79 then c - 74 + 17
    else if 80 <= c < 91 then c - 80 + 22 else if 97 <= c < 108 then c - 97 + 33
    else if 109 <= c < 123 then c - 109 + 44 else -1
  }

  const ALPHABET := "123456789ABCDEFGH" + "JKLMNPQRSTUVWXYZ" + "abcdefghijkmnopqrstuvwxyz"

  /** The characters are the digits and letters without 0, O, I and l, in their order. */
  lemma AlphabetIs(d: nat)
    requires d < 58
    ensures |ALPHABET| == 58 && CharOf(d) == ALPHABET[d] as int
  {
    if d < 9 {
      AlphabetStart(d);
    } else if d < 17 {
      AlphabetNext(d);
    } else if d < 33 {
      AlphabetUpper(d);
    } else if d < 46 {
      AlphabetLower(d);
    } else {
      AlphabetEnd(d);
    }
  }

  lemma AlphabetStart(d: nat)
    requires d < 9
    ensures CharOf(d) == ALPHABET[d] as int
  {
    assert d == 0 || d == 1 || d == 2 || d == 3 || d == 4 || d == 5 || d == 6 || d == 7 || d == 8;
  }

  lemma AlphabetNext(d: nat)
    requires 9 <= d < 17
    ensures CharOf(d) == ALPHABET[d] as int
  {
    assert d == 9 || d == 10 || d == 11 || d == 12 || d == 13 || d == 14 || d == 15 || d == 16;
  }

  lemma AlphabetUpper(d: nat)
    requires 17 <= d < 33
    ensures CharOf(d) == ALPHABET[d] as int
  {
    assert d == 17 || d == 18 || d == 19 || d == 20 || d == 21 || d == 22 || d == 23 || d == 24 || d == 25 || d == 26
           || d == 27 || d == 28 || d == 29 || d == 30 || d == 31 || d == 32;
  }

  lemma AlphabetLower(d: nat)
    requires 33 <= d < 46
    ensures CharOf(d) == ALPHABET[d] as int
  {
    assert d == 33 || d == 34 || d == 35 || d == 36 || d == 37 || d == 38 || d == 39 || d == 40 || d == 41 || d == 42
           || d == 43 || d == 44 || d == 45;
  }

  lemma AlphabetEnd(d: nat)
    requires 46 <= d < 58
    ensures CharOf(d) == ALPHABET[d] as int
  {
    assert d == 46 || d == 47 || d == 48 || d == 49 || d == 50 || d == 51 || d == 52 || d == 53 || d == 54 || d == 55
           || d == 56 || d == 57;
  }

  predicate IsSpace(c: nat) {
    c == 32 || 9 <= c <= 13
  }

  lemma DigitOfChar(d: nat)
    requires d < 58
    ensures DigitOf(CharOf(d)) == d && !IsSpace(CharOf(d)) && (CharOf(d) == ONE <==> d == 0)
  {
  }

  lemma CharOfDigit(c: nat)
    requires DigitOf(c) >= 0
    ensures DigitOf(c) < 58 && CharOf(DigitOf(c)) == c && (c == ONE <==> DigitOf(c) == 0)
  {
  }

  function Repeat(x: nat, n: nat): (r: seq<nat>)
    ensures |r| == n && forall i :: 0 <= i < n ==> r[i] == x
  {
    seq(n, i => x)
  }

  function Characters(ds: seq<nat>): (r: seq<nat>)
    requires InBase(ds, 58)
    ensures |r| == |ds| && forall i :: 0 <= i < |ds| ==> r[i] == CharOf(ds[i])
  {
    seq(|ds|, i requires 0 <= i < |ds| => CharOf(ds[i]))
  }

  ghost predicate AllDigits(s: seq<nat>) {
    forall i :: 0 <= i < |s| ==> DigitOf(s[i]) >= 0
  }

  function DigitsOf(s: seq<nat>): (ds: seq<nat>)
    requires AllDigits(s)
    ensures |ds| == |s| && forall i :: 0 <= i < |s| ==> ds[i] == DigitOf(s[i])
  {
    seq(|s|, i requires 0 <= i < |s| => DigitOf(s[i]) as nat)
  }

  // ---------------------------------------------------------- specification

  /** How many elements at the front equal x. */
  function Leading(s: seq<nat>, x: nat): (n: nat)
    ensures n <= |s| && (forall i :: 0 <= i < n ==> s[i] == x) && (n < |s| ==> s[n] != x)
  {
    if s == [] || s[0] != x then 0 else
      var n := Leading(s[1..], x) + 1;
      assert forall i :: 0 < i < n ==> s[i] == s[1..][i - 1];
      n
  }

  lemma LeadingIs(s: seq<nat>, x: nat, n: nat)
    requires n <= |s| && (forall i :: 0 <= i < n ==> s[i] == x) && (n < |s| ==> s[n] != x)
    ensures Leading(s, x) == n
  {
  }

  ghost function Encoded(b: seq<nat>): seq<nat> {
    var z := Leading(b, 0);
    var v := Value(b[z..], 256);
    DigitsValue(v, 58);
    Repeat(ONE, z) + Characters(Digits(v, 58))
  }

  datatype Result = Invalid | Bytes(vch: seq<nat>)

  /** The parts of an input: spaces, ones, other characters up to a space, and what follows. */
  datatype Parts = Parts(a: nat, b: nat, c: nat)

  ghost predicate Splits(s: seq<nat>, p: Parts) {
    && p.a <= p.b <= p.c <= |s|
    && (forall i :: 0 <= i < p.a ==> IsSpace(s[i])) && (p.a < |s| ==> !IsSpace(s[p.a]))
    && (forall i :: p.a <= i < p.b ==> s[i] == ONE) && (p.b < |s| ==> s[p.b] != ONE)
    && (forall i :: p.b <= i < p.c ==> !IsSpace(s[i])) && (p.c < |s| ==> IsSpace(s[p.c]))
  }

  lemma SplitsOnce(s: seq<nat>, p: Parts, q: Parts)
    requires Splits(s, p) && Splits(s, q)
    ensures p == q
  {
    assert p.a == q.a;
    assert p.b == q.b;
    assert p.c == q.c;
  }

  /** The bytes that parts of an input stand for, if its characters are digits and only spaces follow. */
  ghost predicate Decodes(s: seq<nat>, p: Parts, vch: seq<nat>) {
    && Splits(s, p) && AllDigits(s[p.b..p.c]) && (forall i :: p.c <= i < |s| ==> IsSpace(s[i]))
    && vch == Repeat(0, p.b - p.a) + Digits(Value(DigitsOf(s[p.b..p.c]), 58), 256)
  }

  ghost predicate DecodesTo(s: seq<nat>, r: Result) {
    if r.Bytes? then exists p :: Decodes(s, p, r.vch) else forall p, vch :: !Decodes(s, p, vch)
  }

  /** Decoding has one outcome. */
  lemma DecodesOnce(s: seq<nat>, r: Result, r': Result)
    requires DecodesTo(s, r) && DecodesTo(s, r')
    ensures r == r'
  {
    if r.Bytes? && r'.Bytes? {
      var p :| Decodes(s, p, r.vch);
      var q :| Decodes(s, q, r'.vch);
      SplitsOnce(s, p, q);
    }
  }

  lemma CharactersBack(ds: seq<nat>)
    requires InBase(ds, 58)
    ensures AllDigits(Characters(ds)) && DigitsOf(Characters(ds)) == ds
    ensures forall i :: 0 <= i < |ds| ==> !IsSpace(Characters(ds)[i]) && (Characters(ds)[i] == ONE <==> ds[i] == 0)
  {
    hide CharOf, DigitOf, IsSpace;
    forall i | 0 <= i < |ds|
      ensures DigitOf(CharOf(ds[i])) == ds[i] && !IsSpace(CharOf(ds[i])) && (CharOf(ds[i]) == ONE <==> ds[i] == 0)
    {
      DigitOfChar(ds[i]);
    }
  }

  /** Decoding what was encoded gives the bytes back, leading zeros included. */
  lemma DecodeEncode(b: seq<nat>)
    requires InBase(b, 256)
    ensures DecodesTo(Encoded(b), Bytes(b))
  {
    hide CharOf, DigitOf, IsSpace, Value, Digits, Characters, Splits, AllDigits, DigitsOf, Repeat, Leading;
    var z := Leading(b, 0);
    var rest := b[z..];
    RestInBase(b, z);
    var v := Value(rest, 256);
    DigitsValue(v, 58);
    DigitsUnique(rest, 256);
    var ds := Digits(v, 58);
    CharactersBack(ds);
    var chars := Characters(ds);
    JoinedSplits(z, chars);
    assert Decodes(Encoded(b), Parts(0, z, z + |chars|), b);
  }

  lemma RestInBase(b: seq<nat>, z: nat)
    requires InBase(b, 256) && z == Leading(b, 0)
    ensures Canonical(b[z..], 256) && b == Repeat(0, z) + b[z..]
  {
  }

  lemma JoinedSplits(z: nat, chars: seq<nat>)
    requires (forall i :: 0 <= i < |chars| ==> !IsSpace(chars[i])) && (chars != [] ==> chars[0] != ONE)
    ensures var s := Repeat(ONE, z) + chars;
            Splits(s, Parts(0, z, z + |chars|)) && s[z..z + |chars|] == chars
  {
    hide IsSpace;
    OneIsNoSpace();
    var s := Repeat(ONE, z) + chars;
    assert forall i :: z <= i < |s| ==> s[i] == chars[i - z];
  }

  lemma NoSpaces(s: seq<nat>, p: Parts)
    requires Splits(s, p) && forall i :: 0 <= i < |s| ==> !IsSpace(s[i])
    ensures p.a == 0 && p.c == |s|
  {
    hide IsSpace;
    var first := if s != [] then s[0] else 0;
  }

  lemma OneIsNoSpace()
    ensures !IsSpace(ONE)
  {
  }

  lemma DigitsOfBack(s: seq<nat>)
    requires AllDigits(s)
    ensures InBase(DigitsOf(s), 58) && Characters(DigitsOf(s)) == s
    ensures s != [] && s[0] != ONE ==> DigitsOf(s)[0] != 0
  {
    hide CharOf, DigitOf;
    forall i | 0 <= i < |s| ensures DigitOf(s[i]) < 58 && CharOf(DigitOf(s[i])) == s[i] {
      CharOfDigit(s[i]);
    }
    if s != [] {
      CharOfDigit(s[0]);
    }
  }

  /** Encoding what a string without spaces decodes to gives the string back. */
  lemma EncodeDecode(s: seq<nat>, vch: seq<nat>)
    requires DecodesTo(s, Bytes(vch)) && forall i :: 0 <= i < |s| ==> !IsSpace(s[i])
    ensures InBase(vch, 256) && Encoded(vch) == s
  {
    hide CharOf, DigitOf, IsSpace, Value, Digits, Characters, DigitsOf, AllDigits, InBase;
    var p :| Decodes(s, p, vch);
    NoSpaces(s, p);
    var z, tail := p.b, s[p.b..p.c];
    DigitsOfBack(tail);
    var ds := DigitsOf(tail);
    var v := Value(ds, 58);
    DigitsValue(v, 256);
    var rest := Digits(v, 256);
    assert vch == Repeat(0, z) + rest;
    LeadingIs(vch, 0, z);
    assert vch[z..] == rest;
    DigitsUnique(ds, 58);
    assert s == Repeat(ONE, z) + tail;
    ZerosInBase(z, rest);
  }

  lemma ZerosInBase(z: nat, rest: seq<nat>)
    requires InBase(rest, 256)
    ensures InBase(Repeat(0, z) + rest, 256)
  {
  }

  // ------------------------------------------------------------ as computed

  /** The buffer holds every number read so far. */
  lemma EncodeFits(rest: seq<nat>, k: nat)
    requires InBase(rest, 256) && k < |rest|
    ensures Times(Value(rest[..k], 256), 256) + rest[k] == Value(rest[..k + 1], 256)
    ensures Value(rest[..k + 1], 256) < Pow(58, |rest| * 138 / 100 + 1)
  {
    assert rest[..k + 1][..k] == rest[..k];
    ValueRange(rest[..k + 1], 256);
    PowMonotone(256, k + 1, |rest|);
    EncodeBuffer(|rest|);
  }

  method Encode(vch: seq<nat>) returns (str: seq<nat>)
    requires InBase(vch, 256)
    ensures str == Encoded(vch)
  {
    hide Value, Pow, Times, CharOf, Digits;
    var zeroes := 0;
    while zeroes < |vch| && vch[zeroes] == 0
      invariant zeroes <= |vch| && forall i :: 0 <= i < zeroes ==> vch[i] == 0
    {
      zeroes := zeroes + 1;
    }
    LeadingIs(vch, 0, zeroes);
    var rest := vch[zeroes..];
    var size := |rest| * 138 / 100 + 1;
    var b58 := new nat[size](i => 0);
    var length: nat := 0;
    ValueZeros(b58[..], 58);
    Empties(256);
    for k := 0 to |rest|
      invariant length <= size && InBase(b58[..], 58) && forall j :: 0 <= j < size - length ==> b58[j] == 0
      invariant Value(b58[..], 58) == Value(rest[..k], 256)
    {
      EncodeFits(rest, k);
      length := MultiplyAdd(b58, length, 58, 256, rest[k]);
    }
    assert rest[..|rest|] == rest;
    var it := size - length;
    while it < size && b58[it] == 0
      invariant 0 <= it <= size && forall j :: 0 <= j < it ==> b58[j] == 0
    {
      it := it + 1;
    }
    DropZeros(b58[..], it, 58);
    var digits := b58[..][it..];
    DigitsValue(Value(rest, 256), 58);
    str := Repeat(ONE, zeroes) + Characters(digits);
  }

  lemma DecodeFits(ds: seq<nat>, d: nat, m: nat)
    requires InBase(ds, 58) && d < 58 && |ds| < m
    ensures Times(Value(ds, 58), 58) + d == Value(ds + [d], 58) < Pow(256, m * 733 / 1000 + 1)
  {
    assert (ds + [d])[..|ds|] == ds;
    ValueRange(ds + [d], 58);
    PowMonotone(58, |ds| + 1, m);
    DecodeBuffer(m);
  }

  method SkipSpaces(s: seq<nat>, from: nat) returns (i: nat)
    requires from <= |s|
    ensures from <= i <= |s| && (forall j :: from <= j < i ==> IsSpace(s[j])) && (i < |s| ==> !IsSpace(s[i]))
  {
    i := from;
    while i < |s| && IsSpace(s[i])
      invariant from <= i <= |s| && forall j :: from <= j < i ==> IsSpace(s[j])
    {
      i := i + 1;
    }
  }

  lemma BadCharacter(s: seq<nat>, a: nat, b: nat, i: nat)
    requires a <= b <= i < |s| && DigitOf(s[i]) < 0 && !IsSpace(s[i])
    requires (forall j :: 0 <= j < a ==> IsSpace(s[j])) && (a < |s| ==> !IsSpace(s[a]))
    requires (forall j :: a <= j < b ==> s[j] == ONE) && (b < |s| ==> s[b] != ONE)
    requires forall j :: b <= j < i ==> !IsSpace(s[j])
    ensures DecodesTo(s, Invalid)
  {
    hide DigitOf, IsSpace, Value, Digits, Repeat, Splits, AllDigits;
    forall p, vch ensures !Decodes(s, p, vch) {
      if Splits(s, p) {
        NotAllDigits(s, a, b, i, p);
      }
    }
  }

  /** However the input is split, the bad character is among the digits. */
  lemma NotAllDigits(s: seq<nat>, a: nat, b: nat, i: nat, p: Parts)
    requires a <= b <= i < |s| && DigitOf(s[i]) < 0 && !IsSpace(s[i]) && Splits(s, p)
    requires (forall j :: 0 <= j < a ==> IsSpace(s[j])) && (a < |s| ==> !IsSpace(s[a]))
    requires (forall j :: a <= j < b ==> s[j] == ONE) && (b < |s| ==> s[b] != ONE)
    requires forall j :: b <= j < i ==> !IsSpace(s[j])
    ensures p.b <= p.c <= |s| && !AllDigits(s[p.b..p.c])
  {
    hide DigitOf, IsSpace;
    SameParts(s, a, b, p);
    assert p.c < |s| ==> IsSpace(s[p.c]);
    assert p.b <= i < p.c;
    assert s[p.b..p.c][i - p.b] == s[i];
  }

  lemma SameParts(s: seq<nat>, a: nat, b: nat, p: Parts)
    requires a <= b <= |s| && Splits(s, p)
    requires (forall j :: 0 <= j < a ==> IsSpace(s[j])) && (a < |s| ==> !IsSpace(s[a]))
    requires (forall j :: a <= j < b ==> s[j] == ONE) && (b < |s| ==> s[b] != ONE)
    ensures p.a == a && p.b == b
  {
    hide IsSpace;
    assert p.a == a;
    assert p.b == b;
  }

  lemma JunkFollows(s: seq<nat>, p: Parts)
    requires Splits(s, p) && exists i :: p.c <= i < |s| && !IsSpace(s[i])
    ensures DecodesTo(s, Invalid)
  {
    hide IsSpace, Value, Digits, Repeat;
    forall q, vch ensures !Decodes(s, q, vch) {
      if Splits(s, q) {
        SplitsOnce(s, p, q);
      }
    }
  }

  method Decode(psz: seq<nat>) returns (r: Result)
    ensures DecodesTo(psz, r)
  {
    hide Value, Pow, Times, DigitOf, Digits, IsSpace;
    var start := SkipSpaces(psz, 0);
    var i := start;
    while i < |psz| && psz[i] == ONE
      invariant start <= i <= |psz| && forall j :: start <= j < i ==> psz[j] == ONE
    {
      i := i + 1;
    }
    var zeroes, begin := i - start, i;
    var size := (|psz| - i) * 733 / 1000 + 1;
    var b256 := new nat[size](i => 0);
    var length: nat := 0;
    ValueZeros(b256[..], 256);
    ghost var ds: seq<nat> := [];
    Empties(58);
    while i < |psz| && !IsSpace(psz[i])
      invariant begin <= i <= |psz| && |ds| == i - begin && InBase(ds, 58)
      invariant forall j :: begin <= j < i ==> !IsSpace(psz[j]) && DigitOf(psz[j]) == ds[j - begin]
      invariant length <= size && InBase(b256[..], 256) && forall j :: 0 <= j < size - length ==> b256[j] == 0
      invariant Value(b256[..], 256) == Value(ds, 58)
    {
      var ch := DigitOf(psz[i]);
      if ch < 0 {
        BadCharacter(psz, start, begin, i);
        return Invalid;
      }
      CharOfDigit(psz[i]);
      DecodeFits(ds, ch, |psz| - begin);
      length := MultiplyAdd(b256, length, 256, 58, ch);
      ds := ds + [ch];
      i := i + 1;
    }
    ghost var p := Parts(start, begin, i);
    var end := SkipSpaces(psz, i);
    if end < |psz| {
      JunkFollows(psz, p);
      return Invalid;
    }
    var it := size - length;
    while it < size && b256[it] == 0
      invariant 0 <= it <= size && forall j :: 0 <= j < it ==> b256[j] == 0
    {
      it := it + 1;
    }
    DropZeros(b256[..], it, 256);
    r := Bytes(Repeat(0, zeroes) + b256[..][it..]);
    DecodedAs(psz, p, ds);
  }

  /** What the digits read stand for. */
  lemma DecodedAs(s: seq<nat>, p: Parts, ds: seq<nat>)
    requires Splits(s, p) && (forall i :: p.c <= i < |s| ==> IsSpace(s[i])) && |ds| == p.c - p.b
    requires forall j :: p.b <= j < p.c ==> DigitOf(s[j]) == ds[j - p.b]
    ensures DecodesTo(s, Bytes(Repeat(0, p.b - p.a) + Digits(Value(ds, 58), 256)))
  {
    hide DigitOf, IsSpace, Value, Digits, Repeat, Splits, AllDigits, DigitsOf, Decodes;
    SplitsOrdered(s, p);
    DigitsRead(s, p.b, p.c, ds);
    DecodesWith(s, p, ds);
  }

  lemma DigitsRead(s: seq<nat>, b: nat, c: nat, ds: seq<nat>)
    requires b <= c <= |s| && |ds| == c - b && forall j :: b <= j < c ==> DigitOf(s[j]) == ds[j - b]
    ensures AllDigits(s[b..c]) && DigitsOf(s[b..c]) == ds
  {
    hide DigitOf;
    var t := s[b..c];
    forall i | 0 <= i < |t| ensures DigitOf(t[i]) == ds[i] {
      assert t[i] == s[b + i];
    }
  }

  lemma DecodesWith(s: seq<nat>, p: Parts, ds: seq<nat>)
    requires Splits(s, p) && (forall i :: p.c <= i < |s| ==> IsSpace(s[i])) && p.a <= p.b <= p.c <= |s|
    requires AllDigits(s[p.b..p.c]) && DigitsOf(s[p.b..p.c]) == ds
    ensures Decodes(s, p, Repeat(0, p.b - p.a) + Digits(Value(ds, 58), 256))
  {
    hide DigitOf, IsSpace, Value, Digits, Repeat, Splits, AllDigits, DigitsOf;
  }

  lemma SplitsOrdered(s: seq<nat>, p: Parts)
    requires Splits(s, p)
    ensures p.a <= p.b <= p.c <= |s|
  {
  }

  // --------------------------------------------------------------- checksums

  /** The first four bytes of a hash. */
  datatype Hasher = Hasher(hash: seq<nat> -> seq<nat>)

  ghost predicate FourBytes(h: Hasher) {
    forall b :: |h.hash(b)| == 4 && InBase(h.hash(b), 256)
  }

  method EncodeCheck(h: Hasher, vchIn: seq<nat>) returns (str: seq<nat>)
    requires FourBytes(h) && InBase(vchIn, 256)
    ensures str == Encoded(vchIn + h.hash(vchIn))
  {
    var vch := vchIn + h.hash(vchIn);
    str := Encode(vch);
  }

  /** Accepts exactly strings that decode to some bytes followed by their checksum. */
  method DecodeCheck(h: Hasher, psz: seq<nat>) returns (r: Result)
    requires FourBytes(h)
    ensures r.Bytes? ==> DecodesTo(psz, Bytes(r.vch + h.hash(r.vch)))
    ensures r.Invalid? ==> forall b :: !DecodesTo(psz, Bytes(b + h.hash(b)))
  {
    hide DecodesTo;
    r := Decode(psz);
    ghost var full := r;
    forall r' | DecodesTo(psz, r') ensures r' == full {
      DecodesOnce(psz, full, r');
    }
    if r.Invalid? || |r.vch| < 4 {
      return Invalid;
    }
    var b := r.vch[..|r.vch| - 4];
    assert r.vch == b + r.vch[|r.vch| - 4..];
    if h.hash(b) != r.vch[|r.vch| - 4..] {
      forall c ensures c + h.hash(c) != r.vch {
        LastFour(c, h.hash(c), r.vch);
      }
      return Invalid;
    }
    return Bytes(b);
  }

  lemma LastFour(c: seq<nat>, t: seq<nat>, v: seq<nat>)
    requires |t| == 4 && |v| >= 4
    ensures c + t == v ==> c == v[..|v| - 4] && t == v[|v| - 4..]
  {
  }

  /** A checked encoding decodes to what was encoded. */
  method CheckRoundTrip(h: Hasher, b: seq<nat>) returns (r: Result)
    requires FourBytes(h) && InBase(b, 256)
    ensures r == Bytes(b)
  {
    hide DecodesTo, Encoded;
    var str := EncodeCheck(h, b);
    DecodeEncode(b + h.hash(b));
    r := DecodeCheck(h, str);
    if r.Bytes? {
      DecodesOnce(str, Bytes(b + h.hash(b)), Bytes(r.vch + h.hash(r.vch)));
      assert b == (b + h.hash(b))[..|b|] && r.vch == (r.vch + h.hash(r.vch))[..|r.vch|];
    }
  }
}
