/**
The rolling Bloom filter: every position carries a two-bit generation tag, the low bits
and the high bits of 64 positions being packed into two adjacent words.
*/
module RollingBloom {
  import opened Powers

  type Key = nat

  /** A position: a pair of words and a bit in both. */
  datatype Place = Place(pair: int, bit: int)

  /** The parameters fixed at construction; `hash` is the seeded hash of one hash function. */
  datatype Params = Params(pairs: nat, perGeneration: nat, hashFuncs: nat, hash: (nat, Key) -> nat)

  ghost predicate ParamsOk(f: Params) {
    f.pairs >= 1 && f.perGeneration >= 1
  }

  /** The low six bits of a hash select the bit, the others the word. */
  function BitOf(h: nat): (b: int)
    ensures 0 <= b < 64
  {
    h % 64
  }

  function PosOf(h: nat, size: nat): (pos: int)
    requires size >= 1
    ensures 0 <= pos < size
  {
    h / 64 % size
  }

  function PlaceOf(f: Params, n: nat, key: Key): (p: Place)
    requires ParamsOk(f)
    ensures 0 <= p.pair < f.pairs && 0 <= p.bit < 64
  {
    Place(PosOf(f.hash(n, key), 2 * f.pairs) / 2, BitOf(f.hash(n, key)))
  }

  lemma HalfRemainder(q: nat, p: nat)
    requires p >= 1
    ensures q % (2 * p) / 2 == q / 2 % p
  {
    var k, r := q / (2 * p), q % (2 * p);
    assert q == k * (2 * p) + r;
    assert k * (2 * p) == 2 * (k * p);
    DivModUnique(q / 2, p, k, r / 2);
  }

  /** Two hashes lead to the same place if and only if they agree in the low six bits and in the pair of words. */
  lemma SamePlace(f: Params, n: nat, key: Key, n': nat, key': Key)
    requires ParamsOk(f)
    ensures var h, h' := f.hash(n, key), f.hash(n', key');
            PlaceOf(f, n, key) == PlaceOf(f, n', key') <==>
              h % 64 == h' % 64 && h / 128 % f.pairs == h' / 128 % f.pairs
  {
    var h, h' := f.hash(n, key), f.hash(n', key');
    HalfRemainder(h / 64, f.pairs);
    HalfRemainder(h' / 64, f.pairs);
    HalvedAgain(h);
    HalvedAgain(h');
  }

  lemma HalvedAgain(h: nat)
    ensures h / 64 / 2 == h / 128
  {
  }

  /** One of the first hash functions sends the key to a place. */
  ghost predicate TouchedBy(f: Params, key: Key, count: nat, p: Place)
    requires ParamsOk(f)
  {
    exists n: nat :: n < count && PlaceOf(f, n, key) == p
  }

  ghost predicate Touches(f: Params, key: Key, p: Place)
    requires ParamsOk(f)
  {
    TouchedBy(f, key, f.hashFuncs, p)
  }

  // ---------------------------------------------------------------- history

  /** The number of the generation of the newest insertion, and how many it holds. */
  function Generation(f: Params, history: seq<Key>): (g: nat)
    decreases |history|, 1
  {
    if history == [] then 0
    else var before := history[..|history| - 1];
      if Entries(f, before) == f.perGeneration then Generation(f, before) + 1 else Generation(f, before)
  }

  function Entries(f: Params, history: seq<Key>): (n: nat)
    decreases |history|, 0
  {
    if history == [] then 0
    else var before := history[..|history| - 1];
      if Entries(f, before) == f.perGeneration then 1 else Entries(f, before) + 1
  }

  /** The generation in which a place was last touched, -1 for never. */
  ghost function LastTouched(f: Params, history: seq<Key>, p: Place): (g: int)
    requires ParamsOk(f)
    ensures -1 <= g <= Generation(f, history)
    decreases |history|
  {
    if history == [] then -1
    else var last := |history| - 1;
      if Touches(f, history[last], p) then Generation(f, history) else LastTouched(f, history[..last], p)
  }

  /** Touched in one of the three newest generations. */
  ghost predicate Recent(f: Params, history: seq<Key>, p: Place)
    requires ParamsOk(f)
  {
    LastTouched(f, history, p) >= 0 && Generation(f, history) - LastTouched(f, history, p) <= 2
  }

  function TagOf(g: int): (t: int)
    ensures 1 <= t <= 3
  {
    g % 3 + 1
  }

  ghost function TagAfter(f: Params, history: seq<Key>, p: Place): int
    requires ParamsOk(f)
  {
    if Recent(f, history, p) then TagOf(LastTouched(f, history, p)) else 0
  }

  // ------------------------------------------------------ what is remembered

  /** Generations are filled one after the other. */
  lemma {:induction false} Filled(f: Params, history: seq<Key>)
    requires ParamsOk(f)
    ensures Generation(f, history) * f.perGeneration + Entries(f, history) == |history|
    ensures Entries(f, history) <= f.perGeneration && (history != [] ==> Entries(f, history) >= 1)
    decreases |history|
  {
    if history != [] {
      Filled(f, history[..|history| - 1]);
    }
  }

  /** A place stays as recent as the last key that touched it. */
  lemma {:induction false} TouchedSince(f: Params, history: seq<Key>, i: nat, p: Place)
    requires ParamsOk(f) && i < |history| && Touches(f, history[i], p)
    ensures LastTouched(f, history, p) >= Generation(f, history[..i + 1])
    decreases |history|
  {
    var last := |history| - 1;
    if i == last {
      assert history[..i + 1] == history;
    } else if Touches(f, history[last], p) {
      GenerationGrows(f, history, i + 1);
    } else {
      TouchedSince(f, history[..last], i, p);
      assert history[..last][..i + 1] == history[..i + 1];
    }
  }

  lemma {:induction false} GenerationGrows(f: Params, history: seq<Key>, i: nat)
    requires i <= |history|
    ensures Generation(f, history[..i]) <= Generation(f, history)
    decreases |history|
  {
    if i == |history| {
      assert history[..i] == history;
    } else {
      GenerationGrows(f, history[..|history| - 1], i);
      assert history[..|history| - 1][..i] == history[..i];
    }
  }

  lemma FewGenerations(n: int, g: int, a: int, g': int, a': int)
    requires n >= 1 && 0 <= a <= n && a' >= 1 && g' * n + a' - (g * n + a) <= 2 * n - 1
    ensures g' - g <= 2
  {
    assert (g' - g) * n == g' * n - g * n;
    assert g' - g >= 3 ==> (g' - g) * n >= 3 * n;
  }

  /** The key and everything it touched is remembered for at least twice a generation's insertions. */
  lemma RecentlyInserted(f: Params, history: seq<Key>, i: nat)
    requires ParamsOk(f) && i < |history| && |history| - i <= 2 * f.perGeneration
    ensures Generation(f, history) - Generation(f, history[..i + 1]) <= 2
    ensures forall p :: Touches(f, history[i], p) ==> Recent(f, history, p)
  {
    var then' := history[..i + 1];
    Filled(f, history);
    Filled(f, then');
    FewGenerations(f.perGeneration, Generation(f, then'), Entries(f, then'), Generation(f, history),
                   Entries(f, history));
    forall p | Touches(f, history[i], p) ensures Recent(f, history, p) {
      TouchedSince(f, history, i, p);
    }
  }

  /** What is remembered was touched in the last three generations' insertions. */
  lemma {:induction false} RecentMeans(f: Params, history: seq<Key>, p: Place)
    requires ParamsOk(f) && Recent(f, history, p)
    ensures exists i :: |history| - 3 * f.perGeneration <= i < |history| && i >= 0 && Touches(f, history[i], p)
  {
    var i := LastToucher(f, history, p);
    Filled(f, history);
    Filled(f, history[..i + 1]);
    ThreeGenerations(f.perGeneration, Generation(f, history[..i + 1]), Entries(f, history[..i + 1]),
                     Generation(f, history), Entries(f, history));
  }

  lemma ThreeGenerations(n: int, g: int, a: int, g': int, a': int)
    requires n >= 1 && a >= 1 && a' <= n && g' - g <= 2
    ensures g' * n + a' - (g * n + a) <= 3 * n - 1
  {
    assert (g' - g) * n == g' * n - g * n;
    assert (g' - g) * n <= 2 * n;
  }

  lemma {:induction false} LastToucher(f: Params, history: seq<Key>, p: Place) returns (i: nat)
    requires ParamsOk(f) && LastTouched(f, history, p) >= 0
    ensures i < |history| && Touches(f, history[i], p) && Generation(f, history[..i + 1]) == LastTouched(f, history, p)
    decreases |history|
  {
    var last := |history| - 1;
    if Touches(f, history[last], p) {
      i := last;
      assert history[..last + 1] == history;
    } else {
      i := LastToucher(f, history[..last], p);
      assert history[..last][..i + 1] == history[..i + 1];
    }
  }

  // ---------------------------------------------------------------- bit level

  /** A 64-bit word as its bits, the lowest first. */
  type Word = w: seq<bool> | |w| == 64 witness seq(64, i => false)

  function And(x: Word, y: Word): (r: Word)
    ensures forall b :: 0 <= b < 64 ==> r[b] == (x[b] && y[b])
  {
    seq(64, b requires 0 <= b < 64 => x[b] && y[b])
  }

  function Or(x: Word, y: Word): (r: Word)
    ensures forall b :: 0 <= b < 64 ==> r[b] == (x[b] || y[b])
  {
    seq(64, b requires 0 <= b < 64 => x[b] || y[b])
  }

  function Xor(x: Word, y: Word): (r: Word)
    ensures forall b :: 0 <= b < 64 ==> r[b] == (x[b] != y[b])
  {
    seq(64, b requires 0 <= b < 64 => x[b] != y[b])
  }

  /** The negation of a bit: all zeros or all ones. */
  function Fill(v: bool): (r: Word)
    ensures forall b :: 0 <= b < 64 ==> r[b] == v
  {
    seq(64, b => v)
  }

  /** A bit shifted into place. */
  function Shifted(v: bool, bit: int): (r: Word)
    requires 0 <= bit < 64
    ensures forall b :: 0 <= b < 64 ==> r[b] == (v && b == bit)
  {
    seq(64, b => v && b == bit)
  }

  function WithBit(x: Word, bit: int, v: bool): (r: Word)
    requires 0 <= bit < 64
    ensures forall b :: 0 <= b < 64 ==> r[b] == if b == bit then v else x[b]
  {
    Or(And(x, Xor(Shifted(true, bit), Fill(true))), Shifted(v, bit))
  }

  /** The generation tag of one position. */
  function Tag(p1: Word, p2: Word, b: int): int
    requires 0 <= b < 64
  {
    (if p1[b] then 1 else 0) + (if p2[b] then 2 else 0)
  }

  predicate Low(g: int) {
    g % 2 == 1
  }

  predicate High(g: int) {
    g / 2 == 1
  }

  lemma StoredTag(p1: Word, p2: Word, b: int, g: int, c: int)
    requires 0 <= b < 64 && 0 <= c < 64 && 1 <= g <= 3
    ensures Tag(WithBit(p1, b, Low(g)), WithBit(p2, b, High(g)), c) == if c == b then g else Tag(p1, p2, c)
  {
    hide WithBit;
  }

  /** The mask that spares positions not tagged with a generation. */
  function Spare(p1: Word, p2: Word, g: int): Word {
    Or(Xor(p1, Fill(Low(g))), Xor(p2, Fill(High(g))))
  }

  lemma WipedTag(p1: Word, p2: Word, g: int, b: int)
    requires 0 <= b < 64 && 1 <= g <= 3
    ensures Tag(And(p1, Spare(p1, p2, g)), And(p2, Spare(p1, p2, g)), b) ==
              if Tag(p1, p2, b) == g then 0 else Tag(p1, p2, b)
  {
    hide And, Or, Xor, Fill;
  }

  // --------------------------------------------------------------- the filter

  ghost function Carried(f: Params, history: seq<Key>, key: Key, p: Place): int
    requires ParamsOk(f)
  {
    var last := LastTouched(f, history, p);
    if last >= 0 && Generation(f, history + [key]) - last <= 2 then TagOf(last) else 0
  }

  /** Starting a generation erases exactly the tags that are three generations old. */
  lemma Aged(f: Params, history: seq<Key>, key: Key, p: Place)
    requires ParamsOk(f)
    ensures Carried(f, history, key, p) ==
            if Entries(f, history) == f.perGeneration && TagAfter(f, history, p) == TagOf(Generation(f, history) + 1)
               then 0
            else TagAfter(f, history, p)
  {
    hide TagOf, LastTouched, Generation, Entries;
    NextGeneration(f, history, key);
    if Recent(f, history, p) {
      TagsRepeat(Generation(f, history), LastTouched(f, history, p));
    }
  }

  lemma NextGeneration(f: Params, history: seq<Key>, key: Key)
    ensures Generation(f, history + [key]) ==
            if Entries(f, history) == f.perGeneration then Generation(f, history) + 1 else Generation(f, history)
  {
    assert (history + [key])[..|history|] == history;
  }

  lemma TagsRepeat(g: int, last: int)
    requires g - 2 <= last <= g
    ensures TagOf(last) == TagOf(g + 1) <==> last == g - 2
  {
  }

  lemma Inserted(f: Params, history: seq<Key>, key: Key, p: Place)
    requires ParamsOk(f)
    ensures TagAfter(f, history + [key], p) ==
            if Touches(f, key, p) then TagOf(Generation(f, history + [key])) else Carried(f, history, key, p)
  {
    assert (history + [key])[..|history|] == history;
  }

  class Filter {
    var f: Params
    var nEntriesThisGeneration: int
    var nGeneration: int
    const data: array<Word>
    ghost var history: seq<Key>

    ghost predicate Shape()
      reads this
    {
      ParamsOk(f) && data.Length == 2 * f.pairs
    }

    ghost function TagAt(p: Place): int
      requires InFilter(p)
      reads data
    {
      Tag(data[2 * p.pair], data[2 * p.pair + 1], p.bit)
    }

    ghost predicate InFilter(p: Place) {
      0 <= p.pair && 2 * p.pair + 1 < data.Length && 0 <= p.bit < 64
    }

    /** Every position carries the tag of the generation that last touched it, while that is recent. */
    ghost predicate Valid()
      reads this, data
    {
      && Shape()
      && nGeneration == TagOf(Generation(f, history))
      && nEntriesThisGeneration == Entries(f, history)
      && (forall p :: InFilter(p) ==> TagAt(p) == TagAfter(f, history, p))
    }

    constructor (f: Params)
      requires ParamsOk(f)
      ensures Valid() && this.f == f && history == [] && fresh(data)
    {
      this.f := f;
      data := new Word[2 * f.pairs];
      nEntriesThisGeneration, nGeneration, history := 0, 1, [];
      new;
      Clear();
    }

    method Clear()
      requires Shape()
      modifies data
      ensures forall p :: InFilter(p) ==> TagAt(p) == 0
    {
      for i := 0 to data.Length
        invariant forall k :: 0 <= k < i ==> data[k] == Fill(false)
      {
        data[i] := Fill(false);
      }
    }

    /** Forgets everything and draws a new seed, that is, a new hash. */
    method Reset(hash: (nat, Key) -> nat)
      requires Shape()
      modifies this, data
      ensures Valid() && history == [] && f == old(f).(hash := hash)
    {
      f := f.(hash := hash);
      nEntriesThisGeneration, nGeneration, history := 0, 1, [];
      Clear();
    }

    method Wipe()
      requires Shape() && 1 <= nGeneration <= 3
      modifies data
      ensures forall p :: InFilter(p) ==> TagAt(p) == if old(TagAt(p)) == nGeneration then 0 else old(TagAt(p))
    {
      hide Tag, Spare, And;
      for w := 0 to f.pairs
        invariant forall p :: InFilter(p) && p.pair < w ==>
                    TagAt(p) == if old(TagAt(p)) == nGeneration then 0 else old(TagAt(p))
        invariant forall k :: 2 * w <= k < data.Length ==> data[k] == old(data[k])
      {
        var p1, p2 := data[2 * w], data[2 * w + 1];
        var mask := Spare(p1, p2, nGeneration);
        forall b | 0 <= b < 64
          ensures Tag(And(p1, mask), And(p2, mask), b) == if Tag(p1, p2, b) == nGeneration then 0 else Tag(p1, p2, b)
        {
          WipedTag(p1, p2, nGeneration, b);
        }
        data[2 * w] := And(p1, mask);
        data[2 * w + 1] := And(p2, mask);
      }
    }

    /** Tags the place of one hash function with the current generation. */
    method Touch(n: nat, key: Key)
      requires Shape() && 1 <= nGeneration <= 3
      modifies data
      ensures forall p :: InFilter(p) ==> TagAt(p) == if p == PlaceOf(f, n, key) then nGeneration else old(TagAt(p))
    {
      hide Tag, WithBit, BitOf, PosOf;
      var h := f.hash(n, key);
      var bit := BitOf(h);
      var pos := PosOf(h, data.Length);
      var even := pos - pos % 2;
      var p1, p2 := data[even], data[even + 1];
      forall c | 0 <= c < 64
        ensures Tag(WithBit(p1, bit, Low(nGeneration)), WithBit(p2, bit, High(nGeneration)), c) ==
                  if c == bit then nGeneration else Tag(p1, p2, c)
      {
        StoredTag(p1, p2, bit, nGeneration, c);
      }
      assert even == 2 * (pos / 2);
      data[even] := WithBit(p1, bit, Low(nGeneration));
      data[even + 1] := WithBit(p2, bit, High(nGeneration));
    }

    method Insert(key: Key)
      requires Valid()
      modifies this, data
      ensures Valid() && f == old(f) && history == old(history) + [key]
    {
      hide Tag, TagAfter, Touches, TouchedBy, Carried;
      ghost var before := history;
      forall p | InFilter(p)
        ensures Carried(f, before, key, p) ==
                  if Entries(f, before) == f.perGeneration && TagAt(p) == TagOf(Generation(f, before) + 1) then 0
                  else TagAt(p)
      {
        Aged(f, before, key, p);
      }
      assert (before + [key])[..|before|] == before;
      if nEntriesThisGeneration == f.perGeneration {
        nEntriesThisGeneration := 0;
        nGeneration := nGeneration + 1;
        if nGeneration == 4 {
          nGeneration := 1;
        }
        Wipe();
      }
      nEntriesThisGeneration := nEntriesThisGeneration + 1;
      NoneTouched(key);
      for n := 0 to f.hashFuncs
        modifies data
        invariant Shape() && nGeneration == TagOf(Generation(f, before + [key]))
        invariant forall p :: InFilter(p) ==>
                    TagAt(p) == if TouchedBy(f, key, n, p) then nGeneration else Carried(f, before, key, p)
      {
        OneMoreTouched(key, n);
        Touch(n, key);
      }
      history := history + [key];
      forall p | InFilter(p) ensures TagAt(p) == TagAfter(f, history, p) {
        Inserted(f, before, key, p);
        TouchesAll(key, p);
      }
    }

    lemma NoneTouched(key: Key)
      requires Shape()
      ensures forall p :: !TouchedBy(f, key, 0, p)
    {
    }

    lemma OneMoreTouched(key: Key, n: nat)
      requires Shape()
      ensures forall p :: TouchedBy(f, key, n + 1, p) <==> TouchedBy(f, key, n, p) || p == PlaceOf(f, n, key)
    {
    }

    lemma TouchesAll(key: Key, p: Place)
      requires Shape()
      ensures Touches(f, key, p) <==> TouchedBy(f, key, f.hashFuncs, p)
    {
    }

    /** Reads the tag of one hash function's place: set when the place is recent. */
    method IsSet(n: nat, key: Key) returns (set': bool)
      requires Valid()
      ensures set' <==> Recent(f, history, PlaceOf(f, n, key))
    {
      hide Or, BitOf, PosOf, LastTouched, Generation;
      var h := f.hash(n, key);
      var bit := BitOf(h);
      var pos := PosOf(h, data.Length);
      var even := pos - pos % 2;
      ghost var place := PlaceOf(f, n, key);
      assert even == 2 * place.pair && InFilter(place);
      assert TagAt(place) == TagAfter(f, history, place);
      set' := Or(data[even], data[even + 1])[bit];
    }

    /** Whether every place of the key was touched in one of the three newest generations. */
    method Contains(key: Key) returns (found: bool)
      requires Valid()
      ensures found <==> forall p :: Touches(f, key, p) ==> Recent(f, history, p)
      ensures (exists i :: |history| - 2 * f.perGeneration <= i < |history| && i >= 0 && history[i] == key) ==> found
    {
      hide PlaceOf, Recent, Tag;
      for n := 0 to f.hashFuncs
        invariant forall p :: TouchedBy(f, key, n, p) ==> Recent(f, history, p)
      {
        var set' := IsSet(n, key);
        if !set' {
          Missing(key, n);
          return false;
        }
      }
      return true;
    }

    /** A key with an old place was not inserted lately. */
    lemma Missing(key: Key, n: nat)
      requires ParamsOk(f) && n < f.hashFuncs && !Recent(f, history, PlaceOf(f, n, key))
      ensures Touches(f, key, PlaceOf(f, n, key))
      ensures forall i :: |history| - 2 * f.perGeneration <= i < |history| && i >= 0 ==> history[i] != key
    {
      assert TouchedBy(f, key, f.hashFuncs, PlaceOf(f, n, key));
      forall i | |history| - 2 * f.perGeneration <= i < |history| && i >= 0 ensures history[i] != key {
        RecentlyInserted(f, history, i);
      }
    }
  }
}
