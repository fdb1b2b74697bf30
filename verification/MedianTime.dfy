/** Header times: the median of the last eleven, which never goes back along a chain. */
module MedianTime {

  datatype Header = Header(nVersion: int, nTime: int, nBits: nat)

  const SPAN := 11

  // ----------------------------------------------------------------- sorting

  ghost predicate Sorted(s: seq<int>) {
    forall i, j :: 0 <= i < j < |s| ==> s[i] <= s[j]
  }

  function Insert(s: seq<int>, x: int): (r: seq<int>)
    ensures |r| == |s| + 1
  {
    if s == [] || x <= s[0] then [x] + s else [s[0]] + Insert(s[1..], x)
  }

  function Sort(s: seq<int>): (r: seq<int>)
    ensures |r| == |s|
  {
    if s == [] then [] else Insert(Sort(s[1..]), s[0])
  }

  /** How many elements lie below a bound. */
  function Below(s: seq<int>, x: int): (n: nat)
    ensures n <= |s|
  {
    if s == [] then 0 else (if s[0] < x then 1 else 0) + Below(s[1..], x)
  }

  lemma {:induction false} InsertSorted(s: seq<int>, x: int)
    requires Sorted(s)
    ensures Sorted(Insert(s, x)) && (Insert(s, x)[0] == x || (s != [] && Insert(s, x)[0] == s[0]))
  {
    if s != [] && x > s[0] {
      InsertSorted(s[1..], x);
      var r := Insert(s[1..], x);
      assert s[0] <= r[0];
      forall i, j | 0 <= i < j < |r| + 1
        ensures Insert(s, x)[i] <= Insert(s, x)[j]
      {
        if i == 0 {
          assert r[0] <= r[j - 1];
        }
      }
    }
  }

  lemma {:induction false} SortSorted(s: seq<int>)
    ensures Sorted(Sort(s))
  {
    if s != [] {
      SortSorted(s[1..]);
      InsertSorted(Sort(s[1..]), s[0]);
    }
  }

  lemma {:induction false} InsertBelow(s: seq<int>, y: int, x: int)
    ensures Below(Insert(s, y), x) == Below(s, x) + if y < x then 1 else 0
  {
    if s == [] || y <= s[0] {
      assert ([y] + s)[1..] == s;
    } else {
      InsertBelow(s[1..], y, x);
      assert ([s[0]] + Insert(s[1..], y))[1..] == Insert(s[1..], y);
    }
  }

  /** Sorting keeps every element: it keeps all counts. */
  lemma {:induction false} SortBelow(s: seq<int>, x: int)
    ensures Below(Sort(s), x) == Below(s, x)
  {
    if s != [] {
      SortBelow(s[1..], x);
      InsertBelow(Sort(s[1..]), s[0], x);
    }
  }

  /** In sorted order, an element has rank k exactly when at most k elements lie below it. */
  lemma {:induction false} RankBelow(s: seq<int>, k: nat, x: int)
    requires Sorted(s) && k < |s|
    ensures s[k] >= x <==> Below(s, x) <= k
  {
    if s[0] >= x {
      NoneBelow(s, x);
      assert k > 0 ==> s[0] <= s[k];
    } else if k > 0 {
      RankBelow(s[1..], k - 1, x);
    }
  }

  lemma {:induction false} NoneBelow(s: seq<int>, x: int)
    requires Sorted(s) && s != [] && s[0] >= x
    ensures Below(s, x) == 0
  {
    if |s| > 1 {
      NoneBelow(s[1..], x);
    }
  }

  lemma {:induction false} BelowConcat(s: seq<int>, t: seq<int>, x: int)
    ensures Below(s + t, x) == Below(s, x) + Below(t, x)
  {
    if s == [] {
      assert s + t == t;
    } else {
      BelowConcat(s[1..], t, x);
      assert (s + t)[1..] == s[1..] + t;
    }
  }

  // ------------------------------------------------------------------ median

  function Median(s: seq<int>): int
    requires s != []
  {
    Sort(s)[|s| / 2]
  }

  /** The median is at least x exactly when at most half of the elements lie below x. */
  lemma MedianRank(s: seq<int>, x: int)
    requires s != []
    ensures Median(s) >= x <==> Below(s, x) <= |s| / 2
  {
    SortSorted(s);
    SortBelow(s, x);
    RankBelow(Sort(s), |s| / 2, x);
  }

  /** The times of the last blocks of a chain, at most eleven, oldest first. */
  function Times(chain: seq<Header>): (t: seq<int>)
    ensures |t| == if |chain| < SPAN then |chain| else SPAN
  {
    var n := if |chain| < SPAN then |chain| else SPAN;
    seq(n, i requires 0 <= i < n => chain[|chain| - n + i].nTime)
  }

  function MedianTimePast(chain: seq<Header>): int
    requires chain != []
  {
    Median(Times(chain))
  }

  method GetMedianTimePast(chain: seq<Header>) returns (m: int)
    requires chain != []
    ensures m == MedianTimePast(chain)
    ensures forall x :: m >= x <==> Below(Times(chain), x) <= |Times(chain)| / 2
  {
    var pmedian: seq<int> := [];
    var pindex := |chain|;
    while |pmedian| < SPAN && pindex > 0
      invariant 0 <= pindex <= |chain| && |pmedian| == |chain| - pindex <= SPAN
      invariant forall i :: 0 <= i < |pmedian| ==> pmedian[i] == chain[pindex + i].nTime
    {
      pindex := pindex - 1;
      pmedian := [chain[pindex].nTime] + pmedian;
    }
    assert pmedian == Times(chain);
    var sorted := Sort(pmedian);
    m := sorted[|sorted| / 2];
    forall x
      ensures m >= x <==> Below(Times(chain), x) <= |Times(chain)| / 2
    {
      MedianRank(Times(chain), x);
    }
  }

  /** A block whose time is past the median does not move the median back. */
  lemma MedianKeeps(chain: seq<Header>, b: Header)
    requires chain != [] && b.nTime > MedianTimePast(chain)
    ensures MedianTimePast(chain + [b]) >= MedianTimePast(chain)
  {
    hide Median;
    var t, t', m := Times(chain), Times(chain + [b]), MedianTimePast(chain);
    MedianRank(t, m);
    MedianRank(t', m);
    BelowConcat(t, [b.nTime], m);
    if |chain| < SPAN {
      assert t' == t + [b.nTime];
    } else {
      assert t' == t[1..] + [b.nTime];
      BelowConcat(t[1..], [b.nTime], m);
    }
  }

  /** Every block is later than the median of the blocks before it. */
  ghost predicate Timely(chain: seq<Header>) {
    forall h :: 1 <= h < |chain| ==> chain[h].nTime > MedianTimePast(chain[..h])
  }

  /** Along a chain of timely blocks, the median time never goes back. */
  lemma {:induction false} MedianMonotone(chain: seq<Header>, i: nat, j: nat)
    requires Timely(chain) && 1 <= i <= j <= |chain|
    ensures MedianTimePast(chain[..i]) <= MedianTimePast(chain[..j])
    decreases j
  {
    hide MedianTimePast;
    if i < j {
      MedianMonotone(chain, i, j - 1);
      MedianKeeps(chain[..j - 1], chain[j - 1]);
      assert chain[..j - 1] + [chain[j - 1]] == chain[..j];
    }
  }
}
