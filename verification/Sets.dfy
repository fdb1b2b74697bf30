/** Cardinalities of finite sets, maps and duplicate-free sequences. */
module Sets {

  lemma {:induction false} SubsetSize<T>(a: set<T>, b: set<T>)
    requires a <= b
    ensures |a| <= |b|
    decreases a
  {
    if a != {} {
      var x :| x in a;
      SubsetSize(a - {x}, b - {x});
    }
  }

  predicate Distinct<T(==)>(s: seq<T>) {
    forall i, j :: 0 <= i < j < |s| ==> s[i] != s[j]
  }

  function Elements<T>(s: seq<T>): set<T> {
    set x | x in s
  }

  lemma {:induction false} DistinctSize<T>(s: seq<T>)
    requires Distinct(s)
    ensures |Elements(s)| == |s|
  {
    if s != [] {
      var last := |s| - 1;
      DistinctSize(s[..last]);
      assert s == s[..last] + [s[last]];
      assert Elements(s) == Elements(s[..last]) + {s[last]};
      assert s[last] !in s[..last];
    }
  }

  ghost predicate Injective<A, B>(m: map<A, B>) {
    forall x, y :: x in m && y in m && m[x] == m[y] ==> x == y
  }

  lemma {:induction false} InjectiveSize<A, B>(m: map<A, B>)
    requires Injective(m)
    ensures |m.Keys| == |m.Values|
    decreases m.Keys
  {
    if m.Keys == {} {
      assert m.Values == {};
    } else {
      var x :| x in m;
      var rest := m - {x};
      InjectiveSize(rest);
      assert rest.Keys == m.Keys - {x};
      assert m.Values == rest.Values + {m[x]} by {
        forall y | y in m.Values ensures y in rest.Values + {m[x]} {
          var z :| z in m && m[z] == y;
          assert z == x || z in rest;
        }
      }
      assert m[x] !in rest.Values;
    }
  }

  lemma Pick<T>(s: set<T>) returns (x: T)
    requires s != {}
    ensures x in s
  {
    x :| x in s;
  }

  lemma KeyOf<A, B>(m: map<A, B>, y: B) returns (x: A)
    requires y in m.Values
    ensures x in m && m[x] == y
  {
    x :| x in m && m[x] == y;
  }

  lemma {:induction false} Least(s: set<int>) returns (n: int)
    requires s != {}
    ensures n in s && forall m :: m in s ==> n <= m
    decreases s
  {
    var x := Pick(s);
    var rest := s - {x};
    if rest == {} {
      assert s == {x};
      n := x;
    } else {
      n := Least(rest);
      if x < n {
        n := x;
      }
      assert forall m :: m in s ==> m == x || m in rest;
    }
  }

  lemma LeastExists(s: set<int>)
    requires s != {}
    ensures exists n :: n in s && forall m :: m in s ==> n <= m
  {
    var n := Least(s);
  }

  /** Two sets with mutually inverse maps between them. */
  lemma {:induction false} BijectionSize<A, B>(f: map<A, B>, g: map<B, A>)
    requires forall x :: x in f ==> f[x] in g && g[f[x]] == x
    requires forall y :: y in g ==> g[y] in f && f[g[y]] == y
    ensures |f.Keys| == |g.Keys|
  {
    InjectiveSize(f);
    assert f.Values == g.Keys by {
      forall y | y in g ensures y in f.Values {
        assert f[g[y]] == y;
      }
    }
  }
}
