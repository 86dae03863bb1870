/** SQL-style aggregates over finite collections: sum over a map's values, and the
    extreme elements of a set of integers. */
module Aggregates {

  /** The sum of the values of `m`, in whatever order its keys are picked. */
  ghost function SumOver<K(!new)>(m: map<K, int>): int
    decreases |m|
  {
    if m == map[] then 0 else
      var k :| k in m;
      assert (m - {k}).Keys == m.Keys - {k};
      m[k] + SumOver(m - {k})
  }

  /** The order of picking is immaterial. */
  lemma {:induction false} SumOverPick<K(!new)>(m: map<K, int>, k: K)
    requires k in m
    ensures SumOver(m) == m[k] + SumOver(m - {k})
    decreases |m|
  {
    var c :| c in m && SumOver(m) == m[c] + SumOver(m - {c});
    if c != k {
      assert (m - {c}).Keys == m.Keys - {c};
      assert (m - {k}).Keys == m.Keys - {k};
      SumOverPick(m - {c}, k);
      SumOverPick(m - {k}, c);
      assert m - {c} - {k} == m - {k} - {c};
    }
  }

  lemma SumOverUpdate<K(!new)>(m: map<K, int>, k: K, v: int)
    ensures SumOver(m[k := v]) == SumOver(m) - (if k in m then m[k] else 0) + v
  {
    SumOverPick(m[k := v], k);
    assert m[k := v] - {k} == m - {k};
    if k in m {
      SumOverPick(m, k);
    } else {
      assert m - {k} == m;
    }
  }

  /** Adding `x` to the share of one key adds it to the sum. */
  lemma SumOverGrow<K(!new)>(m: map<K, int>, n: map<K, int>, k: K, x: int)
    requires n.Keys == m.Keys + {k}
    requires n[k] == x + if k in m then m[k] else 0
    requires forall j :: j in m && j != k ==> n[j] == m[j]
    ensures SumOver(n) == SumOver(m) + x
  {
    SumOverUpdate(m, k, n[k]);
    assert n == m[k := n[k]];
  }

  /** Pointwise order carries over to sums, and equality of the sums back to the values. */
  lemma {:induction false} SumOverMonotone<K(!new)>(small: map<K, int>, big: map<K, int>)
    requires small.Keys == big.Keys
    requires forall k :: k in small ==> small[k] <= big[k]
    ensures SumOver(small) <= SumOver(big)
    ensures SumOver(small) == SumOver(big) ==> small == big
    decreases |small|
  {
    if small != map[] {
      var k :| k in small;
      assert (small - {k}).Keys == small.Keys - {k} == (big - {k}).Keys;
      SumOverPick(small, k);
      SumOverPick(big, k);
      SumOverMonotone(small - {k}, big - {k});
      if SumOver(small) == SumOver(big) {
        forall j | j in small ensures small[j] == big[j] {
          if j != k {
            assert (small - {k})[j] == (big - {k})[j];
          }
        }
      }
    } else {
      assert big == map[];
    }
  }

  ghost predicate IsMax(m: int, s: set<int>) {
    m in s && forall x :: x in s ==> x <= m
  }

  ghost predicate IsMin(m: int, s: set<int>) {
    m in s && forall x :: x in s ==> m <= x
  }

  lemma Member<T>(s: set<T>) returns (x: T)
    requires s != {}
    ensures x in s
  {
    x :| x in s;
  }

  lemma {:induction false} MaxExists(s: set<int>)
    requires s != {}
    ensures exists m :: IsMax(m, s)
  {
    var x := Member(s);
    if s == {x} {
      assert IsMax(x, s);
    } else {
      MaxExists(s - {x});
      var m :| IsMax(m, s - {x});
      assert forall y :: y in s ==> y == x || y in s - {x};
      assert IsMax(if x < m then m else x, s);
    }
  }

  lemma {:induction false} MinExists(s: set<int>)
    requires s != {}
    ensures exists m :: IsMin(m, s)
  {
    var x := Member(s);
    if s == {x} {
      assert IsMin(x, s);
    } else {
      MinExists(s - {x});
      var m :| IsMin(m, s - {x});
      assert forall y :: y in s ==> y == x || y in s - {x};
      assert IsMin(if m < x then m else x, s);
    }
  }

  ghost function MaxOf(s: set<int>): (m: int)
    requires s != {}
    ensures IsMax(m, s)
  {
    MaxExists(s);
    var m :| IsMax(m, s); m
  }

  ghost function MinOf(s: set<int>): (m: int)
    requires s != {}
    ensures IsMin(m, s)
  {
    MinExists(s);
    var m :| IsMin(m, s); m
  }
}
