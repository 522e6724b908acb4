/** Sums over tables, as SQL's SUM and GROUP BY compute them, and sizes of parts. */
module Tables {

  /** Sum of all values of a map. */
  ghost function SumOf<K>(m: map<K, real>): real {
    if m == map[] then 0.0
    else
      var k :| k in m;
      m[k] + SumOf(m - {k})
  }

  /** Any key may be taken out first. */
  lemma {:induction false} SumRemove<K>(m: map<K, real>, k: K)
    requires k in m
    ensures SumOf(m) == m[k] + SumOf(m - {k})
    decreases |m|
  {
    var first :| first in m && SumOf(m) == m[first] + SumOf(m - {first});
    if first != k {
      SumRemove(m - {first}, k);
      SumRemove(m - {k}, first);
      assert m - {first} - {k} == m - {k} - {first};
    }
  }

  lemma SumUpdate<K>(m: map<K, real>, k: K, v: real)
    ensures SumOf(m[k := v]) == SumOf(m) - (if k in m then m[k] else 0.0) + v
  {
    SumRemove(m[k := v], k);
    assert m[k := v] - {k} == m - {k};
    if k in m {
      SumRemove(m, k);
    } else {
      assert m - {k} == m;
    }
  }

  lemma {:induction false} SumNonNegative<K>(m: map<K, real>)
    requires forall k :: k in m ==> m[k] >= 0.0
    ensures SumOf(m) >= 0.0
    decreases |m|
  {
    if m != map[] {
      var k :| k in m;
      SumRemove(m, k);
      SumNonNegative(m - {k});
    }
  }

  /** Dropping entries that are zero does not change a sum. */
  lemma {:induction false} SumDropsZeros<K>(m: map<K, real>, n: map<K, real>)
    requires forall k :: k in n ==> k in m && n[k] == m[k]
    requires forall k :: k in m && k !in n ==> m[k] == 0.0
    ensures SumOf(m) == SumOf(n)
    decreases |m|
  {
    if m != map[] {
      var k :| k in m;
      SumRemove(m, k);
      if k in n {
        SumRemove(n, k);
        SumDropsZeros(m - {k}, n - {k});
      } else {
        SumDropsZeros(m - {k}, n);
      }
    } else {
      assert n == map[];
    }
  }

  /** A part of a non-negative table sums to at most the whole. */
  lemma {:induction false} SumOfPart<K>(m: map<K, real>, n: map<K, real>)
    requires forall k :: k in n ==> k in m && n[k] == m[k]
    requires forall k :: k in m ==> m[k] >= 0.0
    ensures SumOf(n) <= SumOf(m)
    decreases |m|
  {
    if m != map[] {
      var k :| k in m;
      SumRemove(m, k);
      if k in n {
        SumRemove(n, k);
        SumOfPart(m - {k}, n - {k});
      } else {
        SumOfPart(m - {k}, n);
      }
    } else {
      assert n == map[];
    }
  }

  /** Renaming keys one-to-one keeps the sum. */
  lemma {:induction false} SumRenamed<K, L>(m: map<K, real>, n: map<L, real>, to: map<K, L>)
    requires to.Keys == m.Keys && to.Values == n.Keys
    requires forall k, l :: k in to && l in to && to[k] == to[l] ==> k == l
    requires forall k :: k in m ==> n[to[k]] == m[k]
    ensures SumOf(m) == SumOf(n)
    decreases |m|
  {
    if m == map[] {
      assert to == map[];
      assert n.Keys == {};
      assert n == map[];
    } else {
      var k :| k in m;
      SumRemove(m, k);
      assert to[k] in to.Values;
      SumRemove(n, to[k]);
      var rest := to - {k};
      assert rest.Values == (n - {to[k]}).Keys by {
        forall l | l in rest.Values ensures l in n && l != to[k] {
          var j :| j in rest && rest[j] == l;
          assert to[j] == l && l in to.Values;
        }
        forall l | l in n && l != to[k] ensures l in rest.Values {
          assert l in to.Values;
          var j :| j in to && to[j] == l;
          assert j in rest && rest[j] == l;
        }
      }
      SumRenamed(m - {k}, n - {to[k]}, rest);
    }
  }

  lemma {:induction false} SubsetSize<K>(a: set<K>, b: set<K>)
    requires a <= b
    ensures |a| <= |b|
    decreases |a|
  {
    if a != {} {
      var x :| x in a;
      SubsetSize(a - {x}, b - {x});
    }
  }
}
