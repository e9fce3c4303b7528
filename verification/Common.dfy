/** Small datatypes and finite sums shared by the other modules. */
module Common {

  datatype Option<+T> = None | Some(value: T)

  lemma ConcatAssociative<T>(a: seq<T>, b: seq<T>, c: seq<T>)
    ensures a + b + c == a + (b + c)
  {
  }

  /** The sum of the values of a finite map. */
  ghost function Total<K>(m: map<K, int>): int {
    if m == map[] then 0
    else var k :| k in m; m[k] + Total(m - {k})
  }

  lemma {:induction false} TotalExtract<K>(m: map<K, int>, k: K)
    requires k in m
    ensures Total(m) == m[k] + Total(m - {k})
    decreases |m|
  {
    var first :| first in m && Total(m) == m[first] + Total(m - {first});
    if first != k {
      assert |m - {first}| < |m| by { assert (m - {first}).Keys == m.Keys - {first}; }
      assert |m - {k}| < |m| by { assert (m - {k}).Keys == m.Keys - {k}; }
      TotalExtract(m - {first}, k);
      TotalExtract(m - {k}, first);
      assert m - {first} - {k} == m - {k} - {first};
    }
  }

  /** Writing one entry changes the sum by the difference at that entry. */
  lemma TotalWrite<K>(m: map<K, int>, k: K, v: int)
    ensures Total(m[k := v]) == Total(m) + v - (if k in m then m[k] else 0)
  {
    TotalExtract(m[k := v], k);
    assert m[k := v] - {k} == m - {k};
    if k in m {
      TotalExtract(m, k);
    } else {
      assert m - {k} == m;
    }
  }

  /** A map that is zero everywhere sums to zero. */
  lemma {:induction false} TotalZero<K>(m: map<K, int>)
    requires forall k | k in m :: m[k] == 0
    ensures Total(m) == 0
    decreases |m|
  {
    if m != map[] {
      var k :| k in m && Total(m) == m[k] + Total(m - {k});
      assert |m - {k}| < |m| by { assert (m - {k}).Keys == m.Keys - {k}; }
      TotalZero(m - {k});
    }
  }
}
