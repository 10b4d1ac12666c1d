/** Sums over the rows of a table. */
module MapSum {

  ghost function Sum<K, V>(rows: map<K, V>, f: V -> int): int
    decreases |rows|
  {
    if rows == map[] then 0
    else
      var k :| k in rows;
      f(rows[k]) + Sum(rows - {k}, f)
  }

  lemma {:induction false} SumWithout<K, V>(rows: map<K, V>, f: V -> int, k: K)
    requires k in rows
    ensures Sum(rows, f) == f(rows[k]) + Sum(rows - {k}, f)
    decreases |rows|
  {
    var j :| j in rows && Sum(rows, f) == f(rows[j]) + Sum(rows - {j}, f);
    if j != k {
      SumWithout(rows - {j}, f, k);
      SumWithout(rows - {k}, f, j);
      assert rows - {j} - {k} == rows - {k} - {j};
    }
  }

  /** Writing one row changes a sum by that row alone. */
  lemma SumUpdate<K, V>(rows: map<K, V>, f: V -> int, k: K, v: V)
    ensures Sum(rows[k := v], f) == Sum(rows, f) - (if k in rows then f(rows[k]) else 0) + f(v)
  {
    var updated := rows[k := v];
    SumWithout(updated, f, k);
    if k in rows {
      SumWithout(rows, f, k);
      assert updated - {k} == rows - {k};
    } else {
      assert updated - {k} == rows;
    }
  }

  /** Rewriting rows in place keeps a sum that every row's share survives. */
  lemma {:induction false} SumSame<K, V>(a: map<K, V>, b: map<K, V>, f: V -> int, g: V -> int)
    requires a.Keys == b.Keys && forall k :: k in a ==> f(a[k]) == g(b[k])
    ensures Sum(a, f) == Sum(b, g)
    decreases |a|
  {
    if a != map[] {
      var k :| k in a;
      SumWithout(a, f, k);
      SumWithout(b, g, k);
      SumSame(a - {k}, b - {k}, f, g);
    } else {
      assert b == map[];
    }
  }

  /** If every row's share of one sum is split between two others, so is the sum. */
  lemma {:induction false} SumSplit<K, V>(a: map<K, V>, b: map<K, V>, f: V -> int, g: V -> int, h: V -> int)
    requires a.Keys == b.Keys && forall k :: k in a ==> f(a[k]) == g(b[k]) + h(b[k])
    ensures Sum(a, f) == Sum(b, g) + Sum(b, h)
    decreases |a|
  {
    if a != map[] {
      var k :| k in a;
      SumWithout(a, f, k);
      SumWithout(b, g, k);
      SumWithout(b, h, k);
      SumSplit(a - {k}, b - {k}, f, g, h);
    } else {
      assert b == map[];
    }
  }
}
