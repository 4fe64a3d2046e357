/**
 Sums over the entries of a finite map. Every table and store of the indexer is a map, and
 every conservation law below is a statement about one of these sums.
 */
module Sums {

  ghost function Total<K, V>(m: map<K, V>, w: (K, V) -> int): int
    decreases |m|
  {
    if m == map[] then 0 else
      var k :| k in m;
      w(k, m[k]) + Total(m - {k}, w)
  }

  /** The sum may be taken apart at any entry, not only at the one the definition picks. */
  lemma {:induction false} TotalRemove<K, V>(m: map<K, V>, w: (K, V) -> int, k: K)
    requires k in m
    ensures Total(m, w) == w(k, m[k]) + Total(m - {k}, w)
    decreases |m|
  {
    var j :| j in m && Total(m, w) == w(j, m[j]) + Total(m - {j}, w);
    if j != k {
      TotalRemove(m - {j}, w, k);
      TotalRemove(m - {k}, w, j);
      assert m - {j} - {k} == m - {k} - {j};
    }
  }

  lemma TotalUpdate<K, V>(m: map<K, V>, w: (K, V) -> int, k: K, v: V)
    ensures Total(m[k := v], w) == Total(m, w) - (if k in m then w(k, m[k]) else 0) + w(k, v)
  {
    TotalRemove(m[k := v], w, k);
    assert m[k := v] - {k} == m - {k};
    if k in m {
      TotalRemove(m, w, k);
    } else {
      assert m - {k} == m;
    }
  }

  /** Sums are linear in the weight. */
  lemma {:induction false} TotalLinear<K, V>(m: map<K, V>, w: (K, V) -> int, w1: (K, V) -> int, w2: (K, V) -> int)
    requires forall k :: k in m ==> w(k, m[k]) == w1(k, m[k]) + w2(k, m[k])
    ensures Total(m, w) == Total(m, w1) + Total(m, w2)
    decreases |m|
  {
    if m != map[] {
      var k :| k in m;
      TotalRemove(m, w, k);
      TotalRemove(m, w1, k);
      TotalRemove(m, w2, k);
      TotalLinear(m - {k}, w, w1, w2);
    }
  }

  lemma {:induction false} TotalCongruent<K, V>(m: map<K, V>, w1: (K, V) -> int, w2: (K, V) -> int)
    requires forall k :: k in m ==> w1(k, m[k]) == w2(k, m[k])
    ensures Total(m, w1) == Total(m, w2)
    decreases |m|
  {
    if m != map[] {
      var k :| k in m;
      TotalRemove(m, w1, k);
      TotalRemove(m, w2, k);
      TotalCongruent(m - {k}, w1, w2);
    }
  }

  lemma {:induction false} TotalZero<K, V>(m: map<K, V>, w: (K, V) -> int)
    requires forall k :: k in m ==> w(k, m[k]) == 0
    ensures Total(m, w) == 0
    decreases |m|
  {
    if m != map[] {
      var k :| k in m;
      TotalRemove(m, w, k);
      TotalZero(m - {k}, w);
    }
  }

  lemma {:induction false} TotalNonNegative<K, V>(m: map<K, V>, w: (K, V) -> int)
    requires forall k :: k in m ==> 0 <= w(k, m[k])
    ensures 0 <= Total(m, w)
    decreases |m|
  {
    if m != map[] {
      var k :| k in m;
      TotalRemove(m, w, k);
      TotalNonNegative(m - {k}, w);
    }
  }

  /** A non-negative sum bounds each of its terms. */
  lemma TotalAtLeast<K, V>(m: map<K, V>, w: (K, V) -> int, k: K)
    requires forall j :: j in m ==> 0 <= w(j, m[j])
    requires k in m
    ensures w(k, m[k]) <= Total(m, w)
  {
    TotalRemove(m, w, k);
    TotalNonNegative(m - {k}, w);
  }

  ghost function Restrict<K, V>(m: map<K, V>, ks: set<K>): map<K, V> {
    map k | k in m && k in ks :: m[k]
  }

  ghost function Inside<K, V>(ks: set<K>, w: (K, V) -> int): (K, V) -> int {
    (k, v) => if k in ks then w(k, v) else 0
  }

  ghost function Outside<K, V>(ks: set<K>, w: (K, V) -> int): (K, V) -> int {
    (k, v) => if k in ks then 0 else w(k, v)
  }

  lemma MinusTwice<K, V>(m: map<K, V>, k: K, ks: set<K>)
    ensures m - {k} - ks == if k in ks then m - ks else m - ks - {k}
  {
  }

  lemma {:induction false} TotalMinus<K, V>(m: map<K, V>, ks: set<K>, w: (K, V) -> int)
    ensures Total(m - ks, w) == Total(m, Outside(ks, w))
    decreases |m|
  {
    if m == map[] {
      assert m - ks == map[];
    } else {
      var k :| k in m;
      TotalRemove(m, Outside(ks, w), k);
      TotalMinus(m - {k}, ks, w);
      MinusTwice(m, k, ks);
      if k !in ks {
        TotalRemove(m - ks, w, k);
      }
    }
  }

  lemma {:induction false} TotalRestrict<K, V>(m: map<K, V>, ks: set<K>, w: (K, V) -> int)
    ensures Total(Restrict(m, ks), w) == Total(m, Inside(ks, w))
    decreases |m|
  {
    if m == map[] {
      assert Restrict(m, ks) == map[];
    } else {
      var k :| k in m;
      TotalRemove(m, Inside(ks, w), k);
      TotalRestrict(m - {k}, ks, w);
      if k in ks {
        TotalRemove(Restrict(m, ks), w, k);
        assert Restrict(m, ks) - {k} == Restrict(m - {k}, ks);
      } else {
        assert Restrict(m - {k}, ks) == Restrict(m, ks);
      }
    }
  }

  /** Cutting a map along a key set cuts its sum. */
  lemma TotalSplit<K, V>(m: map<K, V>, ks: set<K>, w: (K, V) -> int)
    ensures Total(m, w) == Total(m - ks, w) + Total(Restrict(m, ks), w)
  {
    TotalMinus(m, ks, w);
    TotalRestrict(m, ks, w);
    TotalLinear(m, w, Outside(ks, w), Inside(ks, w));
  }

  ghost function Fibre<K, V, G>(owner: (K, V) -> G, w: (K, V) -> int, g: G): (K, V) -> int {
    (k, v) => if owner(k, v) == g then w(k, v) else 0
  }

  ghost function Fibres<K, V, G>(owner: (K, V) -> G, w: (K, V) -> int, gs: set<G>): (K, V) -> int {
    (k, v) => if owner(k, v) in gs then w(k, v) else 0
  }

  /**
   If every row of a second map holds the sum of its own group, the rows add up to the sum over all
   groups that have a row.
   */
  lemma {:induction false} TotalRegroup<K, V, G>(
      m: map<K, V>, owner: (K, V) -> G, w: (K, V) -> int, rows: map<G, nat>, value: (G, nat) -> int)
    requires forall g :: g in rows ==> value(g, rows[g]) == Total(m, Fibre(owner, w, g))
    ensures Total(rows, value) == Total(m, Fibres(owner, w, rows.Keys))
    decreases |rows|
  {
    if rows == map[] {
      TotalZero(m, Fibres(owner, w, rows.Keys));
    } else {
      var g :| g in rows;
      var rest := rows - {g};
      TotalRemove(rows, value, g);
      TotalRegroup(m, owner, w, rest, value);
      TotalLinear(m, Fibres(owner, w, rows.Keys), Fibre(owner, w, g), Fibres(owner, w, rest.Keys));
    }
  }
}
