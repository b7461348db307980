/** Sums of the values of a finite map, and how they react to single updates. */
module MapSums {

  ghost function SomeElement<K>(ks: set<K>): (k: K)
    requires ks != {}
    ensures k in ks
  {
    var k :| k in ks; k
  }

  /** The sum of m over some of its keys. */
  ghost function SumOver<K>(m: map<K, int>, ks: set<K>): int
    requires ks <= m.Keys
  {
    if ks == {} then 0 else m[SomeElement(ks)] + SumOver(m, ks - {SomeElement(ks)})
  }

  ghost function Sum<K>(m: map<K, int>): int { SumOver(m, m.Keys) }

  lemma {:induction false} SumOverSplit<K>(m: map<K, int>, ks: set<K>, k: K)
    requires ks <= m.Keys && k in ks
    ensures SumOver(m, ks) == m[k] + SumOver(m, ks - {k})
  {
    var p := SomeElement(ks);
    if p != k {
      SumOverSplit(m, ks - {p}, k);
      SumOverSplit(m, ks - {k}, p);
      assert ks - {p} - {k} == ks - {k} - {p};
    }
  }

  /** Entries outside ks do not matter. */
  lemma {:induction false} SumOverAgrees<K>(a: map<K, int>, b: map<K, int>, ks: set<K>)
    requires ks <= a.Keys && ks <= b.Keys
    requires forall k :: k in ks ==> a[k] == b[k]
    ensures SumOver(a, ks) == SumOver(b, ks)
  {
    if ks != {} { SumOverAgrees(a, b, ks - {SomeElement(ks)}); }
  }

  lemma SumRemove<K>(m: map<K, int>, k: K)
    ensures Sum(m - {k}) == Sum(m) - (if k in m then m[k] else 0)
  {
    assert (m - {k}).Keys == m.Keys - {k};
    SumOverAgrees(m, m - {k}, m.Keys - {k});
    if k in m {
      SumOverSplit(m, m.Keys, k);
    } else {
      assert m.Keys - {k} == m.Keys;
    }
  }

  /** Writing one entry moves the sum by the difference of that entry. */
  lemma SumUpdate<K>(m: map<K, int>, k: K, v: int)
    ensures Sum(m[k := v]) == Sum(m) - (if k in m then m[k] else 0) + v
  {
    SumRemove(m, k);
    SumRemove(m[k := v], k);
    assert m[k := v] - {k} == m - {k};
  }

  lemma SumEmpty<K>(m: map<K, int>)
    requires m.Keys == {}
    ensures Sum(m) == 0
  {
  }

  /** A map that is dominated entry by entry has the smaller sum. */
  lemma {:induction false} SumDominated<K>(a: map<K, int>, b: map<K, int>)
    requires forall k :: k in a ==> k in b && a[k] <= b[k]
    requires forall k :: k in b ==> 0 <= b[k]
    ensures Sum(a) <= Sum(b)
    decreases |b|
  {
    if b.Keys == {} {
      assert a.Keys == {};
    } else {
      var k := SomeElement(b.Keys);
      SumRemove(b, k);
      SumRemove(a, k);
      SumDominated(a - {k}, b - {k});
    }
  }

  lemma SumNonNegative<K>(m: map<K, int>)
    requires forall k :: k in m ==> 0 <= m[k]
    ensures 0 <= Sum(m)
  {
    SumEmpty<K>(map[]);
    SumDominated(map[], m);
  }

  /** A map extended by zero entries has the same sum. */
  lemma {:induction false} SumIgnoresZeros<K>(a: map<K, int>, b: map<K, int>)
    requires forall k :: k in a ==> k in b && a[k] == b[k]
    requires forall k :: k in b && k !in a ==> b[k] == 0
    ensures Sum(a) == Sum(b)
    decreases |b|
  {
    if b.Keys == {} {
      assert a.Keys == {};
    } else {
      var k := SomeElement(b.Keys);
      SumRemove(b, k);
      SumRemove(a, k);
      SumIgnoresZeros(a - {k}, b - {k});
    }
  }

  lemma {:induction false} SumOfDifferences<K>(a: map<K, int>, b: map<K, int>, d: map<K, int>)
    requires a.Keys == b.Keys == d.Keys
    requires forall k :: k in a ==> d[k] == a[k] - b[k]
    ensures Sum(d) == Sum(a) - Sum(b)
    decreases |d|
  {
    if d.Keys != {} {
      var k := SomeElement(d.Keys);
      SumRemove(d, k);
      SumRemove(a, k);
      SumRemove(b, k);
      SumOfDifferences(a - {k}, b - {k}, d - {k});
    }
  }
}
