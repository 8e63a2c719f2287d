/** Sums over the values of a map. */
module MapSum {

  ghost function Sum(m: map<string, nat>): nat {
    if m == map[] then 0
    else
      var k: string :| k in m;
      Smaller(m, k);
      m[k] + Sum(m - {k})
  }

  lemma Smaller(m: map<string, nat>, k: string)
    requires k in m
    ensures |m - {k}| < |m|
  {
    assert (m - {k}).Keys == m.Keys - {k};
    assert |m - {k}| == |(m - {k}).Keys| && |m| == |m.Keys|;
  }

  /** Any key can be taken out first. */
  lemma {:induction false} SumWithout(m: map<string, nat>, k: string)
    requires k in m
    ensures Sum(m) == m[k] + Sum(m - {k})
    decreases |m|
  {
    assert m != map[];
    var j: string :| j in m && Sum(m) == m[j] + Sum(m - {j});
    if j != k {
      Smaller(m, j);
      Smaller(m, k);
      SumWithout(m - {j}, k);
      SumWithout(m - {k}, j);
      assert m - {j} - {k} == m - {k} - {j};
    }
  }

  lemma SumWith(m: map<string, nat>, k: string, v: nat)
    ensures Sum(m[k := v]) == v + Sum(m - {k})
    ensures k !in m ==> m - {k} == m
    ensures k in m ==> Sum(m) == m[k] + Sum(m - {k})
  {
    SumWithout(m[k := v], k);
    assert m[k := v] - {k} == m - {k};
    if k in m {
      SumWithout(m, k);
    }
  }

  /** Values that are no larger have no larger sum, and fewer keys neither. */
  lemma {:induction false} SumOfPart(a: map<string, nat>, b: map<string, nat>)
    requires forall k :: k in a ==> k in b && a[k] <= b[k]
    ensures Sum(a) <= Sum(b)
    decreases |a|
  {
    if a != map[] {
      var k: string :| k in a.Keys;
      SumWithout(a, k);
      SumWithout(b, k);
      Smaller(a, k);
      SumOfPart(a - {k}, b - {k});
    }
  }

  /** The sum, whatever order the entries come in. */
  method SumUp(m: map<string, nat>) returns (n: nat)
    ensures n == Sum(m)
  {
    n := 0;
    var left := m;
    while left != map[]
      invariant n + Sum(left) == Sum(m)
      decreases |left|
    {
      var k :| k in left.Keys;
      SumWithout(left, k);
      Smaller(left, k);
      n := n + left[k];
      left := left - {k};
    }
  }
}
