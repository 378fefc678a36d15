/** Sums over finite maps, for the totals of a ledger. */
module Sums {

  ghost function Sum(m: map<nat, nat>): nat {
    if m == map[] then 0
    else
      var k :| k in m;
      m[k] + Sum(m - {k})
  }

  lemma {:induction false} SumRemove(m: map<nat, nat>, k: nat)
    requires k in m
    ensures Sum(m) == m[k] + Sum(m - {k})
    decreases m.Keys
  {
    var x :| x in m && Sum(m) == m[x] + Sum(m - {x});
    if x != k {
      SumRemove(m - {x}, k);
      SumRemove(m - {k}, x);
      assert m - {x} - {k} == m - {k} - {x};
    }
  }

  lemma SumPut(m: map<nat, nat>, k: nat, v: nat)
    ensures Sum(m[k := v]) == v + Sum(m - {k})
  {
    SumRemove(m[k := v], k);
    assert m[k := v] - {k} == m - {k};
  }

  lemma SumAdd(m: map<nat, nat>, k: nat, v: nat)
    requires k !in m
    ensures Sum(m[k := v]) == Sum(m) + v
  {
    SumPut(m, k, v);
    assert m - {k} == m;
  }

  lemma UnionRemove(a: map<nat, nat>, b: map<nat, nat>, k: nat)
    requires a.Keys !! b.Keys && k in b
    ensures k in a + b && (a + b)[k] == b[k]
    ensures (a + b) - {k} == a + (b - {k})
    ensures a.Keys !! (b - {k}).Keys
  {
  }

  lemma {:induction false} SumUnion(a: map<nat, nat>, b: map<nat, nat>)
    requires a.Keys !! b.Keys
    ensures Sum(a + b) == Sum(a) + Sum(b)
    decreases b.Keys
  {
    if b == map[] {
      assert a + b == a;
    } else {
      var k :| k in b;
      UnionRemove(a, b, k);
      SumUnion(a, b - {k});
      SumRemove(b, k);
      SumRemove(a + b, k);
    }
  }

  lemma {:induction false} SumZero(m: map<nat, nat>)
    requires forall k :: k in m ==> m[k] == 0
    ensures Sum(m) == 0
    decreases m.Keys
  {
    if m != map[] {
      var k :| k in m;
      SumRemove(m, k);
      SumZero(m - {k});
    }
  }
}
