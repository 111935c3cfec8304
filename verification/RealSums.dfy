/** Sums of real-valued tables, independent of the order of their keys. */
module RealSums {
  import opened Ordering

  type Table = map<nat, real>

  ghost function Total(m: Table): real
    decreases |m|
  {
    if m == map[] then 0.0 else
      assert m.Keys != {};
      var k := Least(m.Keys);
      Smaller(m, k);
      m[k] + Total(m - {k})
  }

  lemma Smaller(m: Table, k: nat)
    requires k in m
    ensures |m - {k}| == |m| - 1
  {
    assert (m - {k}).Keys == m.Keys - {k};
  }

  /** Any key may be split off. */
  lemma {:induction false} TotalTakes(m: Table, k: nat)
    requires k in m
    ensures Total(m) == m[k] + Total(m - {k})
    decreases |m|
  {
    var x := Least(m.Keys);
    if x != k {
      Smaller(m, x);
      Smaller(m, k);
      TotalTakes(m - {x}, k);
      TotalTakes(m - {k}, x);
      assert m - {x} - {k} == m - {k} - {x};
    }
  }

  lemma TotalAdds(m: Table, k: nat, v: real)
    requires k !in m
    ensures Total(m[k := v]) == Total(m) + v
  {
    TotalTakes(m[k := v], k);
    assert m[k := v] - {k} == m;
  }

  lemma {:induction false} TotalBelow(a: Table, b: Table)
    requires a.Keys <= b.Keys && (forall k :: k in a ==> a[k] <= b[k]) && (forall k :: k in b ==> b[k] >= 0.0)
    ensures Total(a) <= Total(b)
    decreases |b|
  {
    if b == map[] {
      assert a == map[];
    } else {
      assert b.Keys != {};
      var k := Least(b.Keys);
      Smaller(b, k);
      TotalTakes(b, k);
      if k in a {
        TotalTakes(a, k);
        TotalBelow(a - {k}, b - {k});
      } else {
        TotalBelow(a, b - {k});
      }
    }
  }

  lemma {:induction false} TotalNonNegative(m: Table)
    requires forall k :: k in m ==> m[k] >= 0.0
    ensures Total(m) >= 0.0
    decreases |m|
  {
    if m != map[] {
      assert m.Keys != {};
      var k := Least(m.Keys);
      Smaller(m, k);
      TotalNonNegative(m - {k});
    }
  }

  function Product(a: real, c: real): real {
    a * c
  }

  ghost function Scaled(m: Table, c: real): Table {
    map k | k in m :: Product(m[k], c)
  }

  lemma Distribute(a: real, b: real, c: real)
    ensures Product(a + b, c) == Product(a, c) + Product(b, c)
  {
  }

  lemma ScaledWithout(m: Table, c: real, k: nat)
    requires k in m
    ensures k in Scaled(m, c) && Scaled(m, c) - {k} == Scaled(m - {k}, c)
  {
    hide Product;
  }

  lemma {:induction false} TotalScales(m: Table, c: real)
    ensures Total(Scaled(m, c)) == Product(Total(m), c)
    decreases |m|
  {
    if m == map[] {
      assert Scaled(m, c) == map[];
    } else {
      assert m.Keys != {};
      var k := Least(m.Keys);
      Smaller(m, k);
      TotalScales(m - {k}, c);
      ScaledWithout(m, c, k);
      TotalTakes(Scaled(m, c), k);
      Distribute(m[k], Total(m - {k}), c);
    }
  }
}
