/** Counting a set that one element enters or leaves. */
module Sets {

  function Bit(b: bool): int { if b then 1 else 0 }

  lemma CardMove<T>(a: set<T>, b: set<T>, p: T)
    requires forall x :: x != p ==> (x in a <==> x in b)
    ensures |b| == |a| - Bit(p in a) + Bit(p in b)
  {
    assert a - {p} == b - {p};
    CardWithout(a, p);
    CardWithout(b, p);
  }

  lemma CardWithout<T>(a: set<T>, p: T)
    ensures |a| == |a - {p}| + Bit(p in a)
  {
    if p in a {
      assert a == (a - {p}) + {p};
    } else {
      assert a == a - {p};
    }
  }

  lemma SubsetCard<T>(a: set<T>, b: set<T>)
    requires a <= b
    ensures |a| <= |b|
  {
    assert b == a + (b - a);
  }
}
