/** Sums of a natural-number weight over a finite set. */
module Sums {
  ghost function Sum<K(!new)>(ks: set<K>, f: K -> nat): nat {
    if ks == {} then 0 else var k :| k in ks; f(k) + Sum(ks - {k}, f)
  }

  /** Any element may be taken out first. */
  lemma {:induction false} SumRemove<K(!new)>(ks: set<K>, k: K, f: K -> nat)
    requires k in ks
    ensures Sum(ks, f) == f(k) + Sum(ks - {k}, f)
    decreases ks
  {
    var j :| j in ks && Sum(ks, f) == f(j) + Sum(ks - {j}, f);
    if j != k {
      SumRemove(ks - {j}, k, f);
      SumRemove(ks - {k}, j, f);
      assert ks - {j} - {k} == ks - {k} - {j};
    }
  }

  lemma SumAdd<K(!new)>(ks: set<K>, k: K, f: K -> nat)
    requires k !in ks
    ensures Sum(ks + {k}, f) == Sum(ks, f) + f(k)
  {
    SumRemove(ks + {k}, k, f);
    assert ks + {k} - {k} == ks;
  }

  lemma {:induction false} SumSame<K(!new)>(ks: set<K>, f: K -> nat, g: K -> nat)
    requires forall k :: k in ks ==> f(k) == g(k)
    ensures Sum(ks, f) == Sum(ks, g)
    decreases ks
  {
    if ks != {} {
      var k :| k in ks;
      SumRemove(ks, k, f);
      SumRemove(ks, k, g);
      SumSame(ks - {k}, f, g);
    }
  }

  lemma {:induction false} SumSubset<K(!new)>(js: set<K>, ks: set<K>, f: K -> nat)
    requires js <= ks
    ensures Sum(js, f) <= Sum(ks, f)
    decreases js
  {
    if js != {} {
      var k :| k in js;
      SumRemove(js, k, f);
      SumRemove(ks, k, f);
      SumSubset(js - {k}, ks - {k}, f);
    }
  }

  /** Changing the weight of one element changes the sum by the difference. */
  lemma SumUpdate<K(!new)>(ks: set<K>, k: K, f: K -> nat, g: K -> nat)
    requires k in ks && forall j :: j in ks && j != k ==> f(j) == g(j)
    ensures Sum(ks, g) + f(k) == Sum(ks, f) + g(k)
  {
    SumRemove(ks, k, f);
    SumRemove(ks, k, g);
    SumSame(ks - {k}, f, g);
  }

  lemma {:induction false} SumUnion<K(!new)>(a: set<K>, b: set<K>, f: K -> nat)
    ensures Sum(a + b, f) <= Sum(a, f) + Sum(b, f)
    decreases b
  {
    if b == {} {
      assert a + b == a;
    } else {
      var k :| k in b;
      SumRemove(b, k, f);
      SumUnion(a, b - {k}, f);
      if k in a {
        assert a + b == a + (b - {k});
      } else {
        SumAdd(a + (b - {k}), k, f);
        assert a + b == a + (b - {k}) + {k};
      }
    }
  }

  /** What is covered by a family of sets weighs at most the total weight of the family. */
  lemma {:induction false} SumCover<K(!new), I(!new)>(ks: set<K>, f: K -> nat, index: set<I>,
                                      part: I -> set<K>, w: I -> nat)
    requires forall k :: k in ks ==> exists i :: i in index && k in part(i)
    requires forall i :: i in index ==> Sum(part(i), f) <= w(i)
    ensures Sum(ks, f) <= Sum(index, w)
    decreases index
  {
    if index == {} {
      assert ks == {};
    } else {
      var i :| i in index;
      var here := ks * part(i);
      SumCover(ks - here, f, index - {i}, part, w);
      SumSubset(here, part(i), f);
      SumRemove(index, i, w);
      assert ks == here + (ks - here);
      SumUnion(here, ks - here, f);
    }
  }
}
