/** Sums over finite sets, for accounting. */
module Sums {

  /** The sum of f over s. */
  ghost function Sum<K>(s: set<K>, f: K -> int): int
    decreases |s|
  {
    if s == {} then 0
    else
      var k :| k in s;
      f(k) + Sum(s - {k}, f)
  }

  /** The order in which elements are taken does not matter. */
  lemma {:induction false} SumTake<K>(s: set<K>, f: K -> int, k: K)
    requires k in s
    ensures Sum(s, f) == f(k) + Sum(s - {k}, f)
    decreases |s|
  {
    var j :| j in s && Sum(s, f) == f(j) + Sum(s - {j}, f);
    if j != k {
      SumTake(s - {j}, f, k);
      assert s - {j} - {k} == s - {k} - {j};
      SumTake(s - {k}, f, j);
    }
  }

  lemma SumAdd<K>(s: set<K>, f: K -> int, k: K)
    requires k !in s
    ensures Sum(s + {k}, f) == Sum(s, f) + f(k)
  {
    SumTake(s + {k}, f, k);
    assert s + {k} - {k} == s;
  }

  lemma {:induction false} SumSame<K>(s: set<K>, f: K -> int, g: K -> int)
    requires forall k :: k in s ==> f(k) == g(k)
    ensures Sum(s, f) == Sum(s, g)
    decreases |s|
  {
    if s != {} {
      var k :| k in s;
      SumTake(s, f, k);
      SumTake(s, g, k);
      SumSame(s - {k}, f, g);
    }
  }

  lemma {:induction false} SumUnion<K>(a: set<K>, b: set<K>, f: K -> int)
    requires a !! b
    ensures Sum(a + b, f) == Sum(a, f) + Sum(b, f)
    decreases |b|
  {
    if b == {} {
      assert a + b == a;
    } else {
      var k :| k in b;
      SumTake(b, f, k);
      SumTake(a + b, f, k);
      assert a + b - {k} == a + (b - {k});
      SumUnion(a, b - {k}, f);
    }
  }
}
