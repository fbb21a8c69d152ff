/** Finite sums of reals over sets of keys. */
module RealSums {

  ghost function Sum<K(!new)>(s: set<K>, f: K -> real): real {
    if s == {} then 0.0
    else
      var k :| k in s;
      f(k) + Sum(s - {k}, f)
  }

  lemma {:induction false} SumWithout<K(!new)>(s: set<K>, f: K -> real, k: K)
    requires k in s
    ensures Sum(s, f) == f(k) + Sum(s - {k}, f)
    decreases |s|
  {
    var j :| j in s && Sum(s, f) == f(j) + Sum(s - {j}, f);
    if j != k {
      SumWithout(s - {j}, f, k);
      SumWithout(s - {k}, f, j);
      assert s - {j} - {k} == s - {k} - {j};
    }
  }

  lemma SumWith<K(!new)>(s: set<K>, f: K -> real, k: K)
    requires k !in s
    ensures Sum(s + {k}, f) == f(k) + Sum(s, f)
  {
    SumWithout(s + {k}, f, k);
    assert s + {k} - {k} == s;
  }

  lemma {:induction false} SumIsMonotone<K(!new)>(s: set<K>, f: K -> real, g: K -> real)
    requires forall k | k in s :: f(k) <= g(k)
    ensures Sum(s, f) <= Sum(s, g)
    decreases |s|
  {
    if s != {} {
      var k :| k in s;
      SumWithout(s, f, k);
      SumWithout(s, g, k);
      SumIsMonotone(s - {k}, f, g);
    }
  }

  lemma SumsAgree<K(!new)>(s: set<K>, f: K -> real, g: K -> real)
    requires forall k | k in s :: f(k) == g(k)
    ensures Sum(s, f) == Sum(s, g)
  {
    SumIsMonotone(s, f, g);
    SumIsMonotone(s, g, f);
  }

  lemma {:induction false} SumAdds<K(!new)>(s: set<K>, f: K -> real, g: K -> real, h: K -> real)
    requires forall k | k in s :: f(k) == g(k) + h(k)
    ensures Sum(s, f) == Sum(s, g) + Sum(s, h)
    decreases |s|
  {
    if s != {} {
      var k :| k in s;
      SumWithout(s, f, k);
      SumWithout(s, g, k);
      SumWithout(s, h, k);
      SumAdds(s - {k}, f, g, h);
    }
  }

  function Plus(x: real, y: real): real { x + y }

  ghost predicate Additive(m: real -> real) {
    m(0.0) == 0.0 && forall x, y {:trigger Plus(x, y)} :: m(Plus(x, y)) == m(x) + m(y)
  }

  lemma {:induction false} SumMaps<K(!new)>(s: set<K>, f: K -> real, m: real -> real, g: K -> real)
    requires Additive(m) && forall k | k in s :: f(k) == m(g(k))
    ensures Sum(s, f) == m(Sum(s, g))
    decreases |s|
  {
    if s != {} {
      var k :| k in s;
      SumWithout(s, f, k);
      SumWithout(s, g, k);
      SumMaps(s - {k}, f, m, g);
      assert Sum(s, g) == Plus(g(k), Sum(s - {k}, g));
    }
  }

  lemma SumScales<K(!new)>(s: set<K>, f: K -> real, a: real, g: K -> real)
    requires forall k | k in s :: f(k) == a * g(k)
    ensures Sum(s, f) == a * Sum(s, g)
  {
    SumMaps(s, f, (x: real) => a * x, g);
  }

  lemma SumDivides<K(!new)>(s: set<K>, f: K -> real, g: K -> real, t: real)
    requires t > 0.0 && forall k | k in s :: f(k) == g(k) / t
    ensures Sum(s, f) == Sum(s, g) / t
  {
    SumMaps(s, f, (x: real) => x / t, g);
  }

  lemma {:induction false} SumOfZeros<K(!new)>(s: set<K>, f: K -> real)
    requires forall k | k in s :: f(k) == 0.0
    ensures Sum(s, f) == 0.0
    decreases |s|
  {
    if s != {} {
      var k :| k in s;
      SumWithout(s, f, k);
      SumOfZeros(s - {k}, f);
    }
  }

  /** Keys whose term is zero do not matter. */
  lemma {:induction false} SumOverMore<K(!new)>(s: set<K>, t: set<K>, f: K -> real)
    requires s <= t && forall k | k in t && k !in s :: f(k) == 0.0
    ensures Sum(s, f) == Sum(t, f)
    decreases |t|
  {
    if k :| k in t && k !in s {
      SumOverMore(s, t - {k}, f);
      SumWithout(t, f, k);
    } else {
      assert s == t;
    }
  }

  lemma {:induction false} SumIsNonNegative<K(!new)>(s: set<K>, f: K -> real)
    requires forall k | k in s :: f(k) >= 0.0
    ensures Sum(s, f) >= 0.0
    decreases |s|
  {
    if s != {} {
      var k :| k in s;
      SumWithout(s, f, k);
      SumIsNonNegative(s - {k}, f);
    }
  }

  lemma SumIsPositive<K(!new)>(s: set<K>, f: K -> real, k: K)
    requires k in s && f(k) > 0.0 && forall j | j in s :: f(j) >= 0.0
    ensures Sum(s, f) > 0.0
  {
    SumWithout(s, f, k);
    SumIsNonNegative(s - {k}, f);
  }

  function Inner<A(!new), B(!new)>(f: (A, B) -> real, a: A): B -> real {
    (b: B) => f(a, b)
  }

  ghost function Across<A(!new), B(!new)>(f: (A, B) -> real, t: set<B>): A -> real {
    (a: A) => Sum(t, Inner(f, a))
  }

  ghost function Down<A(!new), B(!new)>(f: (A, B) -> real, s: set<A>): B -> real {
    (b: B) => Sum(s, Outer(f, b))
  }

  function Outer<A(!new), B(!new)>(f: (A, B) -> real, b: B): A -> real {
    (a: A) => f(a, b)
  }

  /** A table adds up to the same by rows and by columns. */
  lemma {:induction false} SumsExchange<A(!new), B(!new)>(s: set<A>, t: set<B>, f: (A, B) -> real)
    ensures Sum(s, Across(f, t)) == Sum(t, Down(f, s))
    decreases |s|
  {
    if s == {} {
      SumOfZeros(t, Down(f, s));
    } else {
      var a :| a in s;
      SumWithout(s, Across(f, t), a);
      assert Across(f, t)(a) == Sum(t, Inner(f, a));
      SumsExchange(s - {a}, t, f);
      forall b | b in t ensures Down(f, s)(b) == Inner(f, a)(b) + Down(f, s - {a})(b) {
        SumWithout(s, Outer(f, b), a);
      }
      SumAdds(t, Down(f, s), Inner(f, a), Down(f, s - {a}));
    }
  }
}
