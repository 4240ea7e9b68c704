/**
 * Sums of a real-valued field over the records of a table whose keys lie in
 * a given set. Records are visited in ascending key order, so that the sum is
 * a computable function; the lemmas show that the order does not matter.
 */
module Sums {

  /** `m` is the least element of `s`. */
  predicate IsLeast(m: nat, s: set<nat>)
  {
    m in s && forall k :: k in s ==> m <= k
  }

  /** Every non-empty set of naturals has a least element. */
  lemma {:induction false} HasLeast(s: set<nat>)
    requires s != {}
    ensures exists m :: IsLeast(m, s)
    decreases s
  {
    var x :| x in s;
    if s == {x} {
      assert IsLeast(x, s);
    } else {
      var rest := s - {x};
      HasLeast(rest);
      var m :| IsLeast(m, rest);
      var least := if x < m then x else m;
      forall k | k in s
        ensures least <= k
      {
        if k != x {
          assert k in rest;
        }
      }
      assert IsLeast(least, s);
    }
  }

  /** The least element of a non-empty set of naturals. */
  function Least(s: set<nat>): (m: nat)
    requires s != {}
    ensures IsLeast(m, s)
  {
    HasLeast(s);
    var m :| IsLeast(m, s);
    m
  }

  /** The sum of `f` over the records `m[k]` with `k` in `keys`. */
  function SumBy<V>(m: map<nat, V>, keys: set<nat>, f: V -> real): real
    requires keys <= m.Keys
    decreases keys
  {
    if keys == {} then 0.0
    else
      var k := Least(keys);
      f(m[k]) + SumBy(m, keys - {k}, f)
  }

  /** Any record of the set can be taken out of the sum first. */
  lemma {:induction false} SumByRemove<V>(m: map<nat, V>, keys: set<nat>, x: nat, f: V -> real)
    requires keys <= m.Keys
    requires x in keys
    ensures SumBy(m, keys, f) == f(m[x]) + SumBy(m, keys - {x}, f)
    decreases keys
  {
    var k := Least(keys);
    if k != x {
      var rest := keys - {k};
      SumByRemove(m, rest, x, f);
      var others := keys - {x};
      assert k in others;
      var l := Least(others);
      assert l in keys;
      assert l == k;
      assert rest - {x} == others - {k};
    }
  }

  /** The sum depends only on the values of `f` at the records summed. */
  lemma {:induction false} SumByAgree<V>(m1: map<nat, V>, m2: map<nat, V>, keys: set<nat>, f: V -> real)
    requires keys <= m1.Keys && keys <= m2.Keys
    requires forall k :: k in keys ==> f(m1[k]) == f(m2[k])
    ensures SumBy(m1, keys, f) == SumBy(m2, keys, f)
    decreases keys
  {
    if keys != {} {
      SumByAgree(m1, m2, keys - {Least(keys)}, f);
    }
  }

  /** Replacing one summed record changes the sum by the difference of its values. */
  lemma SumByUpdate<V>(m: map<nat, V>, keys: set<nat>, x: nat, v: V, f: V -> real)
    requires keys <= m.Keys
    requires x in keys
    ensures SumBy(m[x := v], keys, f) == SumBy(m, keys, f) - f(m[x]) + f(v)
  {
    SumByRemove(m, keys, x, f);
    SumByRemove(m[x := v], keys, x, f);
    SumByAgree(m, m[x := v], keys - {x}, f);
  }

  /** A sum of terms each no greater than the matching terms of another is no greater. */
  lemma {:induction false} SumByMono<V>(m: map<nat, V>, keys: set<nat>, f: V -> real, g: V -> real)
    requires keys <= m.Keys
    requires forall k :: k in keys ==> f(m[k]) <= g(m[k])
    ensures SumBy(m, keys, f) <= SumBy(m, keys, g)
    decreases keys
  {
    if keys != {} {
      SumByMono(m, keys - {Least(keys)}, f, g);
    }
  }

  /** A sum of non-negative terms is non-negative. */
  lemma {:induction false} SumByNonNegative<V>(m: map<nat, V>, keys: set<nat>, f: V -> real)
    requires keys <= m.Keys
    requires forall k :: k in keys ==> 0.0 <= f(m[k])
    ensures 0.0 <= SumBy(m, keys, f)
    decreases keys
  {
    if keys != {} {
      SumByNonNegative(m, keys - {Least(keys)}, f);
    }
  }

  /** `n` copies of `x` added up. */
  function Times(n: nat, x: real): real
  {
    (n as real) * x
  }

  /** One more term within [lo, hi] keeps a sum of n terms within n times the bounds. */
  lemma BoundsStep(n: nat, lo: real, hi: real, sum: real, x: real)
    requires Times(n, lo) <= sum <= Times(n, hi)
    requires lo <= x <= hi
    ensures Times(n + 1, lo) <= x + sum <= Times(n + 1, hi)
  {
    assert Times(n + 1, lo) == Times(n, lo) + lo;
    assert Times(n + 1, hi) == Times(n, hi) + hi;
  }

  /** A sum of n terms each within [lo, hi] lies within [n * lo, n * hi]. */
  lemma {:induction false} SumByBounds<V>(m: map<nat, V>, keys: set<nat>, f: V -> real, lo: real, hi: real)
    requires keys <= m.Keys
    requires forall k :: k in keys ==> lo <= f(m[k]) <= hi
    ensures Times(|keys|, lo) <= SumBy(m, keys, f) <= Times(|keys|, hi)
    decreases keys
  {
    if keys == {} {
      assert Times(0, lo) == 0.0 == Times(0, hi);
    } else {
      var k := Least(keys);
      var rest := keys - {k};
      SumByBounds(m, rest, f, lo, hi);
      assert |keys| == |rest| + 1;
      BoundsStep(|rest|, lo, hi, SumBy(m, rest, f), f(m[k]));
    }
  }

}
