/**
 * Order-free sums over finite sets. The source sums over the values of
 * concurrent hash maps, whose iteration order is unspecified; `SumOver` picks
 * elements in an arbitrary order and `SumOverRemove` shows the choice does not
 * matter.
 */
module Sums {

  ghost function SumOver<K>(keys: set<K>, f: K -> nat): nat
    decreases keys
  {
    if keys == {} then 0
    else
      var k :| k in keys;
      f(k) + SumOver(keys - {k}, f)
  }

  /** Any element can be taken out first. */
  lemma {:induction false} SumOverRemove<K>(keys: set<K>, f: K -> nat, k: K)
    requires k in keys
    ensures SumOver(keys, f) == f(k) + SumOver(keys - {k}, f)
    decreases keys
  {
    var j :| j in keys && SumOver(keys, f) == f(j) + SumOver(keys - {j}, f);
    if j != k {
      SumOverRemove(keys - {j}, f, k);
      SumOverRemove(keys - {k}, f, j);
      assert keys - {j} - {k} == keys - {k} - {j};
    }
  }

  /** Adding an element that was not there adds its value. */
  lemma SumOverInsert<K>(keys: set<K>, f: K -> nat, k: K)
    requires k !in keys
    ensures SumOver(keys + {k}, f) == SumOver(keys, f) + f(k)
  {
    SumOverRemove(keys + {k}, f, k);
    assert keys + {k} - {k} == keys;
  }

  /** The sum only depends on the values at the keys summed over. */
  lemma {:induction false} SumOverCongruent<K>(keys: set<K>, f: K -> nat, g: K -> nat)
    requires forall k :: k in keys ==> f(k) == g(k)
    ensures SumOver(keys, f) == SumOver(keys, g)
    decreases keys
  {
    if keys != {} {
      var k :| k in keys && SumOver(keys, f) == f(k) + SumOver(keys - {k}, f);
      SumOverRemove(keys, g, k);
      SumOverCongruent(keys - {k}, f, g);
    }
  }

  /** The sum is zero exactly when every summand is. */
  lemma {:induction false} SumOverZero<K>(keys: set<K>, f: K -> nat)
    ensures SumOver(keys, f) == 0 <==> forall k :: k in keys ==> f(k) == 0
    decreases keys
  {
    if keys != {} {
      var k :| k in keys && SumOver(keys, f) == f(k) + SumOver(keys - {k}, f);
      SumOverZero(keys - {k}, f);
      forall j | j in keys && SumOver(keys, f) == 0
        ensures f(j) == 0
      {
        SumOverRemove(keys, f, j);
      }
    }
  }

  /** Every summand is bounded by the sum. */
  lemma SumOverAtLeast<K>(keys: set<K>, f: K -> nat, k: K)
    requires k in keys
    ensures f(k) <= SumOver(keys, f)
  {
    SumOverRemove(keys, f, k);
  }

  /** Takes some element of a non-empty set, as iterating over a hash map's keys does. */
  method Pick<K>(keys: set<K>) returns (k: K)
    requires keys != {}
    ensures k in keys
  {
    k :| k in keys;
  }

  /** One more summand of the same value. */
  lemma MulStep(m: nat, k: nat, n: nat)
    requires m == k + 1
    ensures m * n == k * n + n
  {
  }

  /** Some element of a non-empty set; the rest of the set is one smaller. */
  lemma Choose<K>(keys: set<K>) returns (k: K)
    requires keys != {}
    ensures k in keys && |keys - {k}| + 1 == |keys|
  {
    k :| k in keys;
  }

  /** No element occurs twice. */
  predicate Distinct<T(==)>(s: seq<T>)
  {
    forall i, j :: 0 <= i < j < |s| ==> s[i] != s[j]
  }
}
