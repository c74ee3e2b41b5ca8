/** Sums over finite sets, the model of summing the entries of a hash map
    whose iteration order is unspecified. */
module Sums {

  /** The sum of f over the keys, in no particular order. */
  ghost function SetSum(keys: set<nat>, f: nat -> nat): nat
    decreases |keys|
  {
    if keys == {} then 0
    else
      var k :| k in keys;
      f(k) + SetSum(keys - {k}, f)
  }

  /** Any key can be taken out first: the sum does not depend on the order. */
  lemma {:induction false} SetSumRemove(keys: set<nat>, f: nat -> nat, k: nat)
    requires k in keys
    ensures SetSum(keys, f) == f(k) + SetSum(keys - {k}, f)
    decreases |keys|
  {
    var j :| j in keys && SetSum(keys, f) == f(j) + SetSum(keys - {j}, f);
    if j != k {
      SetSumRemove(keys - {j}, f, k);
      SetSumRemove(keys - {k}, f, j);
      assert keys - {j} - {k} == keys - {k} - {j};
    }
  }

  /** Adding one new key adds its value. */
  lemma SetSumAdd(keys: set<nat>, f: nat -> nat, k: nat)
    requires k !in keys
    ensures SetSum(keys + {k}, f) == SetSum(keys, f) + f(k)
  {
    SetSumRemove(keys + {k}, f, k);
    assert keys + {k} - {k} == keys;
  }

  /** Functions that agree on the keys have the same sum. */
  lemma {:induction false} SetSumCongruence(keys: set<nat>, f: nat -> nat, g: nat -> nat)
    requires forall k <- keys :: f(k) == g(k)
    ensures SetSum(keys, f) == SetSum(keys, g)
    decreases |keys|
  {
    if keys != {} {
      var k :| k in keys;
      SetSumRemove(keys, f, k);
      SetSumRemove(keys, g, k);
      SetSumCongruence(keys - {k}, f, g);
    }
  }

  /** Keys where f is zero do not change the sum. */
  lemma {:induction false} SetSumZeroExtend(keys: set<nat>, extra: set<nat>, f: nat -> nat)
    requires forall k <- extra :: f(k) == 0
    ensures SetSum(keys + extra, f) == SetSum(keys, f)
    decreases |extra|
  {
    if extra != {} {
      var k :| k in extra;
      SetSumZeroExtend(keys, extra - {k}, f);
      if k in keys {
        assert keys + extra == keys + (extra - {k});
      } else {
        assert keys + extra == (keys + (extra - {k})) + {k};
        SetSumAdd(keys + (extra - {k}), f, k);
      }
    }
  }
}
