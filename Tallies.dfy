/** Sums over frequency tables (a value-to-count map, as `value_counts`
    produces), used to state that a distribution accounts for every row. */
module Tallies {

  /** No value occurs twice. */
  predicate Distinct(keys: seq<int>) {
    forall i, j :: 0 <= i < j < |keys| ==> keys[i] != keys[j]
  }

  /** The count of `k` in the table, 0 when absent. */
  function CountOf(m: map<int, nat>, k: int): nat {
    if k in m then m[k] else 0
  }

  /** The sum of the counts of the listed keys. */
  function SumOver(m: map<int, nat>, keys: seq<int>): nat {
    if keys == [] then 0 else CountOf(m, keys[0]) + SumOver(m, keys[1..])
  }

  /** Changing one count changes the sum over a duplicate-free key list by the
      difference, when the key is listed, and not at all otherwise. */
  lemma {:induction false} SumOverUpdate(m: map<int, nat>, v: int, n: nat, keys: seq<int>)
    requires Distinct(keys)
    ensures SumOver(m[v := n], keys) == SumOver(m, keys) + (if v in keys then n - CountOf(m, v) else 0)
  {
    if keys != [] {
      assert Distinct(keys[1..]);
      SumOverUpdate(m, v, n, keys[1..]);
      if keys[0] == v {
        assert v !in keys[1..];
      }
    }
  }
}
