/** Sums of a weight over the values of a finite map, and values with 0 for a missing key.

    The step systems of this project keep one program counter per goroutine in
    a map; the shared counters of the program are then weights summed over it. */
module MapSums {

  function Lookup(m: map<string, nat>, key: string): nat { if key in m then m[key] else 0 }

  ghost function MapSum<V>(m: map<nat, V>, f: V -> nat): nat
    decreases |m|
  {
    if m == map[] then 0 else
      var k :| k in m;
      f(m[k]) + MapSum(m - {k}, f)
  }

  /** Any key can be taken out first. */
  lemma {:induction false} MapSumSplit<V>(m: map<nat, V>, k: nat, f: V -> nat)
    requires k in m
    ensures MapSum(m, f) == f(m[k]) + MapSum(m - {k}, f)
    decreases |m|
  {
    var j :| j in m && MapSum(m, f) == f(m[j]) + MapSum(m - {j}, f);
    if j != k {
      MapSumSplit(m - {j}, k, f);
      MapSumSplit(m - {k}, j, f);
      assert m - {j} - {k} == m - {k} - {j};
    }
  }

  /** The two maps agree on every key but k. */
  ghost predicate AgreeOff<V>(m: map<nat, V>, m': map<nat, V>, k: nat) {
    forall j | j != k :: (j in m <==> j in m') && (j in m ==> m[j] == m'[j])
  }

  ghost function WeightAt<V>(m: map<nat, V>, k: nat, f: V -> nat): nat {
    if k in m then f(m[k]) else 0
  }

  /** What writing, adding or deleting one entry does to a sum. */
  lemma MapSumChange<V>(m: map<nat, V>, m': map<nat, V>, k: nat, f: V -> nat)
    requires AgreeOff(m, m', k)
    ensures MapSum(m', f) + WeightAt(m, k, f) == MapSum(m, f) + WeightAt(m', k, f)
  {
    assert m - {k} == m' - {k};
    if k in m { MapSumSplit(m, k, f); } else { assert m - {k} == m; }
    if k in m' { MapSumSplit(m', k, f); } else { assert m' - {k} == m'; }
  }

  /** A positive sum has a positive summand. */
  lemma {:induction false} MapSumPositive<V>(m: map<nat, V>, f: V -> nat) returns (k: nat)
    requires MapSum(m, f) > 0
    ensures k in m && f(m[k]) > 0
    decreases |m|
  {
    k :| k in m && MapSum(m, f) == f(m[k]) + MapSum(m - {k}, f);
    if f(m[k]) == 0 {
      var j := MapSumPositive(m - {k}, f);
      k := j;
    }
  }

  /** A sum of weights that are at most one counts keys. */
  lemma {:induction false} MapSumAtMost<V>(m: map<nat, V>, f: V -> nat)
    requires forall k | k in m :: f(m[k]) <= 1
    ensures MapSum(m, f) <= |m|
    decreases |m|
  {
    if m != map[] {
      var k :| k in m && MapSum(m, f) == f(m[k]) + MapSum(m - {k}, f);
      MapSumAtMost(m - {k}, f);
      assert |m - {k}| == |m| - 1 by { assert (m - {k}).Keys == m.Keys - {k}; }
    }
  }
}
