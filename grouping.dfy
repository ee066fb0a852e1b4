/**
 * `groupby(key)[value].sum()`: one entry per distinct key, carrying the sum of the
 * values filed under that key. Used for the project quantities of the initial
 * merge and for the per-Partida subtotals.
 */
module Grouping {
  import opened Sums

  /** The keys that occur in `items`. */
  function Keys<K>(items: seq<(K, real)>): (ks: set<K>)
    ensures forall i :: 0 <= i < |items| ==> items[i].0 in ks
  {
    if items == [] then {} else {items[0].0} + Keys(items[1..])
  }

  lemma {:induction false} KeysConcat<K>(a: seq<(K, real)>, b: seq<(K, real)>)
    ensures Keys(a + b) == Keys(a) + Keys(b)
  {
    if a != [] {
      assert (a + b)[1..] == a[1..] + b;
      KeysConcat(a[1..], b);
    } else {
      assert a + b == b;
    }
  }

  predicate DistinctKeys<K(==)>(items: seq<(K, real)>) {
    forall i, j :: 0 <= i < j < |items| ==> items[i].0 != items[j].0
  }

  function Value<K>(item: (K, real)): real {
    item.1
  }

  /** The sum of all values (pandas `.sum()`). */
  function Total<K>(items: seq<(K, real)>): real {
    Sum(items, Value)
  }

  /** The sum of the values filed under key `k`. */
  function SumFor<K(==)>(items: seq<(K, real)>, k: K): (r: real)
    ensures k !in Keys(items) ==> r == 0.0
  {
    if items == [] then 0.0
    else
      var init := items[..|items| - 1];
      KeysConcat(init, [items[|items| - 1]]);
      assert init + [items[|items| - 1]] == items;
      SumFor(init, k) + (if items[|items| - 1].0 == k then items[|items| - 1].1 else 0.0)
  }

  /** Adds `q` to the entry for `k`, or files a new entry `(k, q)` at the end. */
  function AddTo<K(==)>(groups: seq<(K, real)>, k: K, q: real): (r: seq<(K, real)>)
    ensures k !in Keys(groups) ==> r == groups + [(k, q)]
    ensures k in Keys(groups) && DistinctKeys(groups) ==>
              |r| == |groups| &&
              forall i :: 0 <= i < |r| ==>
                r[i].0 == groups[i].0 && r[i].1 == groups[i].1 + (if groups[i].0 == k then q else 0.0)
    ensures Keys(r) == Keys(groups) + {k}
    ensures DistinctKeys(groups) ==> DistinctKeys(r)
    ensures Total(r) == Total(groups) + q
  {
    if groups == [] then
      [(k, q)]
    else
      if groups[0].0 == k then [(k, groups[0].1 + q)] + groups[1..]
      else [groups[0]] + AddTo(groups[1..], k, q)
  }

  /**
   * Groups `items` by key in first-seen order: every key once, each with the sum
   * of its values, and no key that `items` does not hold.
   */
  function GroupSum<K(==)>(items: seq<(K, real)>): (groups: seq<(K, real)>)
    ensures |groups| <= |items|
    ensures DistinctKeys(groups)
    ensures Keys(groups) == Keys(items)
    ensures forall i :: 0 <= i < |groups| ==> groups[i].1 == SumFor(items, groups[i].0)
  {
    if items == [] then []
    else
      var init, last := items[..|items| - 1], items[|items| - 1];
      KeysConcat(init, [last]);
      assert init + [last] == items;
      AddTo(GroupSum(init), last.0, last.1)
  }

  /** Grouping neither loses nor invents quantity: the grand total is unchanged. */
  lemma {:induction false} GroupSumTotal<K>(items: seq<(K, real)>)
    ensures Total(GroupSum(items)) == Total(items)
  {
    if items != [] {
      var init, last := items[..|items| - 1], items[|items| - 1];
      GroupSumTotal(init);
      SumConcat(init, [last], Value);
      assert init + [last] == items;
    }
  }

  lemma {:induction false} KeysWitness<K>(items: seq<(K, real)>, k: K)
    requires k in Keys(items)
    ensures exists i :: 0 <= i < |items| && items[i].0 == k
  {
    if items[0].0 != k {
      KeysWitness(items[1..], k);
      var i :| 0 <= i < |items[1..]| && items[1..][i].0 == k;
      assert items[i + 1].0 == k;
    }
  }

  /** Reordering the entries does not change which keys occur. */
  lemma KeysOfPermutation<K>(a: seq<(K, real)>, b: seq<(K, real)>)
    requires multiset(a) == multiset(b)
    ensures Keys(a) == Keys(b)
  {
    forall k | k in Keys(a) ensures k in Keys(b) {
      KeysWitness(a, k);
      var i :| 0 <= i < |a| && a[i].0 == k;
      assert a[i] in multiset(b);
    }
    forall k | k in Keys(b) ensures k in Keys(a) {
      KeysWitness(b, k);
      var i :| 0 <= i < |b| && b[i].0 == k;
      assert b[i] in multiset(a);
    }
  }
}
