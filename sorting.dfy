/**
 * The stable sort that `sort_values` performs, written once over any row type
 * and any "sorts no later than" relation `le`.
 */
module Sorting {

  /** `le` compares any two values and is transitive. */
  ghost predicate TotalPreorder<T(!new)>(le: (T, T) -> bool) {
    && (forall a, b :: le(a, b) || le(b, a))
    && (forall a, b, c :: le(a, b) && le(b, c) ==> le(a, c))
  }

  ghost predicate Sorted<T>(s: seq<T>, le: (T, T) -> bool) {
    forall i, j :: 0 <= i < j < |s| ==> le(s[i], s[j])
  }

  /** `a` and `b` sort at the same position: neither comes strictly first. */
  predicate Tied<T>(a: T, b: T, le: (T, T) -> bool) {
    le(a, b) && le(b, a)
  }

  /** Places `x` after every element of `s` that does not sort strictly after it. */
  function Insert<T>(s: seq<T>, x: T, le: (T, T) -> bool): (r: seq<T>)
    ensures multiset(r) == multiset(s) + multiset{x}
  {
    if s == [] then [x]
    else if le(s[|s| - 1], x) then s + [x]
    else
      var init := s[..|s| - 1];
      assert s == init + [s[|s| - 1]];
      Insert(init, x, le) + [s[|s| - 1]]
  }

  /** Insertion sort: each element goes after the earlier elements it ties with. */
  function SortBy<T>(s: seq<T>, le: (T, T) -> bool): (r: seq<T>)
    ensures multiset(r) == multiset(s)
  {
    if s == [] then []
    else
      var init := s[..|s| - 1];
      assert s == init + [s[|s| - 1]];
      Insert(SortBy(init, le), s[|s| - 1], le)
  }

  lemma {:induction false} InsertSorted<T(!new)>(s: seq<T>, x: T, le: (T, T) -> bool)
    requires TotalPreorder(le) && Sorted(s, le)
    ensures Sorted(Insert(s, x, le), le)
  {
    if s != [] && !le(s[|s| - 1], x) {
      var init, last := s[..|s| - 1], s[|s| - 1];
      InsertSorted(init, x, le);
      var m := Insert(init, x, le);
      forall i | 0 <= i < |m|
        ensures le(m[i], last)
      {
        assert m[i] in multiset(m);
        if m[i] != x {
          assert m[i] in multiset(init);
          var j :| 0 <= j < |init| && init[j] == m[i];
          assert le(s[j], s[|s| - 1]);
        }
      }
    }
  }

  /** The result is sorted and is a permutation of the input (its multiset). */
  lemma {:induction false} SortByIsSorted<T(!new)>(s: seq<T>, le: (T, T) -> bool)
    requires TotalPreorder(le)
    ensures Sorted(SortBy(s, le), le)
    ensures multiset(SortBy(s, le)) == multiset(s)
  {
    if s != [] {
      SortByIsSorted(s[..|s| - 1], le);
      InsertSorted(SortBy(s[..|s| - 1], le), s[|s| - 1], le);
    }
  }

  /** Sorting a sequence that is already in order leaves it as it is. */
  lemma {:induction false} SortBySorted<T>(s: seq<T>, le: (T, T) -> bool)
    requires Sorted(s, le)
    ensures SortBy(s, le) == s
  {
    if s != [] {
      var init, last := s[..|s| - 1], s[|s| - 1];
      assert Sorted(init, le) by {
        forall i, j | 0 <= i < j < |init| ensures le(init[i], init[j]) {
          assert init[i] == s[i] && init[j] == s[j];
        }
      }
      SortBySorted(init, le);
      if init != [] {
        assert le(s[|s| - 2], last);
      }
      assert init + [last] == s;
    }
  }

  /** Sorting loses no element: anything in `s` has a position in the sorted sequence. */
  lemma SortByIndexOf<T>(s: seq<T>, x: T, le: (T, T) -> bool) returns (i: nat)
    requires x in s
    ensures i < |SortBy(s, le)| && SortBy(s, le)[i] == x
  {
    assert x in multiset(SortBy(s, le));
    i :| 0 <= i < |SortBy(s, le)| && SortBy(s, le)[i] == x;
  }

  /** The elements of `s` that tie with `k`, in their order in `s`. */
  function TiedWith<T>(s: seq<T>, k: T, le: (T, T) -> bool): (r: seq<T>)
    ensures |r| <= |s|
    ensures forall i :: 0 <= i < |r| ==> Tied(r[i], k, le)
  {
    if s == [] then []
    else TiedWith(s[..|s| - 1], k, le) + (if Tied(s[|s| - 1], k, le) then [s[|s| - 1]] else [])
  }

  lemma {:induction false} InsertStable<T(!new)>(s: seq<T>, x: T, k: T, le: (T, T) -> bool)
    requires TotalPreorder(le)
    ensures TiedWith(Insert(s, x, le), k, le)
            == TiedWith(s, k, le) + (if Tied(x, k, le) then [x] else [])
    decreases |s|, 1
  {
    if s == [] {
      TiedWithSnoc([], x, k, le);
      assert [] + [x] == [x];
    } else if le(s[|s| - 1], x) {
      TiedWithSnoc(s, x, k, le);
    } else {
      InsertStableBefore(s, x, k, le);
    }
  }

  /** `InsertStable` when `x` goes in before the last element of `s`. */
  lemma {:induction false} InsertStableBefore<T(!new)>(s: seq<T>, x: T, k: T, le: (T, T) -> bool)
    requires TotalPreorder(le) && s != [] && !le(s[|s| - 1], x)
    ensures TiedWith(Insert(s, x, le), k, le)
            == TiedWith(s, k, le) + (if Tied(x, k, le) then [x] else [])
    decreases |s|, 0
  {
    var init, last := s[..|s| - 1], s[|s| - 1];
    InsertStable(init, x, k, le);
    NotBothTied(x, last, k, le);
    InsertBefore(s, x, le);
    TiesSwap(Insert(init, x, le), s, x, k, le);
  }

  /** `x` goes in before the last element of `s`, which stays last. */
  lemma InsertBefore<T>(s: seq<T>, x: T, le: (T, T) -> bool)
    requires s != [] && !le(s[|s| - 1], x)
    ensures Insert(s, x, le) == Insert(s[..|s| - 1], x, le) + [s[|s| - 1]]
  {
  }

  /**
   * The inductive step of `InsertStable`: if `m` ties like `s` without its last
   * element followed by `x`, then `m` followed by that last element ties like
   * `s` followed by `x`, provided `x` and the last element do not both tie with `k`.
   */
  lemma TiesSwap<T>(m: seq<T>, s: seq<T>, x: T, k: T, le: (T, T) -> bool)
    requires s != [] && !(Tied(x, k, le) && Tied(s[|s| - 1], k, le))
    requires TiedWith(m, k, le) == TiedWith(s[..|s| - 1], k, le) + (if Tied(x, k, le) then [x] else [])
    ensures TiedWith(m + [s[|s| - 1]], k, le)
            == TiedWith(s, k, le) + (if Tied(x, k, le) then [x] else [])
  {
    var last := s[|s| - 1];
    TiedWithSnoc(m, last, k, le);
    var t0 := TiedWith(s[..|s| - 1], k, le);
    if Tied(x, k, le) {
      assert TiedWith(m + [last], k, le) == t0 + [x];
      assert TiedWith(s, k, le) == t0;
    } else {
      assert TiedWith(m + [last], k, le) == TiedWith(s, k, le);
    }
  }

  /** When `b` sorts strictly after `a`, the two cannot tie with the same `k`. */
  lemma NotBothTied<T(!new)>(a: T, b: T, k: T, le: (T, T) -> bool)
    requires TotalPreorder(le) && !le(b, a)
    ensures !(Tied(a, k, le) && Tied(b, k, le))
  {
  }

  lemma TiedWithSnoc<T>(s: seq<T>, y: T, k: T, le: (T, T) -> bool)
    ensures TiedWith(s + [y], k, le) == TiedWith(s, k, le) + (if Tied(y, k, le) then [y] else [])
  {
    assert (s + [y])[..|s|] == s;
  }

  /**
   * Stability: for every `k`, the elements that tie with `k` keep their relative
   * order, so rows with the same sort key stay in the order they had.
   */
  lemma {:induction false} SortByIsStable<T(!new)>(s: seq<T>, k: T, le: (T, T) -> bool)
    requires TotalPreorder(le)
    ensures TiedWith(SortBy(s, le), k, le) == TiedWith(s, k, le)
  {
    if s != [] {
      SortByIsStable(s[..|s| - 1], k, le);
      InsertStable(SortBy(s[..|s| - 1], le), s[|s| - 1], k, le);
    }
  }

  /** No two elements of `s` tie: the sort order among them is strict. */
  ghost predicate Untied<T>(s: seq<T>, le: (T, T) -> bool) {
    forall i, j :: 0 <= i < j < |s| ==> !Tied(s[i], s[j], le)
  }

  lemma {:induction false} TwoTied<T(!new)>(s: seq<T>, k: T, le: (T, T) -> bool, i: nat, j: nat)
    requires i < j < |s| && Tied(s[i], k, le) && Tied(s[j], k, le)
    ensures |TiedWith(s, k, le)| >= 2
  {
    var init := s[..|s| - 1];
    if j < |s| - 1 {
      TwoTied(init, k, le, i, j);
    } else {
      assert init[i] == s[i];
      assert |TiedWith(init, k, le)| >= 1 by { OneTied(init, k, le, i); }
    }
  }

  lemma {:induction false} OneTied<T(!new)>(s: seq<T>, k: T, le: (T, T) -> bool, i: nat)
    requires i < |s| && Tied(s[i], k, le)
    ensures |TiedWith(s, k, le)| >= 1
  {
    if i < |s| - 1 {
      OneTied(s[..|s| - 1], k, le, i);
    }
  }

  lemma {:induction false} NoneTied<T>(s: seq<T>, k: T, le: (T, T) -> bool)
    requires forall i :: 0 <= i < |s| ==> !Tied(s[i], k, le)
    ensures TiedWith(s, k, le) == []
  {
    if s != [] {
      NoneTied(s[..|s| - 1], k, le);
    }
  }

  lemma {:induction false} UntiedTiesOnce<T(!new)>(s: seq<T>, k: T, le: (T, T) -> bool)
    requires TotalPreorder(le) && Untied(s, le)
    ensures |TiedWith(s, k, le)| <= 1
  {
    if s != [] {
      var init, last := s[..|s| - 1], s[|s| - 1];
      UntiedTiesOnce(init, k, le);
      if Tied(last, k, le) {
        forall i | 0 <= i < |init|
          ensures !Tied(init[i], k, le)
        {
          assert init[i] == s[i];
          assert !Tied(s[i], s[|s| - 1], le);
        }
        NoneTied(init, k, le);
      }
    }
  }

  /** Sorting keeps a strict order strict: no ties appear that were not there. */
  lemma SortByKeepsUntied<T(!new)>(s: seq<T>, le: (T, T) -> bool)
    requires TotalPreorder(le) && Untied(s, le)
    ensures Untied(SortBy(s, le), le)
  {
    var r := SortBy(s, le);
    forall i, j | 0 <= i < j < |r|
      ensures !Tied(r[i], r[j], le)
    {
      if Tied(r[i], r[j], le) {
        TwoTied(r, r[i], le, i, j);
        SortByIsStable(s, r[i], le);
        UntiedTiesOnce(s, r[i], le);
      }
    }
  }
}
