/** The ordering of calculated items: ascending by coins per experience point,
    compared by the difference of the two ratios. ECMAScript 2019 and later
    require the array sort to be stable, and a stable sort by one key has
    exactly one possible outcome, so an insertion sort that keeps equal ratios
    in their original order stands for whichever stable algorithm the engine
    uses (see `StableOutcomeIsUnique`). */
module Ranking {
  import opened Metrics

  /** Non-decreasing by `pricePerXp`: the cheapest experience first. */
  predicate Sorted(s: seq<CalculatedItem>)
  {
    forall i, j :: 0 <= i < j < |s| ==> s[i].pricePerXp <= s[j].pricePerXp
  }

  /** The items of `s` whose ratio is `k`, in their order in `s`. Two
      arrangements agree on every `WithRatio` exactly when each keeps equal
      ratios in the same relative order. */
  function WithRatio(s: seq<CalculatedItem>, k: real): seq<CalculatedItem>
  {
    if |s| == 0 then []
    else (if s[0].pricePerXp == k then [s[0]] else []) + WithRatio(s[1..], k)
  }

  /** Inserts `x` in front of the first item whose ratio is not smaller. */
  function Insert(x: CalculatedItem, s: seq<CalculatedItem>): (r: seq<CalculatedItem>)
    ensures multiset(r) == multiset(s) + multiset{x}
    // Implied by the multiset clause; kept in this per-position form because
    // the sortedness proof below picks elements of the result by index.
    ensures forall i :: 0 <= i < |r| ==> r[i] == x || r[i] in s
    decreases |s|
  {
    if |s| == 0 || x.pricePerXp <= s[0].pricePerXp then [x] + s
    else
      assert s == [s[0]] + s[1..];
      [s[0]] + Insert(x, s[1..])
  }

  /** Inserting into a sorted sequence keeps it sorted. */
  lemma {:induction false} InsertKeepsSorted(x: CalculatedItem, s: seq<CalculatedItem>)
    requires Sorted(s)
    ensures Sorted(Insert(x, s))
    decreases |s|
  {
    if |s| > 0 && x.pricePerXp > s[0].pricePerXp {
      var rest := Insert(x, s[1..]);
      InsertKeepsSorted(x, s[1..]);
      var r := Insert(x, s);
      assert r == [s[0]] + rest;
      forall i | 0 <= i < |rest|
        ensures s[0].pricePerXp <= rest[i].pricePerXp
      {
        if rest[i] != x {
          var j :| 0 <= j < |s[1..]| && s[1..][j] == rest[i];
          assert s[j + 1] == rest[i];
        }
      }
    }
  }

  /** Stable insertion sort by ascending `pricePerXp`. */
  function SortByRatio(s: seq<CalculatedItem>): (r: seq<CalculatedItem>)
    ensures Sorted(r)
    ensures multiset(r) == multiset(s)
    ensures |r| == |s|
    decreases |s|
  {
    if |s| == 0 then []
    else
      assert s == [s[0]] + s[1..];
      InsertKeepsSorted(s[0], SortByRatio(s[1..]));
      Insert(s[0], SortByRatio(s[1..]))
  }

  /** Inserting `x` adds it in front of the items of its own ratio and leaves
      every other ratio's items as they were. */
  lemma {:induction false} InsertKeepsRatioOrder(x: CalculatedItem, s: seq<CalculatedItem>, k: real)
    ensures WithRatio(Insert(x, s), k) == (if x.pricePerXp == k then [x] else []) + WithRatio(s, k)
    decreases |s|
  {
    if |s| == 0 || x.pricePerXp <= s[0].pricePerXp {
      assert ([x] + s)[1..] == s;
    } else {
      var r := Insert(x, s);
      var hx := if x.pricePerXp == k then [x] else [];
      var h0 := if s[0].pricePerXp == k then [s[0]] else [];
      assert r[0] == s[0] && r[1..] == Insert(x, s[1..]);
      assert WithRatio(r, k) == h0 + WithRatio(Insert(x, s[1..]), k);
      InsertKeepsRatioOrder(x, s[1..], k);
      assert WithRatio(s, k) == h0 + WithRatio(s[1..], k);
      if hx == [] {
        assert hx + WithRatio(s, k) == WithRatio(s, k);
        assert WithRatio(Insert(x, s[1..]), k) == WithRatio(s[1..], k);
      } else {
        assert h0 == [];
        assert WithRatio(r, k) == WithRatio(Insert(x, s[1..]), k);
      }
    }
  }

  /** The sort is stable: items with equal ratio keep their catalog order. */
  lemma {:induction false} SortIsStable(s: seq<CalculatedItem>, k: real)
    ensures WithRatio(SortByRatio(s), k) == WithRatio(s, k)
    decreases |s|
  {
    if |s| > 0 {
      SortIsStable(s[1..], k);
      InsertKeepsRatioOrder(s[0], SortByRatio(s[1..]), k);
    }
  }

  /** Every item selected by `WithRatio` comes from `s` and has ratio `k`. */
  lemma {:induction false} WithRatioSelects(s: seq<CalculatedItem>, k: real, x: CalculatedItem)
    requires x in WithRatio(s, k)
    ensures x in s && x.pricePerXp == k
    decreases |s|
  {
    if x != s[0] || s[0].pricePerXp != k {
      WithRatioSelects(s[1..], k, x);
    }
  }

  /** Two sorted arrangements that keep every ratio's items in the same order
      are the same arrangement. */
  lemma {:induction false} StableOutcomeIsUnique(a: seq<CalculatedItem>, b: seq<CalculatedItem>)
    requires Sorted(a) && Sorted(b)
    requires forall k :: WithRatio(a, k) == WithRatio(b, k)
    ensures a == b
    decreases |a|
  {
    if |a| > 0 {
      assert WithRatio(a, a[0].pricePerXp)[0] == a[0];
      assert a[0] in WithRatio(b, a[0].pricePerXp);
      WithRatioSelects(b, a[0].pricePerXp, a[0]);
    }
    if |b| > 0 {
      assert WithRatio(b, b[0].pricePerXp)[0] == b[0];
      assert b[0] in WithRatio(a, b[0].pricePerXp);
      WithRatioSelects(a, b[0].pricePerXp, b[0]);
    }
    if |a| > 0 && |b| > 0 {
      var m := a[0].pricePerXp;
      assert b[0].pricePerXp == m;
      assert a[0] == WithRatio(a, m)[0] == WithRatio(b, m)[0] == b[0];
      forall k
        ensures WithRatio(a[1..], k) == WithRatio(b[1..], k)
      {
        var head := if a[0].pricePerXp == k then [a[0]] else [];
        assert WithRatio(a, k) == head + WithRatio(a[1..], k);
        assert WithRatio(b, k) == head + WithRatio(b[1..], k);
        assert WithRatio(a[1..], k) == WithRatio(a, k)[|head|..];
      }
      StableOutcomeIsUnique(a[1..], b[1..]);
      assert a == [a[0]] + a[1..] && b == [b[0]] + b[1..];
    }
  }

  /** Any sorted arrangement that keeps equal ratios in catalog order, the
      outcome of any stable sort, is the insertion sort's outcome. */
  lemma AnyStableSortAgrees(s: seq<CalculatedItem>, r: seq<CalculatedItem>)
    requires Sorted(r)
    requires forall k :: WithRatio(r, k) == WithRatio(s, k)
    ensures r == SortByRatio(s)
  {
    forall k
      ensures WithRatio(r, k) == WithRatio(SortByRatio(s), k)
    {
      SortIsStable(s, k);
    }
    StableOutcomeIsUnique(r, SortByRatio(s));
  }
}
