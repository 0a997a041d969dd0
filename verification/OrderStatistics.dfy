/** The m-th largest, two ways. */
module OrderStatistics {
  // The m-th largest of a list of counts is found by an expected-linear selection
  // with an arbitrary pivot, and by scanning a histogram from the top. Both are
  // proved against the same counting specification.

  import opened Wrappers

  /** How many of `values` are `v` or more. */
  function CountAtLeast(values: seq<int>, v: int): nat {
    if values == [] then 0
    else (if values[0] >= v then 1 else 0) + CountAtLeast(values[1..], v)
  }

  /** Fewer than `m` values lie above `v`, and at least `m` lie at or above it. */
  ghost predicate IsMthLargest(values: seq<int>, m: nat, v: int) {
    CountAtLeast(values, v + 1) < m <= CountAtLeast(values, v)
  }

  function Above(pool: seq<int>, pivot: int): seq<int> {
    if pool == [] then []
    else (if pool[0] > pivot then [pool[0]] else []) + Above(pool[1..], pivot)
  }

  function Below(pool: seq<int>, pivot: int): seq<int> {
    if pool == [] then []
    else (if pool[0] < pivot then [pool[0]] else []) + Below(pool[1..], pivot)
  }

  function CountEqual(pool: seq<int>, pivot: int): nat {
    if pool == [] then 0
    else (if pool[0] == pivot then 1 else 0) + CountEqual(pool[1..], pivot)
  }

  lemma {:induction false} CountConcat(a: seq<int>, b: seq<int>, v: int)
    ensures CountAtLeast(a + b, v) == CountAtLeast(a, v) + CountAtLeast(b, v)
  {
    if a == [] {
      assert a + b == b;
    } else {
      assert (a + b)[1..] == a[1..] + b;
      CountConcat(a[1..], b, v);
    }
  }

  lemma {:induction false} CountIsAntitone(values: seq<int>, low: int, high: int)
    requires low <= high
    ensures CountAtLeast(values, high) <= CountAtLeast(values, low) <= |values|
  {
    if values != [] {
      CountIsAntitone(values[1..], low, high);
    }
  }

  lemma {:induction false} AboveCounts(pool: seq<int>, pivot: int, v: int)
    ensures CountAtLeast(Above(pool, pivot), v) == CountAtLeast(pool, if v > pivot then v else pivot + 1)
  {
    if pool != [] {
      AboveCounts(pool[1..], pivot, v);
      assert [] + Above(pool[1..], pivot) == Above(pool[1..], pivot);
    }
  }

  lemma {:induction false} BelowCounts(pool: seq<int>, pivot: int, v: int)
    ensures CountAtLeast(Below(pool, pivot), v)
         == if v < pivot then CountAtLeast(pool, v) - CountAtLeast(pool, pivot) else 0
  {
    if pool != [] {
      BelowCounts(pool[1..], pivot, v);
      assert [] + Below(pool[1..], pivot) == Below(pool[1..], pivot);
    }
  }

  /** A pivot splits the pool in three, and the sizes are counts of the whole pool. */
  lemma {:induction false} SplitSizes(pool: seq<int>, pivot: int)
    ensures |Above(pool, pivot)| == CountAtLeast(pool, pivot + 1)
    ensures |Above(pool, pivot)| + CountEqual(pool, pivot) == CountAtLeast(pool, pivot)
    ensures CountAtLeast(pool, pivot) + |Below(pool, pivot)| == |pool|
  {
    if pool != [] {
      SplitSizes(pool[1..], pivot);
    }
  }

  lemma {:induction false} CountEqualPositive(pool: seq<int>, k: nat)
    requires k < |pool|
    ensures CountEqual(pool, pool[k]) >= 1
  {
    if k > 0 {
      CountEqualPositive(pool[1..], k - 1);
    }
  }

  /**
   The selection: keep the side of a pivot that still holds the answer. The
   pivot is any element of the pool, so the result does not rest on the choice.
   */
  method MthLargest(values: seq<int>, m: nat) returns (r: Option<int>)
    requires m >= 1
    ensures r.None? <==> |values| < m
    ensures r.Some? ==> IsMthLargest(values, m, r.value)
    ensures r == OrderStatistic(values, m)
  {
    if |values| < m {
      return None;
    }
    var pool, want := values, m;
    while true
      invariant 1 <= want <= |pool|
      invariant forall v :: IsMthLargest(pool, want, v) ==> IsMthLargest(values, m, v)
      decreases |pool|
    {
      var k :| 0 <= k < |pool|;
      var pivot := pool[k];
      var above := Above(pool, pivot);
      var same := CountEqual(pool, pivot);
      SplitSizes(pool, pivot);
      CountEqualPositive(pool, k);
      if want <= |above| {
        forall v | IsMthLargest(above, want, v)
          ensures IsMthLargest(pool, want, v)
        {
          AboveCounts(pool, pivot, v);
          AboveCounts(pool, pivot, v + 1);
        }
        pool := above;
      } else if want <= |above| + same {
        MthLargestIsUnique(values, m, pivot, Selected(values, m));
        return Some(pivot);
      } else {
        var below := Below(pool, pivot);
        forall v | IsMthLargest(below, want - (|above| + same), v)
          ensures IsMthLargest(pool, want, v)
        {
          BelowCounts(pool, pivot, v);
          BelowCounts(pool, pivot, v + 1);
        }
        want := want - (|above| + same);
        pool := below;
      }
    }
  }

  /** The selection with its pivot fixed to the first value: a reference to name the answer by. */
  function Selected(values: seq<int>, m: nat): (v: int)
    requires 1 <= m <= |values|
    ensures IsMthLargest(values, m, v)
    decreases |values|
  {
    var pivot := values[0];
    var above, below := Above(values, pivot), Below(values, pivot);
    SplitSizes(values, pivot);
    CountEqualPositive(values, 0);
    if m <= |above| then
      var v := Selected(above, m);
      AboveCounts(values, pivot, v);
      AboveCounts(values, pivot, v + 1);
      v
    else if m <= |above| + CountEqual(values, pivot) then pivot
    else
      var v := Selected(below, m - (|above| + CountEqual(values, pivot)));
      BelowCounts(values, pivot, v);
      BelowCounts(values, pivot, v + 1);
      v
  }

  /** The m-th largest value, where there are that many. */
  function OrderStatistic(values: seq<int>, m: nat): Option<int>
    requires m >= 1
  {
    if |values| < m then None else Some(Selected(values, m))
  }

  /** The specification names one value: any two answers agree, whatever the pivots were. */
  lemma {:induction false} MthLargestIsUnique(values: seq<int>, m: nat, v: int, w: int)
    requires IsMthLargest(values, m, v) && IsMthLargest(values, m, w)
    ensures v == w
  {
    if v < w {
      CountIsAntitone(values, v + 1, w);
    } else if w < v {
      CountIsAntitone(values, w + 1, v);
    }
  }

  /** An answer is one of the values. */
  lemma {:induction false} MthLargestIsAValue(values: seq<int>, m: nat, v: int)
    requires IsMthLargest(values, m, v)
    ensures v in values
  {
    if v !in values {
      CountAbsent(values, v);
    }
  }

  lemma {:induction false} CountAbsent(values: seq<int>, v: int)
    requires v !in values
    ensures CountAtLeast(values, v) == CountAtLeast(values, v + 1)
  {
    if values != [] {
      assert values[0] != v;
      CountAbsent(values[1..], v);
    }
  }

  lemma {:induction false} PermutationWithout<T>(a: seq<T>, b: seq<T>) returns (k: nat)
    requires a != [] && multiset(a) == multiset(b)
    ensures k < |b| && b[k] == a[0]
    ensures multiset(a[1..]) == multiset(b[..k] + b[k + 1..])
  {
    assert a[0] in multiset(b);
    k :| 0 <= k < |b| && b[k] == a[0];
    assert a == [a[0]] + a[1..];
    assert b == b[..k] + [b[k]] + b[k + 1..];
    assert multiset(a[1..]) == multiset(a) - multiset{a[0]};
    assert multiset(b[..k] + b[k + 1..]) == multiset(b) - multiset{b[k]};
  }

  lemma {:induction false} CountOfMultiset(a: seq<int>, b: seq<int>, v: int)
    requires multiset(a) == multiset(b)
    ensures CountAtLeast(a, v) == CountAtLeast(b, v)
    decreases |a|
  {
    assert |a| == |multiset(a)| == |multiset(b)| == |b|;
    if a != [] {
      var k := PermutationWithout(a, b);
      CountOfMultiset(a[1..], b[..k] + b[k + 1..], v);
      assert b == b[..k] + ([a[0]] + b[k + 1..]);
      CountConcat(b[..k], [a[0]] + b[k + 1..], v);
      CountConcat(b[..k], b[k + 1..], v);
    }
  }

  /** The order the runs are listed in does not matter. */
  lemma {:induction false} MthLargestIgnoresOrder(a: seq<int>, b: seq<int>, m: nat, v: int)
    requires multiset(a) == multiset(b)
    ensures IsMthLargest(a, m, v) <==> IsMthLargest(b, m, v)
  {
    CountOfMultiset(a, b, v);
    CountOfMultiset(a, b, v + 1);
  }

  /** Asking for more runs can only lower the answer. */
  lemma {:induction false} MthLargestIsAntitoneInM(values: seq<int>, m: nat, more: nat, v: int, w: int)
    requires m <= more
    requires IsMthLargest(values, m, v) && IsMthLargest(values, more, w)
    ensures w <= v
  {
    if w > v {
      CountIsAntitone(values, v + 1, w);
    }
  }

  /** The largest rank below `top` that `m` of the values reach: what the downward scan finds. */
  function BestBelow(values: seq<int>, m: nat, top: nat): (best: Option<nat>) {
    if top == 0 then None
    else if CountAtLeast(values, top - 1) >= m then Some(top - 1)
    else BestBelow(values, m, top - 1)
  }

  lemma {:induction false} BestBelowCharacterised(values: seq<int>, m: nat, top: nat)
    ensures BestBelow(values, m, top).None? ==> forall r: nat :: r < top ==> CountAtLeast(values, r) < m
    ensures BestBelow(values, m, top).Some? ==>
              BestBelow(values, m, top).value < top
              && CountAtLeast(values, BestBelow(values, m, top).value) >= m
              && forall r: nat :: BestBelow(values, m, top).value < r < top ==> CountAtLeast(values, r) < m
  {
    if top > 0 && CountAtLeast(values, top - 1) < m {
      BestBelowCharacterised(values, m, top - 1);
    }
  }

  lemma {:induction false} CountBounds(values: seq<int>, top: nat)
    requires forall i :: 0 <= i < |values| ==> 0 <= values[i] < top
    ensures CountAtLeast(values, 0) == |values|
    ensures CountAtLeast(values, top) == 0
  {
    if values != [] {
      CountBounds(values[1..], top);
    }
  }

  /**
   The histogram scan and the selection compute the same order statistic: on
   ranks below `top`, the scan finds nothing exactly when there are fewer than
   `m` ranks, and otherwise the m-th largest.
   */
  lemma {:induction false} ScanFindsMthLargest(values: seq<int>, m: nat, top: nat)
    requires m >= 1
    requires forall i :: 0 <= i < |values| ==> 0 <= values[i] < top
    ensures BestBelow(values, m, top).None? <==> |values| < m
    ensures BestBelow(values, m, top).Some? ==> IsMthLargest(values, m, BestBelow(values, m, top).value)
  {
    BestBelowCharacterised(values, m, top);
    CountBounds(values, top);
    var best := BestBelow(values, m, top);
    if best.Some? {
      CountIsAntitone(values, 0, best.value);
      assert best.value + 1 < top ==> CountAtLeast(values, best.value + 1) < m;
    } else if top > 0 {
      assert CountAtLeast(values, 0) < m;
    }
  }
}
