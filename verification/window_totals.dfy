// _window_totals of app/panel/queries.py: sums per time window, by grouping when the windows are
// evenly long and by one conditional sum per window otherwise.
module WindowTotals {
  import opened Common

  /** A table row: its timestamp and the summed column, which may be NULL. */
  datatype Row = Row(stamp: int, value: Option<int>)

  /** What a row adds: 1 when counting, its value otherwise, NULL adding nothing. */
  function Weight(row: Row, counting: bool): int {
    if counting then 1 else if row.value.Some? then row.value.value else 0
  }

  ghost predicate Increasing(boundaries: seq<int>) {
    forall i, j :: 0 <= i < j < |boundaries| ==> boundaries[i] < boundaries[j]
  }

  /** bisect_right of the Python standard library. */
  function BisectRight(boundaries: seq<int>, stamp: int): (i: nat)
    ensures i <= |boundaries|
  {
    if boundaries == [] then 0
    else if boundaries[|boundaries| - 1] <= stamp then |boundaries|
    else BisectRight(boundaries[..|boundaries| - 1], stamp)
  }

  lemma {:induction false} BisectSplits(boundaries: seq<int>, stamp: int)
    requires Increasing(boundaries)
    ensures forall k :: 0 <= k < |boundaries| ==> (boundaries[k] <= stamp <==> k < BisectRight(boundaries, stamp))
  {
    if boundaries != [] && boundaries[|boundaries| - 1] > stamp {
      BisectSplits(boundaries[..|boundaries| - 1], stamp);
    }
  }

  /** The weight of a row in window `i`, zero when the row falls elsewhere. */
  function InBucket(boundaries: seq<int>, i: int, counting: bool): Row -> int {
    (row: Row) => if BisectRight(boundaries, row.stamp) - 1 == i then Weight(row, counting) else 0
  }

  /** The weight of a row inside [first, last). */
  function InRange(boundaries: seq<int>, counting: bool): Row -> int
    requires boundaries != []
  {
    (row: Row) =>
      if boundaries[0] <= row.stamp < boundaries[|boundaries| - 1] then Weight(row, counting) else 0
  }

  /** The weight of a row whose evenly spaced window starts at `start`. */
  function StartsAt(first: int, step: int, last: int, start: int, counting: bool): Row -> int
    requires step > 0
  {
    (row: Row) =>
      if first <= row.stamp < last && row.stamp - (row.stamp - first) % step == start then Weight(row, counting) else 0
  }

  function Between(lo: int, hi: int, first: int, last: int, counting: bool): Row -> int {
    (row: Row) => if first <= row.stamp < last && lo <= row.stamp < hi then Weight(row, counting) else 0
  }

  predicate EvenlySpaced(boundaries: seq<int>)
    requires |boundaries| >= 2
  {
    forall i | 0 <= i < |boundaries| - 1 :: boundaries[i + 1] - boundaries[i] == boundaries[1] - boundaries[0]
  }

  lemma {:induction false} EvenBoundary(boundaries: seq<int>, i: nat)
    requires |boundaries| >= 2 && EvenlySpaced(boundaries) && i < |boundaries|
    ensures boundaries[i] == boundaries[0] + i * (boundaries[1] - boundaries[0])
  {
    if i > 0 {
      EvenBoundary(boundaries, i - 1);
      assert boundaries[i - 1 + 1] - boundaries[i - 1] == boundaries[1] - boundaries[0];
    }
  }

  lemma DivBounds(a: int, step: int)
    requires step > 0
    ensures a / step * step == a - a % step && 0 <= a % step < step
  {
  }

  lemma MulMonotone(a: int, b: int, step: int)
    requires a <= b && step > 0
    ensures a * step <= b * step
  {
  }

  lemma QuotientIsUnique(q: int, i: int, step: int, rest: int)
    requires step > 0 && 0 <= rest < step && i * step <= q * step + rest < (i + 1) * step
    ensures q == i
  {
    if q > i {
      MulMonotone(i + 1, q, step);
    } else if q < i {
      MulMonotone(q + 1, i, step);
    }
  }

  /** Grouping by window start agrees with bisecting, row by row. */
  lemma StartIsBucket(boundaries: seq<int>, i: nat, row: Row, counting: bool)
    requires |boundaries| >= 2 && Increasing(boundaries) && EvenlySpaced(boundaries) && i < |boundaries| - 1
    ensures StartsAt(boundaries[0], boundaries[1] - boundaries[0], boundaries[|boundaries| - 1],
                     boundaries[i], counting)(row)
         == InBucket(boundaries, i, counting)(row)
  {
    var first, step := boundaries[0], boundaries[1] - boundaries[0];
    var a := row.stamp - first;
    BisectSplits(boundaries, row.stamp);
    EvenBoundary(boundaries, i);
    EvenBoundary(boundaries, i + 1);
    assert BisectRight(boundaries, row.stamp) - 1 == i <==> boundaries[i] <= row.stamp < boundaries[i + 1];
    DivBounds(a, step);
    if boundaries[i] <= row.stamp < boundaries[i + 1] {
      QuotientIsUnique(a / step, i, step, a % step);
    }
  }

  lemma BetweenIsBucket(boundaries: seq<int>, i: nat, row: Row, counting: bool)
    requires |boundaries| >= 2 && Increasing(boundaries) && i < |boundaries| - 1
    ensures Between(boundaries[i], boundaries[i + 1], boundaries[0], boundaries[|boundaries| - 1], counting)(row)
         == InBucket(boundaries, i, counting)(row)
  {
    BisectSplits(boundaries, row.stamp);
  }

  /** What a row adds to the window [lo, hi): one when counting, else its value if it has one. */
  function WindowWeight(lo: int, hi: int, counting: bool): Row -> int {
    (row: Row) =>
      if row.stamp < lo || hi <= row.stamp || (!counting && row.value == None) then 0
      else if counting then 1 else row.value.value
  }

  lemma BucketIsWindow(rows: seq<Row>, boundaries: seq<int>, i: nat, counting: bool)
    requires Increasing(boundaries) && i + 1 < |boundaries|
    ensures SumBy(rows, InBucket(boundaries, i, counting))
         == SumBy(rows, WindowWeight(boundaries[i], boundaries[i + 1], counting))
  {
    forall k | 0 <= k < |rows|
      ensures InBucket(boundaries, i, counting)(rows[k])
           == WindowWeight(boundaries[i], boundaries[i + 1], counting)(rows[k])
    {
      BisectSplits(boundaries, rows[k].stamp);
    }
    SumCongruent(rows, InBucket(boundaries, i, counting),
                 rows, WindowWeight(boundaries[i], boundaries[i + 1], counting));
  }

  /** Main result, in terms of the rows and boundaries alone: entry `i` is what the rows stamped in
      [boundaries[i], boundaries[i + 1]) add up to, and all entries together are what the rows from the first
      boundary to the last add up to. */
  method WindowTotals(rows: seq<Row>, boundaries: seq<int>, counting: bool) returns (totals: seq<int>)
    requires Increasing(boundaries)
    ensures |totals| == if |boundaries| < 2 then 0 else |boundaries| - 1
    ensures forall i :: 0 <= i < |totals| ==>
      totals[i] == SumBy(rows, WindowWeight(boundaries[i], boundaries[i + 1], counting))
    ensures |boundaries| >= 2 ==>
      SumBy(totals, Identity()) == SumBy(rows, WindowWeight(boundaries[0], boundaries[|boundaries| - 1], counting))
  {
    totals := WindowSums(rows, boundaries, counting);
    forall i | 0 <= i < |totals|
      ensures totals[i] == SumBy(rows, WindowWeight(boundaries[i], boundaries[i + 1], counting))
    {
      BucketIsWindow(rows, boundaries, i, counting);
    }
    if |boundaries| >= 2 {
      TotalsConserve(rows, boundaries, counting, totals, |totals|);
      TakeAll(totals);
      TakeAll(boundaries);
      SumCongruent(rows, InRange(boundaries, counting),
                   rows, WindowWeight(boundaries[0], boundaries[|boundaries| - 1], counting));
    }
  }

  /** Entry `i` is the sum of the rows bisect_right puts in window `i`, in either branch. */
  method WindowSums(rows: seq<Row>, boundaries: seq<int>, counting: bool) returns (totals: seq<int>)
    requires Increasing(boundaries)
    ensures |boundaries| < 2 ==> totals == []
    ensures |boundaries| >= 2 ==>
              && |totals| == |boundaries| - 1
              && (forall i :: 0 <= i < |totals| ==> totals[i] == SumBy(rows, InBucket(boundaries, i, counting)))
  {
    if |boundaries| < 2 {
      return [];
    }
    var first, last := boundaries[0], boundaries[|boundaries| - 1];
    var step := boundaries[1] - first;
    if step > 0 && EvenlySpaced(boundaries) {
      var groups := GroupByStart(rows, first, step, last, counting);
      totals := Spread(groups, boundaries);
      forall i | 0 <= i < |totals|
        ensures totals[i] == SumBy(rows, InBucket(boundaries, i, counting))
      {
        forall k | 0 <= k < |rows|
          ensures StartsAt(first, step, last, boundaries[i], counting)(rows[k])
               == InBucket(boundaries, i, counting)(rows[k])
        {
          StartIsBucket(boundaries, i, rows[k], counting);
        }
        SumCongruent(rows, StartsAt(first, step, last, boundaries[i], counting),
                     rows, InBucket(boundaries, i, counting));
      }
      return;
    }
    totals := [];
    for i := 0 to |boundaries| - 1
      invariant |totals| == i
      invariant forall j :: 0 <= j < i ==> totals[j] == SumBy(rows, InBucket(boundaries, j, counting))
    {
      var weight := Between(boundaries[i], boundaries[i + 1], first, last, counting);
      forall k | 0 <= k < |rows| ensures weight(rows[k]) == InBucket(boundaries, i, counting)(rows[k]) {
        BetweenIsBucket(boundaries, i, rows[k], counting);
      }
      SumCongruent(rows, weight, rows, InBucket(boundaries, i, counting));
      totals := totals + [SumBy(rows, weight)];
    }
  }

  function At(groups: map<int, int>, start: int): int {
    if start in groups then groups[start] else 0
  }

  /** SELECT window_start, SUM(value) ... GROUP BY window_start. */
  method GroupByStart(rows: seq<Row>, first: int, step: int, last: int, counting: bool)
    returns (groups: map<int, int>)
    requires step > 0
    ensures forall s :: At(groups, s) == SumBy(rows, StartsAt(first, step, last, s, counting))
    ensures forall s :: s in groups ==> first <= s < last && (s - first) % step == 0
  {
    groups := map[];
    for k := 0 to |rows|
      invariant forall s :: At(groups, s) == SumBy(rows[..k], StartsAt(first, step, last, s, counting))
      invariant forall s :: s in groups ==> first <= s < last && (s - first) % step == 0
    {
      var row := rows[k];
      TakeNext(rows, k);
      ghost var before := groups;
      if first <= row.stamp < last {
        var start := row.stamp - (row.stamp - first) % step;
        StartIsMultiple(row.stamp - first, step);
        groups := groups[start := At(groups, start) + Weight(row, counting)];
      }
      forall s ensures At(groups, s) == SumBy(rows[..k + 1], StartsAt(first, step, last, s, counting)) {
        assert At(before, s) == SumBy(rows[..k], StartsAt(first, step, last, s, counting));
        SumAppend(rows[..k], row, StartsAt(first, step, last, s, counting));
      }
    }
    TakeAll(rows);
  }

  lemma StartIsMultiple(a: int, step: int)
    requires step > 0 && a >= 0
    ensures (a - a % step) % step == 0 && 0 <= a - a % step
  {
    DivBounds(a, step);
    assert (a / step * step) % step == 0;
  }

  /** The Python loop over the groups: totals[(start - first) // step] += amount. */
  method Spread(groups: map<int, int>, boundaries: seq<int>) returns (totals: seq<int>)
    requires |boundaries| >= 2 && Increasing(boundaries) && EvenlySpaced(boundaries)
    requires var first, step := boundaries[0], boundaries[1] - boundaries[0];
             forall s :: s in groups ==>
               first <= s < boundaries[|boundaries| - 1] && (s - first) % step == 0
    ensures |totals| == |boundaries| - 1
    ensures forall i :: 0 <= i < |totals| ==> totals[i] == At(groups, boundaries[i])
  {
    var first, step := boundaries[0], boundaries[1] - boundaries[0];
    totals := seq(|boundaries| - 1, _ => 0);
    var starts := groups.Keys;
    while starts != {}
      invariant starts <= groups.Keys
      invariant |totals| == |boundaries| - 1
      invariant forall i :: 0 <= i < |totals| ==>
                  totals[i] == if boundaries[i] in starts then 0 else At(groups, boundaries[i])
      decreases starts
    {
      SomeMember(starts);
      var start :| start in starts;
      var i := (start - first) / step;
      StartHasIndex(boundaries, start);
      totals := totals[i := totals[i] + groups[start]];
      starts := starts - {start};
    }
  }

  lemma StartHasIndex(boundaries: seq<int>, start: int)
    requires |boundaries| >= 2 && Increasing(boundaries) && EvenlySpaced(boundaries)
    requires boundaries[0] <= start < boundaries[|boundaries| - 1]
    requires (start - boundaries[0]) % (boundaries[1] - boundaries[0]) == 0
    ensures var i := (start - boundaries[0]) / (boundaries[1] - boundaries[0]);
            0 <= i < |boundaries| - 1 && boundaries[i] == start
  {
    var first, step, n := boundaries[0], boundaries[1] - boundaries[0], |boundaries| - 1;
    var i := (start - first) / step;
    DivBounds(start - first, step);
    EvenBoundary(boundaries, n);
    assert i * step == start - first;
    if i >= n {
      MulMonotone(n, i, step);
    } else if i < 0 {
      MulMonotone(i, -1, step);
    }
    EvenBoundary(boundaries, i);
  }

  function Identity(): int -> int {
    (x: int) => x
  }

  /** Nothing is lost or counted twice: the windows add up to all rows in [first, last). */
  lemma {:induction false} TotalsConserve(rows: seq<Row>, boundaries: seq<int>, counting: bool, totals: seq<int>, n: nat)
    requires Increasing(boundaries) && n < |boundaries| && |totals| == |boundaries| - 1
    requires forall i :: 0 <= i < |totals| ==> totals[i] == SumBy(rows, InBucket(boundaries, i, counting))
    ensures SumBy(totals[..n], Identity()) == SumBy(rows, InRange(boundaries[..n + 1], counting))
  {
    if n == 0 {
      assert forall row :: InRange(boundaries[..1], counting)(row) == 0;
      ZeroSum(rows, InRange(boundaries[..1], counting));
    } else {
      TotalsConserve(rows, boundaries, counting, totals, n - 1);
      TakeNext(totals, n - 1);
      SumAppend(totals[..n - 1], totals[n - 1], Identity());
      forall k | 0 <= k < |rows|
        ensures InRange(boundaries[..n + 1], counting)(rows[k])
             == InRange(boundaries[..n], counting)(rows[k]) + InBucket(boundaries, n - 1, counting)(rows[k])
      {
        BisectSplits(boundaries, rows[k].stamp);
      }
      SumSplit(rows, InRange(boundaries[..n], counting), InBucket(boundaries, n - 1, counting),
               InRange(boundaries[..n + 1], counting));
    }
  }
}
