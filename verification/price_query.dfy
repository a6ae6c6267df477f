/** The per-session price store and the range-mean query over it:
    `PricePoint`, `QueryRange`, `handle_insert` and `handle_avg_query`. */
module PriceQuery {
  import opened Int32

  /** One observation: the price at a timestamp. Duplicated timestamps are
      allowed and each point counts on its own. */
  datatype PricePoint = PricePoint(timestamp: I32, price: I32)

  /** The inclusive timestamp range of a mean query. */
  datatype QueryRange = QueryRange(start: I32, end: I32)

  /** The session's `Vec<PricePoint>`, in insertion order. */
  class PriceStorage {
    var points: seq<PricePoint>

    constructor ()
      ensures points == []
    {
      points := [];
    }

    /** `handle_insert`: appends the point at the end; every earlier point
        stays where it was. */
    method Insert(point: PricePoint)
      modifies this
      ensures points == old(points) + [point]
      ensures |points| == |old(points)| + 1 && points[|old(points)|] == point
      ensures forall i :: 0 <= i < |old(points)| ==> points[i] == old(points)[i]
    {
      points := points + [point];
    }
  }

  // ---- Reference definitions: which points a query matches, and their totals

  predicate InRange(p: PricePoint, q: QueryRange) {
    q.start <= p.timestamp && p.timestamp <= q.end
  }

  function MatchCount(storage: seq<PricePoint>, q: QueryRange): nat {
    if storage == [] then 0
    else (if InRange(storage[0], q) then 1 else 0) + MatchCount(storage[1..], q)
  }

  function MatchSum(storage: seq<PricePoint>, q: QueryRange): int {
    if storage == [] then 0
    else (if InRange(storage[0], q) then storage[0].price else 0) + MatchSum(storage[1..], q)
  }

  function PriceSum(points: seq<PricePoint>): int {
    if points == [] then 0 else points[0].price + PriceSum(points[1..])
  }

  // ---- The iterator chain of handle_avg_query: filter, then fold (count, sum)

  /** `storage.iter().filter(...)`: the points in range, in storage order. */
  function Filter(storage: seq<PricePoint>, q: QueryRange): (r: seq<PricePoint>)
    ensures |r| == MatchCount(storage, q)
    ensures PriceSum(r) == MatchSum(storage, q)
    ensures forall i :: 0 <= i < |r| ==> InRange(r[i], q)
  {
    if storage == [] then []
    else if InRange(storage[0], q) then [storage[0]] + Filter(storage[1..], q)
    else Filter(storage[1..], q)
  }

  /** Filter keeps exactly the storage's points in range: each such point
      as many times as it is stored, and no other point. */
  lemma {:induction false} FilterKeepsMatching(storage: seq<PricePoint>, q: QueryRange)
    ensures forall p :: multiset(Filter(storage, q))[p] == (if InRange(p, q) then multiset(storage)[p] else 0)
    decreases storage
  {
    if storage != [] {
      FilterKeepsMatching(storage[1..], q);
      assert storage == [storage[0]] + storage[1..];
      assert multiset(storage) == multiset{storage[0]} + multiset(storage[1..]);
      if InRange(storage[0], q) {
        assert multiset(Filter(storage, q)) == multiset{storage[0]} + multiset(Filter(storage[1..], q));
      }
    }
  }

  /** Filter keeps storage order: filtering two runs of inserts is filtering
      each run and concatenating the results. With FilterSingle this fixes
      Filter on every storage. */
  lemma {:induction false} FilterAppend(a: seq<PricePoint>, b: seq<PricePoint>, q: QueryRange)
    ensures Filter(a + b, q) == Filter(a, q) + Filter(b, q)
    decreases a
  {
    if a == [] {
      assert a + b == b;
    } else {
      FilterAppend(a[1..], b, q);
      assert (a + b)[1..] == a[1..] + b;
    }
  }

  /** A single point is kept exactly when its timestamp is in range. */
  lemma FilterSingle(p: PricePoint, q: QueryRange)
    ensures Filter([p], q) == (if InRange(p, q) then [p] else [])
  {
  }

  function FoldStep(acc: (int, int), p: PricePoint): (int, int) {
    (acc.0 + 1, acc.1 + p.price)
  }

  /** `.fold(acc, |acc, p| (acc.0 + 1, acc.1 + p.1))`: adds the number of
      points to the count and the sum of their prices to the sum. */
  function Fold(acc: (int, int), points: seq<PricePoint>): (r: (int, int))
    ensures r == (acc.0 + |points|, acc.1 + PriceSum(points))
    ensures FoldFits(acc, points) ==> IsI32(r.0) && IsI32(r.1)
    decreases points
  {
    if points == [] then acc else Fold(FoldStep(acc, points[0]), points[1..])
  }

  /** The fold's accumulator is a pair of i32: every intermediate count and
      sum, from the initial one to the final one, must be an i32. */
  predicate FoldFits(acc: (int, int), points: seq<PricePoint>)
    decreases points
  {
    && IsI32(acc.0)
    && IsI32(acc.1)
    && (points != [] ==> FoldFits(FoldStep(acc, points[0]), points[1..]))
  }

  /** The query's fold never leaves the i32 range. */
  predicate AccumulatorFits(storage: seq<PricePoint>, q: QueryRange) {
    FoldFits((0, 0), Filter(storage, q))
  }

  /** `handle_avg_query`: 0 for an inverted range or when nothing matches,
      otherwise the sum of the matching prices divided by their number,
      truncated toward zero. It only reads the storage. */
  function AvgQuery(storage: seq<PricePoint>, q: QueryRange): (r: I32)
    requires q.start <= q.end ==> AccumulatorFits(storage, q)
    ensures q.start > q.end ==> r == 0
    ensures q.start <= q.end && MatchCount(storage, q) == 0 ==> r == 0
    ensures q.start <= q.end && MatchCount(storage, q) > 0 ==>
              r == DivTrunc(MatchSum(storage, q), MatchCount(storage, q))
  {
    if q.start > q.end then 0
    else
      var result := Fold((0, 0), Filter(storage, q));
      var count := result.0;
      if count == 0 then 0 else DivTrunc(result.1, count)
  }

  // ---- Properties of the query

  /** Matching distributes over concatenation: a query over two runs of
      inserts counts and sums each run on its own. */
  lemma {:induction false} MatchAppend(a: seq<PricePoint>, b: seq<PricePoint>, q: QueryRange)
    ensures MatchCount(a + b, q) == MatchCount(a, q) + MatchCount(b, q)
    ensures MatchSum(a + b, q) == MatchSum(a, q) + MatchSum(b, q)
    decreases |a|
  {
    if a != [] {
      assert (a + b)[1..] == a[1..] + b;
      MatchAppend(a[1..], b, q);
    } else {
      assert a + b == b;
    }
  }

  /** Point `i` is counted, with its price added to the sum, exactly when its
      timestamp lies in the query range. */
  lemma MatchContribution(storage: seq<PricePoint>, q: QueryRange, i: int)
    requires 0 <= i < |storage|
    ensures MatchCount(storage, q)
         == MatchCount(storage[..i] + storage[i + 1..], q) + (if InRange(storage[i], q) then 1 else 0)
    ensures MatchSum(storage, q)
         == MatchSum(storage[..i] + storage[i + 1..], q) + (if InRange(storage[i], q) then storage[i].price else 0)
  {
    assert storage == storage[..i] + ([storage[i]] + storage[i + 1..]);
    MatchAppend(storage[..i], [storage[i]] + storage[i + 1..], q);
    MatchAppend([storage[i]], storage[i + 1..], q);
    MatchAppend(storage[..i], storage[i + 1..], q);
  }

  /** Both bounds are inclusive: a point stamped exactly `start` or exactly
      `end` of a well-formed range is one of the matches. */
  lemma BoundsInclusive(storage: seq<PricePoint>, q: QueryRange, i: int)
    requires q.start <= q.end
    requires 0 <= i < |storage|
    requires storage[i].timestamp == q.start || storage[i].timestamp == q.end
    ensures MatchCount(storage, q) == MatchCount(storage[..i] + storage[i + 1..], q) + 1
    ensures MatchSum(storage, q) == MatchSum(storage[..i] + storage[i + 1..], q) + storage[i].price
  {
    MatchContribution(storage, q, i);
  }

  /** Nothing matches exactly when no stored timestamp lies in the range. */
  lemma {:induction false} NoMatch(storage: seq<PricePoint>, q: QueryRange)
    ensures MatchCount(storage, q) == 0 <==> forall i :: 0 <= i < |storage| ==> !InRange(storage[i], q)
  {
    if storage != [] {
      NoMatch(storage[1..], q);
      assert forall i :: 1 <= i < |storage| ==> storage[i] == storage[1..][i - 1];
    }
  }

  /** The mean is 0 when no stored timestamp lies in the range, in particular
      for an empty storage. */
  lemma AvgQueryNoMatch(storage: seq<PricePoint>, q: QueryRange)
    requires forall i :: 0 <= i < |storage| ==> !InRange(storage[i], q)
    ensures q.start <= q.end ==> AccumulatorFits(storage, q)
    ensures AvgQuery(storage, q) == 0
  {
    NoMatch(storage, q);
  }

  /** When every matching price lies in `[lo, hi]`, the count times `lo` and
      the count times `hi` bound their sum. */
  lemma {:induction false} MatchSumBetween(storage: seq<PricePoint>, q: QueryRange, lo: int, hi: int)
    requires forall i :: 0 <= i < |storage| && InRange(storage[i], q) ==> lo <= storage[i].price <= hi
    ensures MatchCount(storage, q) * lo <= MatchSum(storage, q) <= MatchCount(storage, q) * hi
  {
    if storage != [] {
      var rest := storage[1..];
      assert forall i :: 0 <= i < |rest| ==> rest[i] == storage[i + 1];
      MatchSumBetween(rest, q, lo, hi);
      var c := MatchCount(rest, q);
      if InRange(storage[0], q) {
        MulSucc(c, lo);
        MulSucc(c, hi);
      }
    }
  }

  /** The mean of the matching prices lies between the smallest and the
      largest of them; so narrowing it to i32 loses nothing. */
  lemma MeanWithinPriceRange(storage: seq<PricePoint>, q: QueryRange, lo: int, hi: int)
    requires q.start <= q.end ==> AccumulatorFits(storage, q)
    requires MatchCount(storage, q) > 0
    requires forall i :: 0 <= i < |storage| && InRange(storage[i], q) ==> lo <= storage[i].price <= hi
    ensures q.start <= q.end ==> lo <= AvgQuery(storage, q) <= hi
  {
    MatchSumBetween(storage, q, lo, hi);
    DivTruncBetween(MatchSum(storage, q), MatchCount(storage, q), lo, hi);
  }

  /** Count and sum of the matches depend only on which points are stored,
      not on the order they were inserted in. */
  lemma {:induction false} MatchIgnoresOrder(a: seq<PricePoint>, b: seq<PricePoint>, q: QueryRange)
    requires multiset(a) == multiset(b)
    ensures MatchCount(a, q) == MatchCount(b, q)
    ensures MatchSum(a, q) == MatchSum(b, q)
    decreases |a|
  {
    if a == [] {
      assert |b| == |multiset(b)| == 0;
    } else {
      var j := MatchingPosition(a, b);
      var b' := b[..j] + b[j + 1..];
      MatchIgnoresOrder(a[1..], b', q);
      MatchContribution(a, q, 0);
      MatchContribution(b, q, j);
    }
  }

  /** The first element of `a` sits somewhere in a permutation `b` of `a`,
      and what is left of both are permutations of each other. */
  lemma MatchingPosition(a: seq<PricePoint>, b: seq<PricePoint>) returns (j: int)
    requires multiset(a) == multiset(b) && a != []
    ensures 0 <= j < |b| && b[j] == a[0]
    ensures multiset(a[1..]) == multiset(b[..j] + b[j + 1..])
  {
    assert a[0] in multiset(b) by {
      assert a[0] in multiset(a);
    }
    j := PositionOf(b, a[0]);
    calc {
      multiset(a[1..]);
      { RemoveOne(a, 0); assert a[..0] + a[1..] == a[1..]; }
      multiset(a) - multiset{a[0]};
      multiset(b) - multiset{b[j]};
      { RemoveOne(b, j); }
      multiset(b[..j] + b[j + 1..]);
    }
  }

  lemma PositionOf(s: seq<PricePoint>, p: PricePoint) returns (j: int)
    requires p in multiset(s)
    ensures 0 <= j < |s| && s[j] == p
  {
    j :| 0 <= j < |s| && s[j] == p;
  }

  /** Taking out the element at `i` takes one copy of it out of the
      multiset. */
  lemma RemoveOne(s: seq<PricePoint>, i: int)
    requires 0 <= i < |s|
    ensures multiset(s[..i] + s[i + 1..]) == multiset(s) - multiset{s[i]}
  {
    assert s == s[..i] + [s[i]] + s[i + 1..];
    assert multiset(s) == multiset(s[..i]) + multiset{s[i]} + multiset(s[i + 1..]);
  }

  /** The mean answered for a store does not depend on the order in which its
      points were inserted (as long as neither order overflows the fold). */
  lemma MeanIgnoresInsertionOrder(a: seq<PricePoint>, b: seq<PricePoint>, q: QueryRange)
    requires multiset(a) == multiset(b)
    requires q.start <= q.end ==> AccumulatorFits(a, q) && AccumulatorFits(b, q)
    ensures AvgQuery(a, q) == AvgQuery(b, q)
  {
    MatchIgnoresOrder(a, b, q);
  }

  // ---- The storage tests, as facts about the model

  lemma ExampleInclusiveOnEdges()
    ensures AvgQuery([PricePoint(1, 100), PricePoint(0, 0)], QueryRange(0, 1)) == 50
  {
  }

  lemma ExampleIgnoreOutsideRange()
    ensures AvgQuery([PricePoint(1, 100), PricePoint(2, 0)], QueryRange(0, 1)) == 100
  {
  }

  lemma ExampleHappyPath()
    ensures var storage := [PricePoint(1, 1), PricePoint(2, 2), PricePoint(3, 3), PricePoint(4, 4)];
            AccumulatorFits(storage, QueryRange(0, 4)) && AvgQuery(storage, QueryRange(0, 4)) == 2
  {
  }

  lemma ExampleFractional()
    ensures AvgQuery([PricePoint(1, 1), PricePoint(2, 2), PricePoint(2, 2)], QueryRange(0, 2)) == 1
  {
  }

  /** -5 / 3 truncates to -1, where a Euclidean division would give -2. */
  lemma ExampleFractionalNegative()
    ensures AvgQuery([PricePoint(1, -1), PricePoint(2, -2), PricePoint(2, -2)], QueryRange(0, 2)) == -1
  {
  }

  lemma ExampleNoInserts()
    ensures AvgQuery([], QueryRange(0, 2)) == 0
  {
  }

  lemma ExampleNoElementsInRange()
    ensures AvgQuery([PricePoint(1, 1), PricePoint(2, 2)], QueryRange(100, 2000)) == 0
  {
  }

  lemma ExampleInvertedRange()
    ensures AvgQuery([PricePoint(1, 1), PricePoint(2, 2)], QueryRange(200, 1)) == 0
  {
  }
}
