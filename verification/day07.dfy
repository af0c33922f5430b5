/**
 * Crab alignment: the total fuel to move every crab to a target position,
 * and a scan over the targets 1, 2, ... that stops at the first target that
 * does not improve on the previous one.
 */
module Day7Crabs {
  import opened Common

  /** Part two's cost: the k-th step costs k, so n steps cost 1 + 2 + ... + n; no steps below 1. */
  function CostPart2(n: int): int
  {
    if n > 0 then CostPart2(n - 1) + n else 0
  }

  /** Part two's cost on a distance. */
  function Triangular(d: nat): int
  {
    CostPart2(d)
  }

  /** Part one's cost: one unit per step. */
  function Linear(d: nat): int
  {
    d
  }

  /** The closed form: n steps cost n(n+1)/2. */
  lemma {:induction false} CostPart2ClosedForm(n: int)
    ensures n >= 0 ==> 2 * CostPart2(n) == n * (n + 1)
    ensures n <= 0 ==> CostPart2(n) == 0
  {
    if n > 0 {
      CostPart2ClosedForm(n - 1);
      assert n * (n + 1) == (n - 1) * n + 2 * n;
    }
  }

  lemma {:induction false} CostPart2Examples()
    ensures CostPart2(0) == 0 && CostPart2(1) == 1 && CostPart2(2) == 3
    ensures CostPart2(1000) == 500500
  {
    CostPart2ClosedForm(1000);
  }

  /** The fuel to move every crab to the target, each paying the cost of its distance. */
  function Total(positions: seq<int>, cost: nat -> int, target: int): int
  {
    if positions == [] then 0 else cost(Abs(positions[0] - target)) + Total(positions[1..], cost, target)
  }

  /** The largest position; an empty list has none. */
  function MaxOf(positions: seq<int>): (m: int)
    requires positions != []
    ensures forall k :: 0 <= k < |positions| ==> positions[k] <= m
    ensures exists k :: 0 <= k < |positions| && positions[k] == m
  {
    if |positions| == 1 then positions[0]
    else
      var rest := MaxOf(positions[1..]);
      assert positions[1..][0] == positions[1];
      if positions[0] >= rest then positions[0] else rest
  }

  /** The totals fall strictly from target 0 up to target t. */
  ghost predicate Descends(positions: seq<int>, cost: nat -> int, t: nat)
  {
    forall j: nat :: j < t ==> Total(positions, cost, j + 1) < Total(positions, cost, j)
  }

  /**
   * Where a scan over targets 1 .. stop-1 ends: at t = 0 or a scanned
   * target, with every step up to t an improvement, and the next target, if
   * it was scanned, not an improvement.
   */
  ghost predicate ScanStops(positions: seq<int>, cost: nat -> int, stop: int, t: nat)
  {
    (t == 0 || t < stop)
    && Descends(positions, cost, t)
    && (t + 1 < stop ==> Total(positions, cost, t + 1) >= Total(positions, cost, t))
  }

  /** What a scan over targets 1 .. stop-1 returns: the total at the target where it stops. */
  ghost predicate ScanOutcome(positions: seq<int>, cost: nat -> int, stop: int, minimum: int)
  {
    exists t: nat :: ScanStops(positions, cost, stop, t) && minimum == Total(positions, cost, t)
  }

  /**
   * The scan: start from the total at target 0, then take each target
   * below `stop` while it improves on the last.
   */
  method Scan(positions: seq<int>, cost: nat -> int, stop: int) returns (minimum: int)
    ensures ScanOutcome(positions, cost, stop, minimum)
  {
    minimum := Total(positions, cost, 0);
    ghost var t: nat := 0;
    var i := 1;
    var improving := true;
    while improving && i < stop
      invariant t + 1 == i
      invariant t == 0 || t < stop
      invariant minimum == Total(positions, cost, t)
      invariant Descends(positions, cost, t)
      invariant !improving ==> Total(positions, cost, t + 1) >= Total(positions, cost, t)
      decreases stop - i, improving
    {
      var next := Total(positions, cost, i);
      if next < minimum {
        minimum := next;
        t := i;
        i := i + 1;
      } else {
        improving := false;
      }
    }
    assert ScanStops(positions, cost, stop, t);
  }

  /**
   * `optimal_position` as written: the scan covers targets 1 .. max-1, and
   * `max` of an empty list is a ValueError.
   */
  method OptimalPosition(positions: seq<int>, cost: nat -> int) returns (r: Result<int>)
    ensures r.Err? <==> positions == []
    ensures r.Err? ==> r.error == ValueError
    ensures r.Ok? ==> ScanOutcome(positions, cost, MaxOf(positions), r.value)
  {
    if positions == [] {
      return Err(ValueError);
    }
    var m := Scan(positions, cost, MaxOf(positions));
    r := Ok(m);
  }

  /**
   * The scan extended to the largest position itself: for a cost whose
   * increments never shrink, the result is the least total over every
   * target from 0 to the largest position.
   */
  method OptimalPositionCorrected(positions: seq<int>, cost: nat -> int) returns (r: Result<int>)
    ensures r.Err? <==> positions == []
    ensures r.Err? ==> r.error == ValueError
    ensures r.Ok? ==> ScanOutcome(positions, cost, MaxOf(positions) + 1, r.value)
    ensures r.Ok? && Convex(cost) ==>
      forall j: nat :: j <= MaxOf(positions) ==> r.value <= Total(positions, cost, j)
  {
    if positions == [] {
      return Err(ValueError);
    }
    var m := Scan(positions, cost, MaxOf(positions) + 1);
    ghost var t: nat :| ScanStops(positions, cost, MaxOf(positions) + 1, t) && m == Total(positions, cost, t);
    if Convex(cost) {
      ScanFindsMinimum(positions, cost, MaxOf(positions) + 1, t);
    }
    r := Ok(m);
  }

  /** A scan result never exceeds the total at target 0. */
  lemma {:induction false} NeverWorseThanStart(positions: seq<int>, cost: nat -> int, stop: int, minimum: int)
    requires ScanOutcome(positions, cost, stop, minimum)
    ensures minimum <= Total(positions, cost, 0)
  {
    var t: nat :| ScanStops(positions, cost, stop, t) && minimum == Total(positions, cost, t);
    DescendsBelow(positions, cost, t, 0);
  }

  /** Along a falling run, a later total is at most an earlier one. */
  lemma {:induction false} DescendsBelow(positions: seq<int>, cost: nat -> int, t: nat, j: nat)
    requires Descends(positions, cost, t) && j <= t
    ensures Total(positions, cost, t) <= Total(positions, cost, j)
    decreases t - j
  {
    if j < t {
      DescendsBelow(positions, cost, t, j + 1);
    }
  }

  /** A scan has exactly one outcome. */
  lemma {:induction false} ScanOutcomeUnique(positions: seq<int>, cost: nat -> int, stop: int, a: int, b: int)
    requires ScanOutcome(positions, cost, stop, a) && ScanOutcome(positions, cost, stop, b)
    ensures a == b
  {
    var s: nat :| ScanStops(positions, cost, stop, s) && a == Total(positions, cost, s);
    var t: nat :| ScanStops(positions, cost, stop, t) && b == Total(positions, cost, t);
    assert s < t ==> Total(positions, cost, s + 1) < Total(positions, cost, s);
    assert t < s ==> Total(positions, cost, t + 1) < Total(positions, cost, t);
  }

  /** The extra cost of step d + 1 over d steps. */
  function Delta(cost: nat -> int, d: nat): int
  {
    cost(d + 1) - cost(d)
  }

  /**
   * The absence of local minima the scan relies on: the increments of the
   * cost never shrink, and the first one is not negative.
   */
  ghost predicate Convex(cost: nat -> int)
  {
    0 <= Delta(cost, 0)
    && forall d: nat, e: nat :: d <= e ==> Delta(cost, d) <= Delta(cost, e)
  }

  /** Both costs of the puzzle have no local minima. */
  lemma {:induction false} CostsAreConvex()
    ensures Convex(Linear)
    ensures Convex(Triangular)
  {
    forall d: nat
      ensures Delta(Triangular, d) == d + 1
    {
      assert CostPart2(d + 1) == CostPart2(d) + d + 1;
    }
  }

  /** For one crab at p, the cost increments grow along the targets. */
  lemma {:induction false} OneCrabConvex(cost: nat -> int, p: int, i: int)
    requires Convex(cost)
    ensures cost(Abs(p - (i + 1))) - cost(Abs(p - i)) <= cost(Abs(p - (i + 2))) - cost(Abs(p - (i + 1)))
  {
    if i >= p {
      var d: nat := i - p;
      assert Delta(cost, d) <= Delta(cost, d + 1);
    } else if i + 2 <= p {
      var d: nat := p - i - 2;
      assert Delta(cost, d) <= Delta(cost, d + 1);
    } else {
      assert 0 <= Delta(cost, 0);
    }
  }

  /** The increments of the total grow along the targets. */
  lemma {:induction false} TotalConvex(positions: seq<int>, cost: nat -> int, i: int)
    requires Convex(cost)
    ensures Total(positions, cost, i + 1) - Total(positions, cost, i)
      <= Total(positions, cost, i + 2) - Total(positions, cost, i + 1)
  {
    if positions != [] {
      OneCrabConvex(cost, positions[0], i);
      TotalConvex(positions[1..], cost, i);
    }
  }

  /** Once the total stops falling, it never falls again. */
  lemma {:induction false} RiseStays(positions: seq<int>, cost: nat -> int, t: nat, j: nat)
    requires Convex(cost)
    requires Total(positions, cost, t + 1) >= Total(positions, cost, t)
    requires t <= j
    ensures Total(positions, cost, j + 1) >= Total(positions, cost, j)
    ensures Total(positions, cost, j) >= Total(positions, cost, t)
    decreases j - t
  {
    if t < j {
      RiseStays(positions, cost, t, j - 1);
      TotalConvex(positions, cost, j - 1);
    }
  }

  /** With a convex cost the scan stops at the least total over targets 0 .. stop-1. */
  lemma {:induction false} ScanFindsMinimum(positions: seq<int>, cost: nat -> int, stop: int, t: nat)
    requires Convex(cost) && ScanStops(positions, cost, stop, t)
    ensures forall j: nat :: j < stop ==> Total(positions, cost, t) <= Total(positions, cost, j)
  {
    forall j: nat | j < stop
      ensures Total(positions, cost, t) <= Total(positions, cost, j)
    {
      if j <= t {
        DescendsBelow(positions, cost, t, j);
      } else {
        RiseStays(positions, cost, t, j);
      }
    }
  }

  /** As written, one crab at 1 costs 1: the target 1, which costs 0, is never tried. */
  lemma {:induction false} AsWrittenMissesLargestPosition(minimum: int)
    requires ScanOutcome([1], Linear, MaxOf([1]), minimum)
    ensures minimum == 1 && Total([1], Linear, 1) == 0
  {
    var t: nat :| ScanStops([1], Linear, MaxOf([1]), t) && minimum == Total([1], Linear, t);
    assert t == 0;
  }

  /** The documented examples with one unit per step. */
  lemma {:induction false} ExampleSmallLinear(a: int)
    requires ScanOutcome([0, 1, 2], Linear, MaxOf([0, 1, 2]), a)
    ensures a == 2
  {
    var small := [0, 1, 2];
    assert MaxOf(small) == 2;
    assert Total(small, Linear, 0) == 3 && Total(small, Linear, 1) == 2;
    assert ScanStops(small, Linear, 2, 1);
    ScanOutcomeUnique(small, Linear, 2, a, 2);
  }

  /** The documented small example with part two's cost. */
  lemma {:induction false} ExampleSmallTriangular(a: int)
    requires ScanOutcome([0, 1, 2], Triangular, MaxOf([0, 1, 2]), a)
    ensures a == 2
  {
    var small := [0, 1, 2];
    assert MaxOf(small) == 2;
    assert CostPart2(2) == 3;
    assert Total(small, Triangular, 0) == 4 && Total(small, Triangular, 1) == 2;
    assert ScanStops(small, Triangular, 2, 1);
    ScanOutcomeUnique(small, Triangular, 2, a, 2);
  }

  lemma {:induction false} ExampleCrabsLinear(b: int)
    requires ScanOutcome([16, 1, 2, 0, 4, 2, 7, 1, 2, 14], Linear, MaxOf([16, 1, 2, 0, 4, 2, 7, 1, 2, 14]), b)
    ensures b == 37
  {
    var crabs := [16, 1, 2, 0, 4, 2, 7, 1, 2, 14];
    CrabsMax();
    CrabsTotalsLow();
    CrabsTotalsHigh();
    assert Descends(crabs, Linear, 2);
    assert ScanStops(crabs, Linear, 16, 2);
    ScanOutcomeUnique(crabs, Linear, 16, b, 37);
  }

  lemma CrabsMax()
    ensures MaxOf([16, 1, 2, 0, 4, 2, 7, 1, 2, 14]) == 16
  {
    var crabs := [16, 1, 2, 0, 4, 2, 7, 1, 2, 14];
    assert forall k :: 0 <= k < |crabs| ==> crabs[k] <= 16;
    assert crabs[0] == 16;
  }

  lemma CrabsTotalsLow()
    ensures Total([16, 1, 2, 0, 4, 2, 7, 1, 2, 14], Linear, 0) == 49 && Total([16, 1, 2, 0, 4, 2, 7, 1, 2, 14], Linear, 1) == 41
  {
  }

  lemma CrabsTotalsHigh()
    ensures Total([16, 1, 2, 0, 4, 2, 7, 1, 2, 14], Linear, 2) == 37 && Total([16, 1, 2, 0, 4, 2, 7, 1, 2, 14], Linear, 3) == 39
  {
  }
}
