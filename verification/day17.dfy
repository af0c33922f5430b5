/**
 * Trick Shot: a probe leaves (0, 0) with an initial velocity. Each step it
 * moves by its velocity; then drag pulls the horizontal velocity one
 * towards zero and gravity lowers the vertical velocity by one. The search
 * tries every velocity of a grid, follows each shot while it stays inside a
 * bounding box, and reports the highest point reached by any shot that
 * lands in the target area, and how many shots land there.
 */
module Day17Probe {
  import opened Common

  /** `-sys.maxsize - 1` on a 64-bit platform: the "no height yet" value. */
  const MinInt: int := -0x8000_0000_0000_0000

  /** The target area (x_start, x_stop, y_start, y_stop); every bound is inclusive. */
  datatype Target = Target(xStart: int, xStop: int, yStart: int, yStop: int)

  /** A probe: position and velocity. */
  datatype Probe = Probe(x: int, y: int, vx: int, vy: int)

  type Velocity = (int, int)

  function Launch(v: Velocity): Probe
  {
    Probe(0, 0, v.0, v.1)
  }

  /** One step of the flight: move, then gravity and drag. */
  function Step(p: Probe): Probe
  {
    Probe(p.x + p.vx, p.y + p.vy,
          if p.vx > 0 then p.vx - 1 else if p.vx < 0 then p.vx + 1 else 0,
          p.vy - 1)
  }

  /** The box a shot is followed in; it ends once the probe is outside before a step. */
  predicate InBounds(space: int, maxY: int, p: Probe)
  {
    -space <= p.x <= space && -space <= p.y <= maxY
  }

  predicate InTarget(t: Target, p: Probe)
  {
    t.xStart <= p.x <= t.xStop && t.yStart <= p.y <= t.yStop
  }

  /**
   * The rest of a shot from p, where `peak` is the highest y after the
   * steps taken so far: the highest y when the probe lands in the target
   * after some step, None when it leaves the box first. The shot ends:
   * while rising the vertical velocity shrinks, and once falling the probe
   * loses height every step until it drops below the box.
   */
  function Flight(t: Target, space: int, maxY: int, p: Probe, peak: int): Option<int>
    decreases if p.vy >= 0 then p.vy + 1 else 0, p.y + space
  {
    if !InBounds(space, maxY, p) then None
    else
      var q := Step(p);
      var top := Max(peak, q.y);
      if InTarget(t, q) then Some(top) else Flight(t, space, maxY, q, top)
  }

  /** The shot with initial velocity v, from the start. */
  function Shot(t: Target, space: int, maxY: int, v: Velocity): Option<int>
  {
    Flight(t, space, maxY, Launch(v), MinInt)
  }

  /** Follows one shot, as the inner `while` loop does. */
  method Fly(t: Target, space: int, maxY: int, vx: int, vy: int) returns (r: Option<int>)
    ensures r == Shot(t, space, maxY, (vx, vy))
  {
    var curX, curY, velX, velY := 0, 0, vx, vy;
    var currentMax := MinInt;
    r := None;
    while -space <= curX <= space && -space <= curY <= maxY
      invariant Flight(t, space, maxY, Probe(curX, curY, velX, velY), currentMax) == Shot(t, space, maxY, (vx, vy))
      invariant r == None
      decreases if velY >= 0 then velY + 1 else 0, curY + space
    {
      ghost var p, peak := Probe(curX, curY, velX, velY), currentMax;
      curX := curX + velX;
      curY := curY + velY;
      currentMax := Max(currentMax, curY);
      velY := velY - 1;
      if velX > 0 {
        velX := velX - 1;
      } else if velX < 0 {
        velX := velX + 1;
      }
      assert Step(p) == Probe(curX, curY, velX, velY);
      if t.xStart <= curX <= t.xStop && t.yStart <= curY <= t.yStop {
        r := Some(currentMax);
        break;
      }
    }
  }

  // ---------------------------------------------------------------------
  // The grid of velocities and what the search reports about it. The
  // counting and the running maximum are stated for any outcome function
  // `shots` (the outcome of each velocity's shot); the search uses Shots.

  type Outcomes = Velocity -> Option<int>

  /** The outcome of every velocity's shot. */
  function Shots(t: Target, space: int, maxY: int): Outcomes
  {
    v => Shot(t, space, maxY, v)
  }

  /** No shot's peak is below MinInt, the height the running maximum starts from. */
  ghost predicate AboveMinInt(shots: Outcomes)
  {
    forall v :: shots(v).Some? ==> MinInt <= shots(v).value
  }

  /** The number of velocities (x, b) with -space <= b < y whose shot lands. */
  function ColumnHits(shots: Outcomes, space: int, x: int, y: int): nat
    decreases y + space
  {
    if y <= -space then 0
    else ColumnHits(shots, space, x, y - 1) + if shots((x, y - 1)).Some? then 1 else 0
  }

  /** The highest peak of those shots; MinInt when there is none. */
  function ColumnTop(shots: Outcomes, space: int, x: int, y: int): int
    decreases y + space
  {
    if y <= -space then MinInt
    else
      var top := ColumnTop(shots, space, x, y - 1);
      var h := shots((x, y - 1));
      if h.Some? then Max(top, h.value) else top
  }

  /** The number of velocities of the first n columns (0 <= x < n) whose shot lands. */
  function GridHits(shots: Outcomes, space: int, n: int): nat
    decreases n
  {
    if n <= 0 then 0 else GridHits(shots, space, n - 1) + ColumnHits(shots, space, n - 1, space)
  }

  /** The highest peak of those shots; MinInt when there is none. */
  function GridTop(shots: Outcomes, space: int, n: int): int
    decreases n
  {
    if n <= 0 then MinInt else Max(GridTop(shots, space, n - 1), ColumnTop(shots, space, n - 1, space))
  }

  /** The number of velocities x in range(0, space), y in range(-space, space) whose shot lands in the target. */
  function HitCount(t: Target, space: int, maxY: int): nat
  {
    GridHits(Shots(t, space, maxY), space, space)
  }

  /** The highest point reached by a shot of the grid that lands in the target; MinInt when none does. */
  function MaxHeight(t: Target, space: int, maxY: int): int
  {
    GridTop(Shots(t, space, maxY), space, space)
  }

  /** The velocities (x, b) with -space <= b < y whose shot lands. */
  function ColumnSet(shots: Outcomes, space: int, x: int, y: int): set<Velocity>
  {
    set b | -space <= b < y && shots((x, b)).Some? :: (x, b)
  }

  /** The velocities x in range(0, n), y in range(-space, space) whose shot lands. */
  function GridSet(shots: Outcomes, space: int, n: int): set<Velocity>
  {
    set a, b | 0 <= a < n && -space <= b < space && shots((a, b)).Some? :: (a, b)
  }

  /** Every velocity of the search whose shot lands in the target. */
  function HitSet(t: Target, space: int, maxY: int): set<Velocity>
  {
    GridSet(Shots(t, space, maxY), space, space)
  }

  lemma ColumnSetMember(shots: Outcomes, space: int, x: int, y: int, v: Velocity)
    ensures v in ColumnSet(shots, space, x, y) <==> v.0 == x && -space <= v.1 < y && shots(v).Some?
  {
    if v.0 == x && -space <= v.1 < y && shots(v).Some? {
      assert v == (x, v.1);
    }
  }

  lemma GridSetMember(shots: Outcomes, space: int, n: int, v: Velocity)
    ensures v in GridSet(shots, space, n) <==> 0 <= v.0 < n && -space <= v.1 < space && shots(v).Some?
  {
    if 0 <= v.0 < n && -space <= v.1 < space && shots(v).Some? {
      assert v == (v.0, v.1);
    }
  }

  /** The grid of n columns is that of n - 1 columns and the last column, which share nothing. */
  lemma GridSetSplit(shots: Outcomes, space: int, n: int)
    requires 0 < n
    ensures GridSet(shots, space, n) == GridSet(shots, space, n - 1) + ColumnSet(shots, space, n - 1, space)
    ensures GridSet(shots, space, n - 1) * ColumnSet(shots, space, n - 1, space) == {}
  {
    var all, before, column := GridSet(shots, space, n), GridSet(shots, space, n - 1), ColumnSet(shots, space, n - 1, space);
    forall v
      ensures v in all <==> v in before || v in column
      ensures !(v in before && v in column)
    {
      GridSetMember(shots, space, n, v);
      GridSetMember(shots, space, n - 1, v);
      ColumnSetMember(shots, space, n - 1, space, v);
    }
  }

  lemma {:induction false} ColumnCard(shots: Outcomes, space: int, x: int, y: int)
    ensures |ColumnSet(shots, space, x, y)| == ColumnHits(shots, space, x, y)
    decreases y + space
  {
    if y <= -space {
      assert ColumnSet(shots, space, x, y) == {};
    } else {
      ColumnCard(shots, space, x, y - 1);
      var before := ColumnSet(shots, space, x, y - 1);
      if shots((x, y - 1)).Some? {
        assert ColumnSet(shots, space, x, y) == before + {(x, y - 1)};
        assert (x, y - 1) !in before;
      } else {
        assert ColumnSet(shots, space, x, y) == before;
      }
    }
  }

  lemma {:induction false} GridCard(shots: Outcomes, space: int, n: int)
    ensures |GridSet(shots, space, n)| == GridHits(shots, space, n)
    decreases n
  {
    if n <= 0 {
      assert GridSet(shots, space, n) == {};
    } else {
      GridCard(shots, space, n - 1);
      ColumnCard(shots, space, n - 1, space);
      GridSetSplit(shots, space, n);
    }
  }

  /** Each velocity of the grid is counted at most once: the count is the number of distinct velocities that hit. */
  lemma CountIsHitSet(t: Target, space: int, maxY: int)
    ensures HitCount(t, space, maxY) == |HitSet(t, space, maxY)|
  {
    GridCard(Shots(t, space, maxY), space, space);
  }

  lemma {:induction false} ColumnHitsBound(shots: Outcomes, space: int, x: int, y: int)
    requires -space <= y
    ensures ColumnHits(shots, space, x, y) <= y + space
    decreases y + space
  {
    if y > -space {
      ColumnHitsBound(shots, space, x, y - 1);
    }
  }

  lemma {:induction false} GridHitsBound(shots: Outcomes, space: int, n: int)
    requires 0 <= n && 0 <= space
    ensures GridHits(shots, space, n) <= n * (2 * space)
  {
    if n > 0 {
      GridHitsBound(shots, space, n - 1);
      ColumnHitsBound(shots, space, n - 1, space);
      assert (n - 1) * (2 * space) + 2 * space == n * (2 * space);
    }
  }

  /** At most one hit per velocity of the search_space * 2 search_space grid; none for an empty grid. */
  lemma CountBound(t: Target, space: int, maxY: int)
    ensures 0 <= space ==> HitCount(t, space, maxY) <= space * (2 * space)
    ensures space <= 0 ==> HitCount(t, space, maxY) == 0
  {
    if 0 <= space {
      GridHitsBound(Shots(t, space, maxY), space, space);
    }
  }

  /** A shot's peak never drops below the peak it starts with. */
  lemma {:induction false} FlightAtLeast(t: Target, space: int, maxY: int, p: Probe, peak: int)
    ensures Flight(t, space, maxY, p, peak).Some? ==> Flight(t, space, maxY, p, peak).value >= peak
    decreases if p.vy >= 0 then p.vy + 1 else 0, p.y + space
  {
    if InBounds(space, maxY, p) && !InTarget(t, Step(p)) {
      FlightAtLeast(t, space, maxY, Step(p), Max(peak, Step(p).y));
    }
  }

  lemma ShotsAboveMinInt(t: Target, space: int, maxY: int)
    ensures AboveMinInt(Shots(t, space, maxY))
  {
    forall v | Shots(t, space, maxY)(v).Some?
      ensures MinInt <= Shots(t, space, maxY)(v).value
    {
      FlightAtLeast(t, space, maxY, Launch(v), MinInt);
    }
  }

  lemma {:induction false} ColumnTopBound(shots: Outcomes, space: int, x: int, y: int)
    ensures MinInt <= ColumnTop(shots, space, x, y)
    ensures forall b :: -space <= b < y && shots((x, b)).Some? ==> shots((x, b)).value <= ColumnTop(shots, space, x, y)
    decreases y + space
  {
    if y > -space {
      ColumnTopBound(shots, space, x, y - 1);
    }
  }

  /** The column's highest peak is MinInt when nothing lands, and the peak of the shot b otherwise. */
  lemma {:induction false} ColumnTopAttained(shots: Outcomes, space: int, x: int, y: int) returns (b: int)
    requires AboveMinInt(shots)
    ensures ColumnSet(shots, space, x, y) == {} ==> ColumnTop(shots, space, x, y) == MinInt
    ensures ColumnSet(shots, space, x, y) != {} ==> -space <= b < y && shots((x, b)) == Some(ColumnTop(shots, space, x, y))
    decreases y + space
  {
    b := y;
    if y <= -space {
      assert ColumnSet(shots, space, x, y) == {};
    } else {
      b := ColumnTopAttained(shots, space, x, y - 1);
      var before := ColumnTop(shots, space, x, y - 1);
      var h := shots((x, y - 1));
      if h.Some? {
        assert (x, y - 1) in ColumnSet(shots, space, x, y);
        if h.value >= before {
          b := y - 1;
        } else {
          assert before != MinInt;
        }
      } else {
        assert ColumnSet(shots, space, x, y) == ColumnSet(shots, space, x, y - 1);
      }
    }
  }

  lemma {:induction false} GridTopBound(shots: Outcomes, space: int, n: int)
    ensures MinInt <= GridTop(shots, space, n)
    ensures forall v :: v in GridSet(shots, space, n) ==> shots(v).Some? && shots(v).value <= GridTop(shots, space, n)
    decreases n
  {
    if n > 0 {
      GridTopBound(shots, space, n - 1);
      ColumnTopBound(shots, space, n - 1, space);
      forall v | v in GridSet(shots, space, n)
        ensures shots(v).Some? && shots(v).value <= GridTop(shots, space, n)
      {
        GridSetMember(shots, space, n, v);
        GridSetMember(shots, space, n - 1, v);
        if v.0 == n - 1 {
          assert v == (n - 1, v.1);
        }
      }
    } else {
      forall v | v in GridSet(shots, space, n)
        ensures false
      {
        GridSetMember(shots, space, n, v);
      }
    }
  }

  /** The grid's highest peak is MinInt when nothing lands, and the peak of the shot v otherwise. */
  lemma {:induction false} GridTopAttained(shots: Outcomes, space: int, n: int) returns (v: Velocity)
    requires AboveMinInt(shots)
    ensures GridSet(shots, space, n) == {} ==> GridTop(shots, space, n) == MinInt
    ensures GridSet(shots, space, n) != {} ==> v in GridSet(shots, space, n) && shots(v) == Some(GridTop(shots, space, n))
    decreases n
  {
    v := (n, 0);
    if n <= 0 {
      assert GridSet(shots, space, n) == {};
    } else {
      v := GridTopAttained(shots, space, n - 1);
      GridTopBound(shots, space, n - 1);
      ColumnTopBound(shots, space, n - 1, space);
      var b := ColumnTopAttained(shots, space, n - 1, space);
      var before, column := GridSet(shots, space, n - 1), ColumnSet(shots, space, n - 1, space);
      var g, c := GridTop(shots, space, n - 1), ColumnTop(shots, space, n - 1, space);
      GridSetSplit(shots, space, n);
      if column != {} && (c > g || before == {}) {
        v := (n - 1, b);
        ColumnSetMember(shots, space, n - 1, space, v);
      }
    }
  }

  /**
   * The reported height is the highest point of the shots that land in the
   * target: no such shot goes higher, one of them reaches it, and it is
   * MinInt when no shot lands.
   */
  lemma MaxHeightIsHighest(t: Target, space: int, maxY: int)
    ensures forall v :: v in HitSet(t, space, maxY) ==>
              Shot(t, space, maxY, v).Some? && Shot(t, space, maxY, v).value <= MaxHeight(t, space, maxY)
    ensures HitSet(t, space, maxY) == {} ==> MaxHeight(t, space, maxY) == MinInt
    ensures HitSet(t, space, maxY) != {} ==>
              exists v :: v in HitSet(t, space, maxY) && Shot(t, space, maxY, v) == Some(MaxHeight(t, space, maxY))
  {
    ShotsAboveMinInt(t, space, maxY);
    GridTopBound(Shots(t, space, maxY), space, space);
    var v := GridTopAttained(Shots(t, space, maxY), space, space);
  }

  /**
   * The inner `for` loop: flies every velocity (x, y) with
   * -space <= y < space, on top of the running maximum and count.
   */
  method SearchColumn(t: Target, space: int, maxY: int, x: int, maxHeight0: int, count0: nat)
    returns (maxHeight: int, count: nat)
    requires 0 <= space && MinInt <= maxHeight0
    ensures maxHeight == Max(maxHeight0, ColumnTop(Shots(t, space, maxY), space, x, space))
    ensures count == count0 + ColumnHits(Shots(t, space, maxY), space, x, space)
  {
    maxHeight, count := maxHeight0, count0;
    var y := -space;
    while y < space
      invariant -space <= y <= space
      invariant maxHeight == Max(maxHeight0, ColumnTop(Shots(t, space, maxY), space, x, y))
      invariant count == count0 + ColumnHits(Shots(t, space, maxY), space, x, y)
    {
      var r := Fly(t, space, maxY, x, y);
      if r.Some? {
        maxHeight := Max(maxHeight, r.value);
        count := count + 1;
      }
      y := y + 1;
    }
  }

  /**
   * The search of find_possible_velocities: every velocity of the grid is
   * flown; the highest peak of a hit and the number of hits are returned.
   */
  method FindPossibleVelocities(t: Target, space: int, maxY: int) returns (maxHeight: int, count: nat)
    ensures maxHeight == MaxHeight(t, space, maxY)
    ensures count == HitCount(t, space, maxY)
  {
    maxHeight := MinInt;
    count := 0;
    var x := 0;
    while x < space
      invariant 0 <= x && (x <= space || x == 0)
      invariant MinInt <= maxHeight == GridTop(Shots(t, space, maxY), space, x)
      invariant count == GridHits(Shots(t, space, maxY), space, x)
    {
      maxHeight, count := SearchColumn(t, space, maxY, x, maxHeight, count);
      x := x + 1;
    }
  }

  // ---------------------------------------------------------------------
  // The trajectory in closed form

  /** The probe after k steps, ignoring the box and the target. */
  function After(p: Probe, k: nat): Probe
  {
    if k == 0 then p else Step(After(p, k - 1))
  }

  /** 1 + 2 + ... + n. */
  function Tri(n: nat): nat
  {
    if n == 0 then 0 else n + Tri(n - 1)
  }

  lemma {:induction false} TriTwice(n: nat)
    ensures 2 * Tri(n) == n * (n + 1)
  {
    if n > 0 {
      TriTwice(n - 1);
      assert n * (n + 1) == (n - 1) * n + 2 * n;
    }
  }

  lemma {:induction false} TriMonotone(m: nat, n: nat)
    requires m <= n
    ensures Tri(m) <= Tri(n)
    decreases n - m
  {
    if m < n {
      TriMonotone(m, n - 1);
    }
  }

  /** The distance covered in k steps from speed v, losing one unit of speed per step: k v - (0 + 1 + ... + (k - 1)). */
  function Rise(v: int, k: nat): int
  {
    k * (v + 1) - Tri(k)
  }

  /** Height and vertical velocity after k steps: gravity alone. */
  lemma {:induction false} VerticalAfter(v: Velocity, k: nat)
    ensures After(Launch(v), k).y == Rise(v.1, k)
    ensures After(Launch(v), k).vy == v.1 - k
  {
    if k > 0 {
      VerticalAfter(v, k - 1);
      assert k * (v.1 + 1) == (k - 1) * (v.1 + 1) + v.1 + 1;
    }
  }

  /** Horizontal position and velocity after k steps of a shot to the right: drag stops it after v.0 steps. */
  lemma {:induction false} HorizontalAfter(v: Velocity, k: nat)
    requires 0 <= v.0
    ensures After(Launch(v), k).vx == Max(v.0 - k, 0)
    ensures After(Launch(v), k).x == if k <= v.0 then Rise(v.0, k) else Tri(v.0)
  {
    if k > 0 {
      HorizontalAfter(v, k - 1);
      assert k * (v.0 + 1) == (k - 1) * (v.0 + 1) + v.0 + 1;
      if k == v.0 + 1 {
        TriTwice(v.0);
      }
    }
  }

  lemma {:induction false} SameSigns(a: int, b: int)
    requires (0 <= a && 0 <= b) || (a <= 0 && b <= 0)
    ensures 0 <= a * b
  {
  }

  lemma {:induction false} ProductSigns(a: int, b: int)
    ensures (0 <= a && 0 <= b) || (a <= 0 && b <= 0) ==> 0 <= a * b
    ensures 1 <= a && b <= -1 ==> a * b <= -a
  {
    if (0 <= a && 0 <= b) || (a <= 0 && b <= 0) {
      SameSigns(a, b);
    }
    if 1 <= a && b <= -1 {
      SameSigns(a, -(b + 1));
      assert a * (-(b + 1)) == -(a * b) - a;
    }
  }

  /** Starting at speed v >= 0, no distance covered exceeds the apex 1 + ... + v. */
  lemma {:induction false} RiseAtMost(v: int, k: nat)
    requires 0 <= v
    ensures Rise(v, k) <= Tri(v)
  {
    TriTwice(k);
    TriTwice(v);
    ProductSigns(v - k, v - k + 1);
    assert v * (v + 1) - 2 * (k * (v + 1)) + k * (k + 1) == (v - k) * (v - k + 1);
  }

  /** The apex is reached after v and after v + 1 steps. */
  lemma {:induction false} RiseApex(v: nat)
    ensures Rise(v, v) == Tri(v) && Rise(v, v + 1) == Tri(v)
  {
    TriTwice(v);
    assert (v + 1) * (v + 1) == v * (v + 1) + (v + 1);
  }

  /** Thrown up at speed v >= 0, the probe is at or above its start for the first 2 v + 1 steps and back at -(v + 1) after 2 v + 2. */
  lemma {:induction false} RiseReturns(v: int, k: nat)
    requires 0 <= v
    ensures k <= 2 * v + 1 ==> 0 <= Rise(v, k)
    ensures 2 * v + 2 <= k ==> Rise(v, k) <= -(v + 1)
    ensures k == 2 * v + 2 ==> Rise(v, k) == -(v + 1)
  {
    TriTwice(k);
    var d := 2 * v + 1 - k;
    assert k * (k + 1) == k * k + k;
    assert k * d == k * (2 * v + 1) - k * k;
    assert 2 * (k * (v + 1)) == k * (2 * v + 1) + k;
    assert 2 * Rise(v, k) == k * d;
    ProductSigns(k, d);
  }

  /** Thrown down (v < 0), the probe is below its start after every step. */
  lemma {:induction false} RiseFalls(v: int, k: nat)
    requires v < 0 && 1 <= k
    ensures Rise(v, k) <= -1
  {
    ProductSigns(k, v + 1);
  }

  /** The highest y after steps i + 1 .. k. */
  function HighestAfter(p: Probe, i: nat, k: nat): int
    requires i < k
    decreases k - i
  {
    if i + 1 == k then After(p, k).y else Max(After(p, i + 1).y, HighestAfter(p, i + 1, k))
  }

  lemma {:induction false} HighestAfterBounds(p: Probe, i: nat, k: nat, j: nat, top: int)
    requires i < j <= k
    ensures After(p, j).y <= HighestAfter(p, i, k)
    ensures (forall m: nat :: i < m <= k ==> After(p, m).y <= top) ==> HighestAfter(p, i, k) <= top
    decreases k - i
  {
    if i + 1 < k {
      HighestAfterBounds(p, i + 1, k, if j == i + 1 then k else j, top);
    }
  }

  /** A shot that never lands in the target after step i is not reported. */
  lemma {:induction false} FlightMisses(t: Target, space: int, maxY: int, p: Probe, i: nat, peak: int)
    requires forall j: nat :: i < j ==> !InTarget(t, After(p, j))
    ensures Flight(t, space, maxY, After(p, i), peak) == None
    decreases if After(p, i).vy >= 0 then After(p, i).vy + 1 else 0, After(p, i).y + space
  {
    var q := After(p, i);
    if InBounds(space, maxY, q) {
      assert Step(q) == After(p, i + 1);
      FlightMisses(t, space, maxY, p, i + 1, Max(peak, Step(q).y));
    }
  }

  /** A reported peak is at most the highest point of the trajectory after step i. */
  lemma {:induction false} FlightBelow(t: Target, space: int, maxY: int, p: Probe, i: nat, peak: int, top: int)
    requires forall j: nat :: i < j ==> After(p, j).y <= top
    ensures Flight(t, space, maxY, After(p, i), peak).Some? ==> Flight(t, space, maxY, After(p, i), peak).value <= Max(peak, top)
    decreases if After(p, i).vy >= 0 then After(p, i).vy + 1 else 0, After(p, i).y + space
  {
    var q := After(p, i);
    if InBounds(space, maxY, q) {
      assert Step(q) == After(p, i + 1);
      FlightBelow(t, space, maxY, p, i + 1, Max(peak, Step(q).y), top);
    }
  }

  /**
   * A shot that stays in the box before each step and first lands in the
   * target after step k reports the highest y of steps i + 1 .. k.
   */
  lemma {:induction false} FlightHits(t: Target, space: int, maxY: int, p: Probe, i: nat, peak: int, k: nat)
    requires i < k && InTarget(t, After(p, k))
    requires forall j: nat :: i < j < k ==> !InTarget(t, After(p, j))
    requires forall j: nat :: i <= j < k ==> InBounds(space, maxY, After(p, j))
    ensures Flight(t, space, maxY, After(p, i), peak) == Some(Max(peak, HighestAfter(p, i, k)))
    decreases k - i
  {
    var q := After(p, i);
    assert InBounds(space, maxY, q);
    assert Step(q) == After(p, i + 1);
    if i + 1 < k {
      FlightHits(t, space, maxY, p, i + 1, Max(peak, Step(q).y), k);
    }
  }

  /** With the target below the start, a shot thrown up at speed -y_start or more passes over it and falls past it. */
  lemma HighShotMisses(t: Target, space: int, maxY: int, v: Velocity)
    requires t.yStart <= t.yStop < 0 && -t.yStart <= v.1
    ensures Shot(t, space, maxY, v) == None
  {
    forall j: nat | 0 < j
      ensures !InTarget(t, After(Launch(v), j))
    {
      VerticalAfter(v, j);
      RiseReturns(v.1, j);
    }
    FlightMisses(t, space, maxY, Launch(v), 0, MinInt);
  }

  /** With the target below the start, no shot that lands goes higher than 1 + 2 + ... + (-y_start - 1). */
  lemma ShotPeakBound(t: Target, space: int, maxY: int, v: Velocity)
    requires t.yStart <= t.yStop < 0
    ensures Shot(t, space, maxY, v).Some? ==> Shot(t, space, maxY, v).value <= Tri(-t.yStart - 1)
  {
    var top := if v.1 < 0 then -1 else Tri(v.1);
    if -t.yStart <= v.1 {
      HighShotMisses(t, space, maxY, v);
    } else {
      forall j: nat | 0 < j
        ensures After(Launch(v), j).y <= top
      {
        VerticalAfter(v, j);
        if v.1 < 0 {
          RiseFalls(v.1, j);
        } else {
          RiseAtMost(v.1, j);
        }
      }
      FlightBelow(t, space, maxY, Launch(v), 0, MinInt, top);
      if 0 <= v.1 {
        TriMonotone(v.1, -t.yStart - 1);
      }
    }
  }

  /** Step j of the trick shot: inside the search space and above the target before landing, on it at the end. */
  lemma TrickShotAt(t: Target, space: int, maxY: int, vx: nat, top: nat, p: Probe, j: nat)
    requires t.yStart <= t.yStop < 0 && top == -t.yStart - 1 && p == Launch((vx, top)) && j <= 2 * top + 2
    requires t.xStart <= Tri(vx) <= t.xStop && vx <= 2 * top + 2 && Tri(vx) <= space && Tri(top) <= maxY
    ensures j < 2 * top + 2 ==> InBounds(space, maxY, After(p, j)) && !InTarget(t, After(p, j))
    ensures j == 2 * top + 2 ==> InTarget(t, After(p, j))
    ensures After(p, j).y <= Tri(top)
  {
    TrickShotStep(t, vx, top, p, j);
    if j == 2 * top + 2 {
      assert vx <= j;
    }
  }

  lemma TrickShotStep(t: Target, vx: nat, top: nat, p: Probe, j: nat)
    requires t.yStart <= t.yStop < 0 && top == -t.yStart - 1 && p == Launch((vx, top)) && j <= 2 * top + 2
    ensures 0 <= After(p, j).x <= Tri(vx)
    ensures vx <= j ==> After(p, j).x == Tri(vx)
    ensures j < 2 * top + 2 ==> 0 <= After(p, j).y <= Tri(top)
    ensures j == 2 * top + 2 ==> After(p, j).y == t.yStart
    ensures j == top + 1 ==> After(p, j).y == Tri(top)
  {
    VerticalAfter((vx, top), j);
    HorizontalAfter((vx, top), j);
    RiseReturns(top, j);
    RiseAtMost(top, j);
    RiseApex(top);
    RiseApex(vx);
    if j <= vx {
      RiseReturns(vx, j);
      RiseAtMost(vx, j);
    }
  }

  /** The shot (vx, -y_start - 1) lands on the target's bottom row after peaking at 1 + ... + (-y_start - 1). */
  lemma TrickShotLands(t: Target, space: int, maxY: int, vx: nat, top: nat)
    requires t.yStart <= t.yStop < 0 && top == -t.yStart - 1
    requires t.xStart <= Tri(vx) <= t.xStop && vx <= 2 * top + 2
    requires Tri(vx) <= space && Tri(top) <= maxY
    ensures Shot(t, space, maxY, (vx, top)) == Some(Tri(top))
  {
    var k: nat := 2 * top + 2;
    var p := Launch((vx, top));
    forall j: nat | j <= k
      ensures j < k ==> InBounds(space, maxY, After(p, j)) && !InTarget(t, After(p, j))
      ensures j == k ==> InTarget(t, After(p, j))
      ensures After(p, j).y <= Tri(top)
    {
      TrickShotAt(t, space, maxY, vx, top, p, j);
    }
    FlightHits(t, space, maxY, p, 0, MinInt, k);
    TrickShotStep(t, vx, top, p, top + 1);
    HighestAfterBounds(p, 0, k, top + 1, Tri(top));
    assert After(p, 0) == p;
    assert Max(MinInt, HighestAfter(p, 0, k)) == Tri(top);
  }

  /**
   * The best shot when the target lies below the start: thrown up at
   * speed -y_start - 1 it comes back to y = 0 at speed y_start + 1 and
   * lands on the target's bottom row, having peaked at 1 + 2 + ... +
   * (-y_start - 1); a horizontal speed vx whose drag stops it inside the
   * target's columns in time puts it there.
   */
  lemma TrickShot(t: Target, space: int, maxY: int, vx: nat)
    requires t.yStart <= t.yStop < 0
    requires t.xStart <= Tri(vx) <= t.xStop && vx <= -2 * t.yStart
    requires vx < space && Tri(vx) <= space && -t.yStart - 1 < space && Tri(-t.yStart - 1) <= maxY
    ensures MaxHeight(t, space, maxY) == Tri(-t.yStart - 1)
  {
    var top: nat := -t.yStart - 1;
    var v := (vx as int, top as int);
    TrickShotLands(t, space, maxY, vx, top);
    GridSetMember(Shots(t, space, maxY), space, space, v);
    MaxHeightIsHighest(t, space, maxY);
    var w :| w in HitSet(t, space, maxY) && Shot(t, space, maxY, w) == Some(MaxHeight(t, space, maxY));
    ShotPeakBound(t, space, maxY, w);
  }

  /** find_possible_velocities((20, 30, -10, -5)) reports 45 as the highest point, with search_space 200 or 500. */
  lemma ExampleSmallTarget(space: int, maxY: int)
    requires 21 <= space && 45 <= maxY
    ensures MaxHeight(Target(20, 30, -10, -5), space, maxY) == 45
  {
    TriTwice(6);
    TriTwice(9);
    TrickShot(Target(20, 30, -10, -5), space, maxY, 6);
  }

  /** find_possible_velocities((135, 155, -102, -78)) reports 5151 as the highest point. */
  lemma ExampleLargeTarget(space: int, maxY: int)
    requires 136 <= space && 5151 <= maxY
    ensures MaxHeight(Target(135, 155, -102, -78), space, maxY) == 5151
  {
    TriTwice(16);
    TriTwice(101);
    TrickShot(Target(135, 155, -102, -78), space, maxY, 16);
  }
}
