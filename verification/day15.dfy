/**
 * Chiton: the lowest total risk of a path through a cave of risk levels,
 * moving up, down, left or right from the top-left cell to the
 * bottom-right one. The cave may be the input tiled `reps` times in both
 * directions, each tile one risk higher per step right or down, wrapping
 * above 9 back to 1. The search is Dijkstra's, with a priority queue of
 * (distance, row, column) tuples and a table of the lowest known cost.
 */
module Day15Chiton {
  import opened Common

  /** The risk levels as read from the input: one row per line, one digit per cell. */
  type Grid = seq<seq<nat>>
  type Cell = (int, int)
  /** A queued position: the cost of the path up to its neighbour, its row and its column. */
  type Entry = (int, int, int)

  const DeltaRow: seq<int> := [-1, 0, 1, 0]
  const DeltaCol: seq<int> := [0, 1, 0, -1]

  /** The neighbour of v in direction j. */
  function Step(v: Cell, j: nat): Cell
    requires j < 4
  {
    (v.0 + DeltaRow[j], v.1 + DeltaCol[j])
  }

  predicate Adjacent(a: Cell, b: Cell)
  {
    Abs(a.0 - b.0) + Abs(a.1 - b.1) == 1
  }

  /** The four directions are exactly the adjacent cells. */
  lemma StepIffAdjacent(a: Cell, b: Cell) returns (j: nat)
    ensures forall k :: 0 <= k < 4 ==> Adjacent(a, Step(a, k))
    ensures Adjacent(a, b) ==> j < 4 && Step(a, j) == b
  {
    j := if b.0 < a.0 then 0 else if b.1 > a.1 then 1 else if b.0 > a.0 then 2 else 3;
  }

  // ---------------------------------------------------------------------------
  // The tiled cave
  // ---------------------------------------------------------------------------

  /** A cave the search can run on: rows, columns and repetitions, each row at least as long as the first. */
  predicate Valid(grid: Grid, reps: int)
  {
    && |grid| > 0 && |grid[0]| > 0 && reps > 0
    && forall i :: 0 <= i < |grid| ==> |grid[i]| >= |grid[0]|
  }

  predicate InCave(grid: Grid, reps: int, v: Cell)
    requires |grid| > 0
  {
    0 <= v.0 < reps * |grid| && 0 <= v.1 < reps * |grid[0]|
  }

  function Target(grid: Grid, reps: int): Cell
    requires |grid| > 0
  {
    (reps * |grid| - 1, reps * |grid[0]| - 1)
  }

  /** A risk above 9 loses 9 until it is at most 9. */
  function Wrap(v: int): (r: int)
    ensures v >= 0 ==> r >= 0
    ensures v >= 1 ==> 1 <= r <= 9
    ensures v <= 9 ==> r == v
    ensures (r - v) % 9 == 0
    decreases v
  {
    if v > 9 then Wrap(v - 9) else v
  }

  /** The risk of a cell of the tiled cave: the input's risk one higher per tile right and per tile down, wrapped. */
  function Risk(grid: Grid, reps: int, v: Cell): nat
    requires Valid(grid, reps) && InCave(grid, reps, v)
  {
    DivMod(v.0, |grid|);
    DivMod(v.1, |grid[0]|);
    Wrap(grid[v.0 % |grid|][v.1 % |grid[0]|] + v.0 / |grid| + v.1 / |grid[0]|)
  }

  lemma DivMod(a: int, n: int)
    requires a >= 0 && n > 0
    ensures 0 <= a % n < n && a / n >= 0
  {
  }

  /** The loop of lines 73-79: the tiled risk of a cell. */
  method TiledRisk(grid: Grid, reps: int, row: int, col: int) returns (val: int)
    requires Valid(grid, reps) && InCave(grid, reps, (row, col))
    ensures val == Risk(grid, reps, (row, col))
  {
    DivMod(row, |grid|);
    DivMod(col, |grid[0]|);
    val := grid[row % |grid|][col % |grid[0]|] + row / |grid| + col / |grid[0]|;
    while val > 9
      invariant Wrap(val) == Risk(grid, reps, (row, col))
    {
      val := val - 9;
    }
  }

  /** Input risks 1 to 9 stay in 1 to 9 on every tile, and agree with the input modulo 9. */
  lemma RiskRange(grid: Grid, reps: int, v: Cell)
    requires Valid(grid, reps) && InCave(grid, reps, v)
    requires forall i, j :: 0 <= i < |grid| && 0 <= j < |grid[i]| ==> 1 <= grid[i][j] <= 9
    ensures 1 <= Risk(grid, reps, v) <= 9
    ensures (Risk(grid, reps, v) - (grid[v.0 % |grid|][v.1 % |grid[0]|] + v.0 / |grid| + v.1 / |grid[0]|)) % 9 == 0
  {
    DivMod(v.0, |grid|);
    DivMod(v.1, |grid[0]|);
  }

  // ---------------------------------------------------------------------------
  // Paths and their lowest total risk
  // ---------------------------------------------------------------------------

  /** A path from the top-left cell through adjacent cells of the cave. */
  ghost predicate IsPath(grid: Grid, reps: int, p: seq<Cell>)
    requires Valid(grid, reps)
  {
    && p != [] && p[0] == (0, 0)
    && (forall i :: 0 <= i < |p| ==> InCave(grid, reps, p[i]))
    && (forall i :: 0 < i < |p| ==> Adjacent(p[i - 1], p[i]))
  }

  /** The total risk of the cells of p, the first one included. */
  function Cost(grid: Grid, reps: int, p: seq<Cell>): nat
    requires Valid(grid, reps) && forall i :: 0 <= i < |p| ==> InCave(grid, reps, p[i])
  {
    if p == [] then 0 else Cost(grid, reps, p[..|p| - 1]) + Risk(grid, reps, p[|p| - 1])
  }

  /** d is the lowest total risk of a path to v. */
  ghost predicate Lowest(grid: Grid, reps: int, v: Cell, d: int)
    requires Valid(grid, reps)
  {
    && (exists p :: IsPath(grid, reps, p) && p[|p| - 1] == v && Cost(grid, reps, p) == d)
    && (forall p :: IsPath(grid, reps, p) && p[|p| - 1] == v ==> d <= Cost(grid, reps, p))
  }

  /** The lowest total risk of a cell is unique. */
  lemma LowestUnique(grid: Grid, reps: int, v: Cell, d: int, e: int)
    requires Valid(grid, reps) && Lowest(grid, reps, v, d) && Lowest(grid, reps, v, e)
    ensures d == e
  {
    var p :| IsPath(grid, reps, p) && p[|p| - 1] == v && Cost(grid, reps, p) == d;
    var q :| IsPath(grid, reps, q) && q[|q| - 1] == v && Cost(grid, reps, q) == e;
  }

  lemma PathPrefix(grid: Grid, reps: int, p: seq<Cell>, k: nat)
    requires Valid(grid, reps) && IsPath(grid, reps, p) && 0 < k <= |p|
    ensures IsPath(grid, reps, p[..k])
  {
  }

  lemma PathExtend(grid: Grid, reps: int, p: seq<Cell>, v: Cell)
    requires Valid(grid, reps) && IsPath(grid, reps, p) && InCave(grid, reps, v) && Adjacent(p[|p| - 1], v)
    ensures IsPath(grid, reps, p + [v])
    ensures Cost(grid, reps, p + [v]) == Cost(grid, reps, p) + Risk(grid, reps, v)
  {
    assert (p + [v])[..|p|] == p;
  }

  /** A path costs at least what a proper prefix of it costs plus the risk of its last cell. */
  lemma {:induction false} CostSplit(grid: Grid, reps: int, p: seq<Cell>, k: nat)
    requires Valid(grid, reps) && (forall i :: 0 <= i < |p| ==> InCave(grid, reps, p[i])) && k < |p|
    ensures Cost(grid, reps, p) >= Cost(grid, reps, p[..k]) + Risk(grid, reps, p[|p| - 1])
    decreases |p|
  {
    var init := p[..|p| - 1];
    if k < |p| - 1 {
      CostSplit(grid, reps, init, k);
      assert init[..k] == p[..k];
      CostMonotone(grid, reps, init);
    }
  }

  lemma CostMonotone(grid: Grid, reps: int, p: seq<Cell>)
    requires Valid(grid, reps) && (forall i :: 0 <= i < |p| ==> InCave(grid, reps, p[i])) && p != []
    ensures Cost(grid, reps, p) >= Risk(grid, reps, p[|p| - 1])
  {
  }

  /** The path along the top row, then down the last column. */
  function Border(grid: Grid, reps: int): (p: seq<Cell>)
    requires Valid(grid, reps)
    ensures p != [] && p[|p| - 1] == Target(grid, reps)
  {
    var h, w := reps * |grid|, reps * |grid[0]|;
    assert h >= 1 && w >= 1 by {
      Positive(reps, |grid|);
      Positive(reps, |grid[0]|);
    }
    seq(w + h - 1, i requires 0 <= i < w + h - 1 => if i < w then (0, i) else (i - w + 1, w - 1))
  }

  lemma Positive(a: int, b: int)
    requires a > 0 && b > 0
    ensures a * b >= b
  {
  }

  lemma BorderIsPath(grid: Grid, reps: int)
    requires Valid(grid, reps)
    ensures IsPath(grid, reps, Border(grid, reps))
  {
    var p := Border(grid, reps);
    Positive(reps, |grid|);
    Positive(reps, |grid[0]|);
    assert p[0] == (0, 0);
  }

  // ---------------------------------------------------------------------------
  // The search state
  // ---------------------------------------------------------------------------

  /** A queued entry is the start, or the cost of a path that ends next to its cell. */
  ghost predicate Grounded(grid: Grid, reps: int, e: Entry)
    requires Valid(grid, reps)
  {
    || e == (0, 0, 0)
    || exists p :: IsPath(grid, reps, p) && Cost(grid, reps, p) == e.0 && Adjacent(p[|p| - 1], (e.1, e.2))
  }

  /** Cell v, if settled, is in the cave and settled at its lowest total risk. */
  ghost predicate SettledLowest(grid: Grid, reps: int, settled: map<Cell, int>, v: Cell)
    requires Valid(grid, reps)
  {
    v in settled ==> InCave(grid, reps, v) && Lowest(grid, reps, v, settled[v])
  }

  /** The j-th neighbour of a settled cell v, if in the cave and unsettled, is queued with v's cost. */
  ghost predicate Frontier(grid: Grid, reps: int, settled: map<Cell, int>, queue: seq<Entry>, v: Cell, j: int)
    requires Valid(grid, reps)
  {
    v in settled && 0 <= j < 4 && InCave(grid, reps, Step(v, j)) && Step(v, j) !in settled ==>
      (settled[v], Step(v, j).0, Step(v, j).1) in queue
  }

  /**
   * What holds between two pops: each settled cost is the lowest; each
   * unsettled cell of the cave next to a settled one is queued with the
   * settled cost; the start is queued until settled; every entry is grounded.
   * The quantifiers fire only on the named predicates, which keeps the
   * facts about paths out of sight until a proof asks for them.
   */
  ghost predicate Search(grid: Grid, reps: int, settled: map<Cell, int>, queue: seq<Entry>)
    requires Valid(grid, reps)
  {
    && (forall v {:trigger SettledLowest(grid, reps, settled, v)} :: SettledLowest(grid, reps, settled, v))
    && (forall v, j {:trigger Frontier(grid, reps, settled, queue, v, j)} :: Frontier(grid, reps, settled, queue, v, j))
    && ((0, 0) !in settled ==> (0, 0, 0) in queue)
    && AllGrounded(grid, reps, queue)
  }

  /** Every queued entry is grounded. */
  ghost predicate AllGrounded(grid: Grid, reps: int, queue: seq<Entry>)
    requires Valid(grid, reps)
  {
    forall e {:trigger Grounded(grid, reps, e)} :: e in queue ==> Grounded(grid, reps, e)
  }

  /** A grounded entry for a cell of the cave is the cost of a path to it, less that cell's risk. */
  lemma GroundedPath(grid: Grid, reps: int, e: Entry) returns (p: seq<Cell>)
    requires Valid(grid, reps) && Grounded(grid, reps, e) && InCave(grid, reps, (e.1, e.2))
    ensures IsPath(grid, reps, p) && p[|p| - 1] == (e.1, e.2)
    ensures Cost(grid, reps, p) == e.0 + Risk(grid, reps, (e.1, e.2))
  {
    if e == (0, 0, 0) {
      p := [(0, 0)];
      assert p[..0] == [];
    } else {
      var q :| IsPath(grid, reps, q) && Cost(grid, reps, q) == e.0 && Adjacent(q[|q| - 1], (e.1, e.2));
      PathExtend(grid, reps, q, (e.1, e.2));
      p := q + [(e.1, e.2)];
    }
  }

  /** The first cell of p that is not settled. */
  lemma FirstUnsettled(p: seq<Cell>, settled: map<Cell, int>) returns (k: nat)
    requires p != [] && p[|p| - 1] !in settled
    ensures k < |p| && p[k] !in settled && forall i :: 0 <= i < k ==> p[i] in settled
  {
    k := 0;
    while p[k] in settled
      invariant k < |p| && forall i :: 0 <= i < k ==> p[i] in settled
      decreases |p| - k
    {
      k := k + 1;
    }
  }

  /** A path to an unsettled cell costs at least the smallest queued distance plus the cell's risk. */
  lemma LowerBound(grid: Grid, reps: int, settled: map<Cell, int>, queue: seq<Entry>, d: int, p: seq<Cell>)
    requires Valid(grid, reps) && Search(grid, reps, settled, queue)
    requires forall x :: x in queue ==> d <= x.0
    requires IsPath(grid, reps, p) && p[|p| - 1] !in settled
    ensures d + Risk(grid, reps, p[|p| - 1]) <= Cost(grid, reps, p)
  {
    var k := FirstUnsettled(p, settled);
    CostSplit(grid, reps, p, k);
    if k > 0 {
      var v := p[k - 1];
      var j := StepIffAdjacent(v, p[k]);
      assert Frontier(grid, reps, settled, queue, v, j);
      assert SettledLowest(grid, reps, settled, v);
      PathPrefix(grid, reps, p, k);
      assert p[..k][k - 1] == v;
    }
  }

  /** The popped entry settles its cell at the lowest cost. */
  lemma PopLowest(grid: Grid, reps: int, settled: map<Cell, int>, queue: seq<Entry>, e: Entry)
    requires Valid(grid, reps) && Search(grid, reps, settled, queue)
    requires e in queue && forall x :: x in queue ==> e.0 <= x.0
    requires InCave(grid, reps, (e.1, e.2)) && (e.1, e.2) !in settled
    ensures Lowest(grid, reps, (e.1, e.2), e.0 + Risk(grid, reps, (e.1, e.2)))
  {
    var p := GroundedPath(grid, reps, e);
    forall q | IsPath(grid, reps, q) && q[|q| - 1] == (e.1, e.2)
      ensures e.0 + Risk(grid, reps, (e.1, e.2)) <= Cost(grid, reps, q)
    {
      LowerBound(grid, reps, settled, queue, e.0, q);
    }
  }

  /** A popped entry for a settled cell never costs less than the settled cost. */
  lemma PopSettled(grid: Grid, reps: int, settled: map<Cell, int>, queue: seq<Entry>, e: Entry)
    requires Valid(grid, reps) && Search(grid, reps, settled, queue)
    requires e in queue && InCave(grid, reps, (e.1, e.2))
    ensures (e.1, e.2) in settled ==> settled[(e.1, e.2)] <= e.0 + Risk(grid, reps, (e.1, e.2))
  {
    var p := GroundedPath(grid, reps, e);
    assert SettledLowest(grid, reps, settled, (e.1, e.2));
  }

  /** What a multiset removal tells about membership. */
  lemma Removed<T>(queue: seq<T>, rest: seq<T>, e: T)
    requires multiset(queue) == multiset(rest) + multiset{e}
    ensures e in queue
    ensures forall x :: x in rest ==> x in queue
    ensures forall x :: x in queue && x != e ==> x in rest
  {
    assert e in multiset(queue);
    forall x | x in rest
      ensures x in queue
    {
      assert multiset(rest)[x] > 0;
      assert multiset(queue)[x] > 0;
    }
    forall x | x in queue && x != e
      ensures x in rest
    {
      assert multiset(queue)[x] > 0;
      assert multiset(rest)[x] == multiset(queue)[x];
    }
  }

  /** Dropping a popped entry whose cell is outside the cave or settled keeps the search state. */
  lemma SkipKeeps(grid: Grid, reps: int, settled: map<Cell, int>, queue: seq<Entry>, e: Entry, rest: seq<Entry>)
    requires Valid(grid, reps) && Search(grid, reps, settled, queue)
    requires multiset(queue) == multiset(rest) + multiset{e}
    requires !InCave(grid, reps, (e.1, e.2)) || (e.1, e.2) in settled
    ensures Search(grid, reps, settled, rest)
  {
    Removed(queue, rest, e);
    forall v, j
      ensures Frontier(grid, reps, settled, rest, v, j)
    {
      assert Frontier(grid, reps, settled, queue, v, j);
    }
  }

  /** The four entries pushed for the neighbours of cell u. */
  function Pushes(cost: int, u: Cell): (r: seq<Entry>)
    ensures |r| == 4 && forall j :: 0 <= j < 4 ==> r[j] == (cost, Step(u, j).0, Step(u, j).1)
  {
    [(cost, u.0 - 1, u.1), (cost, u.0, u.1 + 1), (cost, u.0 + 1, u.1), (cost, u.0, u.1 - 1)]
  }

  /** The entries queued for the neighbours of a cell reached by a path are grounded. */
  lemma PushesGrounded(grid: Grid, reps: int, queue: seq<Entry>, e: Entry, rest: seq<Entry>)
    requires Valid(grid, reps) && AllGrounded(grid, reps, queue)
    requires multiset(queue) == multiset(rest) + multiset{e}
    requires InCave(grid, reps, (e.1, e.2))
    ensures AllGrounded(grid, reps, rest + Pushes(e.0 + Risk(grid, reps, (e.1, e.2)), (e.1, e.2)))
  {
    var u := (e.1, e.2);
    var pushed := Pushes(e.0 + Risk(grid, reps, u), u);
    Removed(queue, rest, e);
    var p := GroundedPath(grid, reps, e);
    var _ := StepIffAdjacent(u, u);
    forall j | 0 <= j < 4
      ensures Grounded(grid, reps, pushed[j])
    {
      assert Adjacent(p[|p| - 1], Step(u, j));
    }
  }

  /** Settling the popped cell at its lowest cost and queueing its neighbours keeps the search state. */
  lemma SettleKeeps(grid: Grid, reps: int, settled: map<Cell, int>, queue: seq<Entry>, e: Entry, rest: seq<Entry>)
    requires Valid(grid, reps) && Search(grid, reps, settled, queue)
    requires multiset(queue) == multiset(rest) + multiset{e}
    requires InCave(grid, reps, (e.1, e.2)) && (e.1, e.2) !in settled
    requires Lowest(grid, reps, (e.1, e.2), e.0 + Risk(grid, reps, (e.1, e.2)))
    ensures Search(grid, reps, settled[(e.1, e.2) := e.0 + Risk(grid, reps, (e.1, e.2))],
                   rest + Pushes(e.0 + Risk(grid, reps, (e.1, e.2)), (e.1, e.2)))
  {
    var u := (e.1, e.2);
    var cost := e.0 + Risk(grid, reps, u);
    var s := settled[u := cost];
    var pushed := Pushes(cost, u);
    var q := rest + pushed;
    Removed(queue, rest, e);
    PushesGrounded(grid, reps, queue, e, rest);
    forall v
      ensures SettledLowest(grid, reps, s, v)
    {
      assert SettledLowest(grid, reps, settled, v);
    }
    forall v, j
      ensures Frontier(grid, reps, s, q, v, j)
    {
      if v in s && 0 <= j < 4 && InCave(grid, reps, Step(v, j)) && Step(v, j) !in s {
        if v == u {
          assert pushed[j] in q;
        } else {
          assert Frontier(grid, reps, settled, queue, v, j);
        }
      }
    }
    assert (0, 0) !in s ==> (0, 0, 0) in q;
  }

  /** Once the queue is empty, every cell on a path is settled; in particular the bottom-right one. */
  lemma QueueHoldsTarget(grid: Grid, reps: int, settled: map<Cell, int>, queue: seq<Entry>)
    requires Valid(grid, reps) && Search(grid, reps, settled, queue)
    ensures Target(grid, reps) in settled || queue != []
  {
    var p := Border(grid, reps);
    BorderIsPath(grid, reps);
    if Target(grid, reps) !in settled {
      var k := FirstUnsettled(p, settled);
      if k > 0 {
        var j := StepIffAdjacent(p[k - 1], p[k]);
        assert Frontier(grid, reps, settled, queue, p[k - 1], j);
      }
    }
  }

  // ---------------------------------------------------------------------------
  // Lower bounds by a potential, and the docstring example
  // ---------------------------------------------------------------------------

  /**
   * A bound per cell that the start's risk meets, and that rises by at most
   * a cell's risk over each step into that cell.
   */
  ghost predicate Potential(grid: Grid, reps: int, bound: Cell -> int)
    requires Valid(grid, reps)
  {
    && InCave(grid, reps, (0, 0)) && bound((0, 0)) <= Risk(grid, reps, (0, 0))
    && forall u, j :: InCave(grid, reps, u) && 0 <= j < 4 && InCave(grid, reps, Step(u, j)) ==>
         bound(Step(u, j)) <= bound(u) + Risk(grid, reps, Step(u, j))
  }

  /** Every path costs at least the potential of its last cell. */
  lemma {:induction false} PotentialBound(grid: Grid, reps: int, bound: Cell -> int, p: seq<Cell>)
    requires Valid(grid, reps) && Potential(grid, reps, bound) && IsPath(grid, reps, p)
    ensures bound(p[|p| - 1]) <= Cost(grid, reps, p)
    decreases |p|
  {
    if |p| == 1 {
      assert p[..0] == [];
    } else {
      var init := p[..|p| - 1];
      PathPrefix(grid, reps, p, |p| - 1);
      PotentialBound(grid, reps, bound, init);
      assert Adjacent(p[|p| - 2], p[|p| - 1]);
      var j := StepIffAdjacent(init[|init| - 1], p[|p| - 1]);
    }
  }

  /** The lowest total risk of each cell of the 3x3 cave of the docstring, its own risk included. */
  function SmallCaveDistance(v: Cell): int
  {
    if v.0 == 0 then (if v.1 == 0 then 1 else if v.1 == 1 then 6 else 12)
    else if v.0 == 1 then (if v.1 == 0 then 5 else if v.1 == 1 then 7 else 15)
    else (if v.1 == 0 then 10 else if v.1 == 1 then 11 else 20)
  }

  lemma SmallCaveRisk(grid: Grid, v: Cell)
    requires grid == [[1, 5, 6], [4, 2, 8], [5, 4, 9]]
    requires InCave(grid, 1, v)
    ensures Risk(grid, 1, v) == grid[v.0][v.1]
  {
    assert v.0 % 3 == v.0 && v.0 / 3 == 0;
    assert v.1 % 3 == v.1 && v.1 / 3 == 0;
  }

  lemma SmallCavePotential(grid: Grid)
    requires grid == [[1, 5, 6], [4, 2, 8], [5, 4, 9]]
    ensures Valid(grid, 1) && Potential(grid, 1, SmallCaveDistance)
  {
    SmallCaveRisk(grid, (0, 0));
    forall u, j | InCave(grid, 1, u) && 0 <= j < 4 && InCave(grid, 1, Step(u, j))
      ensures SmallCaveDistance(Step(u, j)) <= SmallCaveDistance(u) + Risk(grid, 1, Step(u, j))
    {
      SmallCaveRisk(grid, Step(u, j));
    }
  }

  /** Down, right, down, right: a path of total risk 20 through the docstring's 3x3 cave. */
  lemma SmallCavePath(grid: Grid) returns (p: seq<Cell>)
    requires grid == [[1, 5, 6], [4, 2, 8], [5, 4, 9]]
    ensures Valid(grid, 1) && IsPath(grid, 1, p) && p[|p| - 1] == (2, 2) && Cost(grid, 1, p) == 20
  {
    var start := [(0, 0)];
    SmallCaveRisk(grid, (0, 0));
    assert start[..0] == [];
    SmallCaveRisk(grid, (1, 0));
    PathExtend(grid, 1, start, (1, 0));
    var down := start + [(1, 0)];
    SmallCaveRisk(grid, (1, 1));
    PathExtend(grid, 1, down, (1, 1));
    var right := down + [(1, 1)];
    SmallCaveRisk(grid, (2, 1));
    PathExtend(grid, 1, right, (2, 1));
    var downAgain := right + [(2, 1)];
    SmallCaveRisk(grid, (2, 2));
    PathExtend(grid, 1, downAgain, (2, 2));
    p := downAgain + [(2, 2)];
  }

  /**
   * The docstring's 3x3 cave: the lowest total risk of the bottom-right cell
   * is 20, so the search answers 20 - 1 = 19.
   */
  lemma SmallCaveExample(grid: Grid)
    requires grid == [[1, 5, 6], [4, 2, 8], [5, 4, 9]]
    ensures Valid(grid, 1) && Target(grid, 1) == (2, 2)
    ensures Lowest(grid, 1, (2, 2), 20)
  {
    SmallCavePotential(grid);
    var p := SmallCavePath(grid);
    forall q | IsPath(grid, 1, q) && q[|q| - 1] == (2, 2)
      ensures 20 <= Cost(grid, 1, q)
    {
      PotentialBound(grid, 1, SmallCaveDistance, q);
    }
  }

  // ---------------------------------------------------------------------------
  // find_lowest_risk_level
  // ---------------------------------------------------------------------------

  /** Tuples compare element by element, as Python compares them. */
  predicate EntryLe(a: Entry, b: Entry)
  {
    a.0 < b.0 || (a.0 == b.0 && (a.1 < b.1 || (a.1 == b.1 && a.2 <= b.2)))
  }

  /** `heapq.heappop`: removes and returns the smallest entry. */
  method HeapPop(queue: seq<Entry>) returns (e: Entry, rest: seq<Entry>)
    requires queue != []
    ensures multiset(queue) == multiset(rest) + multiset{e}
    ensures e in queue && forall x :: x in queue ==> EntryLe(e, x)
    ensures |rest| == |queue| - 1
  {
    var m := 0;
    for i := 1 to |queue|
      invariant 0 <= m < |queue|
      invariant forall k :: 0 <= k < i ==> EntryLe(queue[m], queue[k])
    {
      if !EntryLe(queue[m], queue[i]) {
        m := i;
      }
    }
    e := queue[m];
    rest := queue[..m] + queue[m + 1..];
    assert queue == queue[..m] + [e] + queue[m + 1..];
  }

  /** The search states: settled costs and queues between which Search holds. */
  ghost function Searching(grid: Grid, reps: int): iset<(map<Cell, int>, seq<Entry>)>
    requires Valid(grid, reps)
  {
    iset st: (map<Cell, int>, seq<Entry>) | Search(grid, reps, st.0, st.1)
  }

  /** Popping an entry outside the cave or of a settled cell keeps the search state. */
  lemma SearchSkip(grid: Grid, reps: int, settled: map<Cell, int>, queue: seq<Entry>, e: Entry, rest: seq<Entry>)
    requires Valid(grid, reps) && (settled, queue) in Searching(grid, reps)
    requires multiset(queue) == multiset(rest) + multiset{e}
    requires !InCave(grid, reps, (e.1, e.2)) || (e.1, e.2) in settled
    ensures (settled, rest) in Searching(grid, reps)
  {
    SkipKeeps(grid, reps, settled, queue, e, rest);
  }

  /** A popped entry never undercuts the settled cost of its cell. */
  lemma SearchPop(grid: Grid, reps: int, settled: map<Cell, int>, queue: seq<Entry>, e: Entry)
    requires Valid(grid, reps) && (settled, queue) in Searching(grid, reps)
    requires e in queue && InCave(grid, reps, (e.1, e.2))
    ensures (e.1, e.2) in settled ==> settled[(e.1, e.2)] <= e.0 + Risk(grid, reps, (e.1, e.2))
  {
    PopSettled(grid, reps, settled, queue, e);
  }

  /** Settling the cell of the least entry and queueing its neighbours keeps the search state. */
  lemma SearchSettle(grid: Grid, reps: int, settled: map<Cell, int>, queue: seq<Entry>, e: Entry, rest: seq<Entry>,
                     settled': map<Cell, int>, queue': seq<Entry>)
    requires Valid(grid, reps) && (settled, queue) in Searching(grid, reps)
    requires multiset(queue) == multiset(rest) + multiset{e}
    requires e in queue && forall x :: x in queue ==> EntryLe(e, x)
    requires InCave(grid, reps, (e.1, e.2)) && (e.1, e.2) !in settled
    requires settled' == settled[(e.1, e.2) := e.0 + Risk(grid, reps, (e.1, e.2))]
    requires queue' == rest + Pushes(e.0 + Risk(grid, reps, (e.1, e.2)), (e.1, e.2))
    ensures (settled', queue') in Searching(grid, reps)
  {
    PopLowest(grid, reps, settled, queue, e);
    SettleKeeps(grid, reps, settled, queue, e, rest);
  }

  /** The queue runs dry only once the target is settled, with its lowest total risk. */
  lemma SearchEnd(grid: Grid, reps: int, settled: map<Cell, int>, queue: seq<Entry>)
    requires Valid(grid, reps) && (settled, queue) in Searching(grid, reps)
    requires Target(grid, reps) in settled || queue == []
    ensures Target(grid, reps) in settled
    ensures Lowest(grid, reps, Target(grid, reps), settled[Target(grid, reps)])
  {
    QueueHoldsTarget(grid, reps, settled, queue);
    assert SettledLowest(grid, reps, settled, Target(grid, reps));
  }

  /** The cells of the tiled cave. */
  ghost function Cells(grid: Grid, reps: int): set<Cell>
    requires Valid(grid, reps)
  {
    set i, j | 0 <= i < reps * |grid| && 0 <= j < reps * |grid[0]| :: (i, j)
  }

  /** The cost table holds exactly the settled costs. */
  ghost predicate Mirror(costMap: array2<Option<int>>, settled: map<Cell, int>)
    reads costMap
  {
    forall i, j {:trigger costMap[i, j]} :: 0 <= i < costMap.Length0 && 0 <= j < costMap.Length1 ==>
      costMap[i, j] == if (i, j) in settled then Some(settled[(i, j)]) else None
  }

  /** Every cell of the cave is one of its cells. */
  lemma CellsCover(grid: Grid, reps: int)
    requires Valid(grid, reps)
    ensures forall v :: InCave(grid, reps, v) ==> v in Cells(grid, reps)
  {
    forall v | InCave(grid, reps, v)
      ensures v in Cells(grid, reps)
    {
      var (i, j) := v;
      assert (i, j) in Cells(grid, reps);
    }
  }

  /** Queues the four neighbours of (row, col), in the order of the delta tables, at the given cost. */
  method PushNeighbours(queue: seq<Entry>, cost: int, row: int, col: int) returns (r: seq<Entry>)
    ensures r == queue + Pushes(cost, (row, col))
  {
    r := queue;
    for delta := 0 to 4
      invariant r == queue + Pushes(cost, (row, col))[..delta]
    {
      r := r + [(cost, row + DeltaRow[delta], col + DeltaCol[delta])];
    }
  }

  /**
   * One popped entry of `find_lowest_risk_level`: an entry outside the
   * cave, or one that does not undercut its cell's table entry, is dropped;
   * otherwise its cell is settled at the entry's cost plus the cell's risk.
   */
  method Visit(grid: Grid, reps: int, costMap: array2<Option<int>>, ghost settled: map<Cell, int>,
               ghost queue: seq<Entry>, e: Entry, rest: seq<Entry>)
    returns (cost: int, settles: bool, ghost settled': map<Cell, int>)
    requires Valid(grid, reps)
    requires costMap.Length0 == reps * |grid| && costMap.Length1 == reps * |grid[0]|
    requires Mirror(costMap, settled) && (settled, queue) in Searching(grid, reps)
    requires multiset(queue) == multiset(rest) + multiset{e}
    requires e in queue && forall x :: x in queue ==> EntryLe(e, x)
    modifies costMap
    ensures Mirror(costMap, settled')
    ensures !settles ==> settled' == settled && (settled, rest) in Searching(grid, reps)
    ensures settles ==> && InCave(grid, reps, (e.1, e.2)) && (e.1, e.2) !in settled
                        && cost == e.0 + Risk(grid, reps, (e.1, e.2))
                        && settled' == settled[(e.1, e.2) := cost]
                        && (settled', rest + Pushes(cost, (e.1, e.2))) in Searching(grid, reps)
  {
    var dist, row, col := e.0, e.1, e.2;
    settled' := settled;
    if row < 0 || row >= costMap.Length0 || col < 0 || col >= costMap.Length1 {
      SearchSkip(grid, reps, settled, queue, e, rest);
      return 0, false, settled';
    }
    var val := TiledRisk(grid, reps, row, col);
    cost := dist + val;
    SearchPop(grid, reps, settled, queue, e);
    if costMap[row, col].Some? && cost >= costMap[row, col].value {
      SearchSkip(grid, reps, settled, queue, e, rest);
      return cost, false, settled';
    }
    assert (row, col) !in settled;
    settled' := settled[(row, col) := cost];
    SearchSettle(grid, reps, settled, queue, e, rest, settled', rest + Pushes(cost, (row, col)));
    costMap[row, col] := Some(cost);
    settles := true;
  }

  /**
   * `find_lowest_risk_level`: Dijkstra's search over the cave tiled `reps`
   * times; the result is the lowest total risk of a path to the
   * bottom-right cell, less the risk of the start cell.
   */
  method FindLowestRiskLevel(grid: Grid, reps: int) returns (r: Result<int>)
    requires |grid| > 0 ==> forall i :: 0 <= i < |grid| ==> |grid[i]| >= |grid[0]|
    ensures !Valid(grid, reps) ==> r == Err(IndexError)
    ensures Valid(grid, reps) ==> r.Ok? && Lowest(grid, reps, Target(grid, reps), r.value + grid[0][0])
  {
    if grid == [] {
      return Err(IndexError);
    }
    var numRows, numCols := |grid|, |grid[0]|;
    if reps <= 0 || numCols == 0 {
      // The tiled cave has no cell: the start is popped, lies outside and is
      // dropped, and indexing the last row of the empty table fails.
      return Err(IndexError);
    }
    var height, width := reps * numRows, reps * numCols;
    Positive(reps, numRows);
    Positive(reps, numCols);
    var costMap := new Option<int>[height, width]((i, j) => None);
    var queue: seq<Entry> := [(0, 0, 0)];
    ghost var settled: map<Cell, int> := map[];
    ghost var target := Target(grid, reps);
    assert target == (height - 1, width - 1);
    // The cells not settled yet, which bound the number of rounds.
    ghost var todo := Cells(grid, reps);
    CellsCover(grid, reps);
    while queue != []
      invariant costMap.Length0 == height && costMap.Length1 == width
      invariant Mirror(costMap, settled)
      invariant (settled, queue) in Searching(grid, reps)
      invariant forall v {:trigger v in todo} :: InCave(grid, reps, v) && v !in settled ==> v in todo
      decreases todo, |queue|
    {
      var e, rest := HeapPop(queue);
      ghost var settled';
      var cost, settles;
      cost, settles, settled' := Visit(grid, reps, costMap, settled, queue, e, rest);
      queue := rest;
      if !settles {
        continue;
      }
      var row, col := e.1, e.2;
      assert (row, col) in todo;
      settled := settled';
      todo := todo - {(row, col)};
      if row == height - 1 && col == width - 1 {
        // `break`, then the subtraction after the loop.
        assert (row, col) == target && costMap[row, col] == Some(cost);
        SearchEnd(grid, reps, settled, rest + Pushes(cost, (row, col)));
        return Ok(costMap[height - 1, width - 1].value - grid[0][0]);
      }
      queue := PushNeighbours(queue, cost, row, col);
    }
    SearchEnd(grid, reps, settled, queue);
    // The table entry is set: the `TypeError` of subtracting from `None` cannot happen.
    assert target in settled && target == (height - 1, width - 1);
    assert costMap[height - 1, width - 1] == Some(settled[target]);
    r := Ok(costMap[height - 1, width - 1].value - grid[0][0]);
  }
}
