/**
 * Smoke basin: a height map as a list of rows. Low points are the cells
 * lower than every neighbour above, right, below and left inside the map;
 * basins are the regions of cells other than height 9 connected through
 * those neighbours.
 */
module Day9Basins {
  import opened Common

  type HeightMap = seq<seq<int>>

  /** A cell as (row, column). */
  type Pos = (int, int)

  /** The four neighbours, in the order up, right, down, left. */
  const DeltaRow: seq<int> := [-1, 0, 1, 0]
  const DeltaCol: seq<int> := [0, 1, 0, -1]

  function Neighbour(p: Pos, d: nat): Pos
    requires d < 4
  {
    (p.0 + DeltaRow[d], p.1 + DeltaCol[d])
  }

  /** Inside the first `cols` columns of the map. */
  predicate InGrid(hm: HeightMap, cols: int, p: Pos)
  {
    0 <= p.0 < |hm| && 0 <= p.1 < cols
  }

  /** Every row has at least `cols` cells, so every cell in the grid can be read. */
  predicate Covers(hm: HeightMap, cols: int)
  {
    forall r :: 0 <= r < |hm| ==> |hm[r]| >= cols
  }

  /** The cell exists in the list of rows. */
  predicate Readable(hm: HeightMap, p: Pos)
  {
    0 <= p.0 < |hm| && 0 <= p.1 < |hm[p.0]|
  }

  /**
   * The height of a cell. The specifications only use it on cells that
   * exist; the 0 for a missing cell is never part of a result.
   */
  function Height(hm: HeightMap, p: Pos): int
  {
    if Readable(hm, p) then hm[p.0][p.1] else 0
  }

  /*
   * find_risk_levels
   */

  /** The neighbour in direction d is outside the grid or strictly higher. */
  predicate LowerThan(hm: HeightMap, cols: int, p: Pos, d: nat)
    requires d < 4
  {
    InGrid(hm, cols, Neighbour(p, d)) ==> Height(hm, Neighbour(p, d)) > Height(hm, p)
  }

  /** Strictly lower than every neighbour inside the grid. */
  predicate IsLow(hm: HeightMap, cols: int, p: Pos)
  {
    forall d :: 0 <= d < 4 ==> LowerThan(hm, cols, p, d)
  }

  /** The low cells among the first c columns of row r, left to right. */
  function RowLows(hm: HeightMap, cols: int, r: int, c: nat): seq<Pos>
  {
    if c == 0 then []
    else RowLows(hm, cols, r, c - 1) + (if IsLow(hm, cols, (r, c - 1)) then [(r, c - 1)] else [])
  }

  /** The low cells of the first r rows, in row-major order. */
  function LowsBefore(hm: HeightMap, cols: nat, r: nat): seq<Pos>
  {
    if r == 0 then [] else LowsBefore(hm, cols, r - 1) + RowLows(hm, cols, r - 1, cols)
  }

  /** The risk level of each cell: its height plus one. */
  function Risks(hm: HeightMap, cells: seq<Pos>): (r: seq<int>)
    ensures |r| == |cells|
  {
    seq(|cells|, i requires 0 <= i < |cells| => Height(hm, cells[i]) + 1)
  }

  /**
   * The first row from k on whose length differs from `cols`: a shorter one
   * is read past its end while the row above it is examined (IndexError), a
   * longer one fails the row-length assertion (AssertionError).
   */
  function RaggedFrom(hm: HeightMap, cols: int, k: nat): Option<Error>
    decreases |hm| - k
  {
    if k >= |hm| then None
    else if |hm[k]| < cols then Some(IndexError)
    else if |hm[k]| > cols then Some(AssertionError)
    else RaggedFrom(hm, cols, k + 1)
  }

  /** `find_risk_levels`: an empty map is an IndexError; a ragged one fails as above. */
  function RiskLevelsSpec(hm: HeightMap): Result<seq<int>>
  {
    if hm == [] then Err(IndexError)
    else
      var cols := |hm[0]|;
      match RaggedFrom(hm, cols, 1)
      case Some(e) => Err(e)
      case None => Ok(Risks(hm, LowsBefore(hm, cols, |hm|)))
  }

  /** No ragged row from k on: every row from k on has exactly `cols` cells. */
  lemma {:induction false} RaggedNone(hm: HeightMap, cols: int, k: nat)
    requires k >= 1 && |hm| >= 1 && |hm[0]| == cols
    ensures RaggedFrom(hm, cols, k) == None <==> forall r :: k <= r < |hm| ==> |hm[r]| == cols
    decreases |hm| - k
  {
    if k < |hm| {
      RaggedNone(hm, cols, k + 1);
    }
  }

  /** Rows lo..hi-1 all have `cols` cells. */
  predicate RowsOfLength(hm: HeightMap, cols: int, lo: int, hi: int)
  {
    forall r :: lo <= r < hi && 0 <= r < |hm| ==> |hm[r]| == cols
  }

  /** Rows k..j-1 of the right length: the first ragged row is at j or later. */
  lemma {:induction false} RaggedSkip(hm: HeightMap, cols: int, k: nat, j: nat)
    requires k <= j <= |hm|
    requires RowsOfLength(hm, cols, k, j)
    ensures RaggedFrom(hm, cols, k) == RaggedFrom(hm, cols, j)
    decreases j - k
  {
    if k < j {
      RaggedSkip(hm, cols, k + 1, j);
    }
  }

  /** Risks distribute over concatenation. */
  lemma RisksAppend(hm: HeightMap, a: seq<Pos>, b: seq<Pos>)
    ensures Risks(hm, a + b) == Risks(hm, a) + Risks(hm, b)
  {
  }

  /** One more column: its risk is appended when the cell is low. */
  lemma RowLowsStep(hm: HeightMap, cols: int, row: int, column: nat, prefix: seq<int>)
    ensures prefix + Risks(hm, RowLows(hm, cols, row, column + 1))
      == prefix + Risks(hm, RowLows(hm, cols, row, column)) + (if IsLow(hm, cols, (row, column)) then [Height(hm, (row, column)) + 1] else [])
  {
    RisksAppend(hm, RowLows(hm, cols, row, column), if IsLow(hm, cols, (row, column)) then [(row, column)] else []);
  }

  /** One more row: the risks of its low cells are appended. */
  lemma LowsBeforeStep(hm: HeightMap, cols: nat, row: nat)
    ensures Risks(hm, LowsBefore(hm, cols, row + 1)) == Risks(hm, LowsBefore(hm, cols, row)) + Risks(hm, RowLows(hm, cols, row, cols))
  {
    RisksAppend(hm, LowsBefore(hm, cols, row), RowLows(hm, cols, row, cols));
  }

  /**
   * The neighbour loop of `find_risk_levels` for one cell of a row that has
   * passed the length assertion: the cell below is read past its row's end
   * when that row is too short.
   */
  method CheckLow(hm: HeightMap, numCols: int, row: int, column: int) returns (r: Result<bool>)
    requires 0 <= row < |hm| && 0 <= column < numCols == |hm[row]|
    requires row > 0 ==> |hm[row - 1]| == numCols
    ensures r.Err? <==> row + 1 < |hm| && |hm[row + 1]| <= column
    ensures r.Err? ==> r.error == IndexError
    ensures r.Ok? ==> r.value == IsLow(hm, numCols, (row, column))
  {
    var isLocalMin := true;
    for d := 0 to 4
      invariant d > 2 && row + 1 < |hm| ==> |hm[row + 1]| > column
      invariant isLocalMin <==> forall e :: 0 <= e < d ==> LowerThan(hm, numCols, (row, column), e)
    {
      var neighbourRow, neighbourCol := row + DeltaRow[d], column + DeltaCol[d];
      assert (neighbourRow, neighbourCol) == Neighbour((row, column), d);
      if 0 <= neighbourRow < |hm| && 0 <= neighbourCol < numCols {
        if neighbourCol >= |hm[neighbourRow]| {
          return Err(IndexError);
        }
        if hm[neighbourRow][neighbourCol] <= hm[row][column] {
          isLocalMin := false;
        }
      }
      assert LowerThan(hm, numCols, (row, column), d) <==>
        !(0 <= neighbourRow < |hm| && 0 <= neighbourCol < numCols) || hm[neighbourRow][neighbourCol] > hm[row][column];
    }
    return Ok(isLocalMin);
  }

  /**
   * The column loop of `find_risk_levels` for a row that has passed the
   * length assertion: the risk of each low cell is appended in turn.
   */
  method AppendRowRisks(hm: HeightMap, numCols: int, row: int, riskLevels: seq<int>) returns (r: Result<seq<int>>)
    requires 0 <= row < |hm| && numCols == |hm[row]|
    requires row > 0 ==> |hm[row - 1]| == numCols
    ensures r.Err? <==> row + 1 < |hm| && |hm[row + 1]| < numCols
    ensures r.Err? ==> r.error == IndexError
    ensures r.Ok? ==> r.value == riskLevels + Risks(hm, RowLows(hm, numCols, row, numCols))
  {
    var levels := riskLevels;
    for column := 0 to numCols
      invariant row + 1 < |hm| ==> |hm[row + 1]| >= column
      invariant levels == riskLevels + Risks(hm, RowLows(hm, numCols, row, column))
    {
      var isLocalMin := CheckLow(hm, numCols, row, column);
      if isLocalMin.Err? {
        return Err(IndexError);
      }
      RowLowsStep(hm, numCols, row, column, riskLevels);
      assert Height(hm, (row, column)) == hm[row][column];
      if isLocalMin.value {
        levels := levels + [hm[row][column] + 1];
      }
    }
    return Ok(levels);
  }

  /** `find_risk_levels`, row by row, column by column, neighbour by neighbour. */
  method FindRiskLevels(hm: HeightMap) returns (r: Result<seq<int>>)
    ensures r == RiskLevelsSpec(hm)
  {
    if |hm| == 0 {
      return Err(IndexError);
    }
    var numRows, numCols := |hm|, |hm[0]|;
    var riskLevels: seq<int> := [];
    for row := 0 to numRows
      invariant RowsOfLength(hm, numCols, 0, row)
      invariant row < numRows ==> |hm[row]| >= numCols
      invariant riskLevels == Risks(hm, LowsBefore(hm, numCols, row))
    {
      if |hm[row]| != numCols {
        RaggedSkip(hm, numCols, 1, row);
        return Err(AssertionError);
      }
      assert RowsOfLength(hm, numCols, 0, row + 1);
      var next := AppendRowRisks(hm, numCols, row, riskLevels);
      if next.Err? {
        RaggedSkip(hm, numCols, 1, row + 1);
        return Err(IndexError);
      }
      LowsBeforeStep(hm, numCols, row);
      riskLevels := next.value;
    }
    RaggedSkip(hm, numCols, 1, numRows);
    return Ok(riskLevels);
  }

  /** Row-major order on cells. */
  predicate Before(p: Pos, q: Pos)
  {
    p.0 < q.0 || (p.0 == q.0 && p.1 < q.1)
  }

  /** Strictly increasing in row-major order, hence without repeats. */
  predicate RowMajor(cells: seq<Pos>)
  {
    forall i, j :: 0 <= i < j < |cells| ==> Before(cells[i], cells[j])
  }

  /** The low cells of a row are exactly its low cells left of c. */
  lemma {:induction false} RowLowsMembers(hm: HeightMap, cols: int, r: int, c: nat)
    ensures forall p {:trigger p in RowLows(hm, cols, r, c)} :: p in RowLows(hm, cols, r, c) <==> p.0 == r && 0 <= p.1 < c && IsLow(hm, cols, p)
  {
    if c > 0 {
      RowLowsMembers(hm, cols, r, c - 1);
    }
  }

  /** ... and they come left to right. */
  lemma {:induction false} RowLowsOrder(hm: HeightMap, cols: int, r: int, c: nat)
    ensures RowMajor(RowLows(hm, cols, r, c))
  {
    if c > 0 {
      RowLowsOrder(hm, cols, r, c - 1);
      RowLowsMembers(hm, cols, r, c - 1);
      var a := RowLows(hm, cols, r, c - 1);
      assert forall i :: 0 <= i < |a| ==> a[i] in a;
    }
  }

  /** The low cells of the first r rows are exactly the low cells above row r. */
  lemma {:induction false} LowsBeforeMembers(hm: HeightMap, cols: nat, r: nat)
    ensures forall p {:trigger p in LowsBefore(hm, cols, r)} :: p in LowsBefore(hm, cols, r) <==> 0 <= p.0 < r && 0 <= p.1 < cols && IsLow(hm, cols, p)
  {
    if r > 0 {
      LowsBeforeMembers(hm, cols, r - 1);
      RowLowsMembers(hm, cols, r - 1, cols);
      var a, b := LowsBefore(hm, cols, r - 1), RowLows(hm, cols, r - 1, cols);
      assert LowsBefore(hm, cols, r) == a + b;
      forall p: Pos
        ensures p in a + b <==> 0 <= p.0 < r && 0 <= p.1 < cols && IsLow(hm, cols, p)
      {
        assert p in a <==> 0 <= p.0 < r - 1 && 0 <= p.1 < cols && IsLow(hm, cols, p);
        assert p in b <==> p.0 == r - 1 && 0 <= p.1 < cols && IsLow(hm, cols, p);
        assert p in a + b <==> p in a || p in b;
      }
    }
  }

  /** Cells of earlier rows followed by cells of one row stay in row-major order. */
  lemma RowMajorConcat(a: seq<Pos>, b: seq<Pos>, r: int)
    requires RowMajor(a) && RowMajor(b)
    requires forall i :: 0 <= i < |a| ==> a[i].0 < r
    requires forall j :: 0 <= j < |b| ==> b[j].0 == r
    ensures RowMajor(a + b)
  {
    forall i, j | 0 <= i < j < |a + b|
      ensures Before((a + b)[i], (a + b)[j])
    {
      if j < |a| {
        assert (a + b)[i] == a[i] && (a + b)[j] == a[j];
      } else if i < |a| {
        assert (a + b)[i] == a[i] && (a + b)[j] == b[j - |a|];
      } else {
        assert (a + b)[i] == b[i - |a|] && (a + b)[j] == b[j - |a|];
      }
    }
  }

  /** ... and they come in row-major order. */
  lemma {:induction false} LowsBeforeOrder(hm: HeightMap, cols: nat, r: nat)
    ensures RowMajor(LowsBefore(hm, cols, r))
  {
    if r > 0 {
      var a, b := LowsBefore(hm, cols, r - 1), RowLows(hm, cols, r - 1, cols);
      LowsBeforeOrder(hm, cols, r - 1);
      RowLowsOrder(hm, cols, r - 1, cols);
      LowsBeforeMembers(hm, cols, r - 1);
      RowLowsMembers(hm, cols, r - 1, cols);
      forall i | 0 <= i < |a|
        ensures a[i].0 < r - 1
      {
        assert a[i] in a;
      }
      forall j | 0 <= j < |b|
        ensures b[j].0 == r - 1
      {
        assert b[j] in b;
      }
      RowMajorConcat(a, b, r - 1);
    }
  }

  /**
   * The risk levels are height plus one of exactly the low points, in
   * row-major order; they exist exactly when the map is non-empty and
   * rectangular.
   */
  lemma RiskLevelsOfLowPoints(hm: HeightMap)
    ensures RiskLevelsSpec(hm).Ok? <==> hm != [] && RowsOfLength(hm, |hm[0]|, 0, |hm|)
    ensures RiskLevelsSpec(hm).Ok? ==>
      var cols, cells := |hm[0]|, LowsBefore(hm, |hm[0]|, |hm|);
      && RiskLevelsSpec(hm).value == Risks(hm, cells)
      && RowMajor(cells)
      && (forall p :: p in cells <==> InGrid(hm, cols, p) && IsLow(hm, cols, p))
  {
    if hm != [] {
      var cols := |hm[0]|;
      RaggedNone(hm, cols, 1);
      LowsBeforeMembers(hm, cols, |hm|);
      LowsBeforeOrder(hm, cols, |hm|);
    }
  }

  /** The cells of the first documented example: only the centre is low. */
  lemma ExampleLowCells(hm: HeightMap)
    requires hm == [[1, 1, 1], [1, 0, 1], [1, 1, 1]]
    ensures forall c :: 0 <= c < 3 ==> !IsLow(hm, 3, (0, c)) && !IsLow(hm, 3, (2, c))
    ensures !IsLow(hm, 3, (1, 0)) && IsLow(hm, 3, (1, 1)) && !IsLow(hm, 3, (1, 2))
  {
    assert !LowerThan(hm, 3, (0, 0), 1);
    assert !LowerThan(hm, 3, (0, 1), 1);
    assert !LowerThan(hm, 3, (0, 2), 3);
    assert !LowerThan(hm, 3, (1, 0), 0);
    assert forall d :: 0 <= d < 4 ==> LowerThan(hm, 3, (1, 1), d);
    assert !LowerThan(hm, 3, (1, 2), 0);
    assert !LowerThan(hm, 3, (2, 0), 0);
    assert !LowerThan(hm, 3, (2, 1), 1);
    assert !LowerThan(hm, 3, (2, 2), 0);
  }

  /** The first documented example: the single low point has risk 1. */
  lemma RiskLevelsExample(hm: HeightMap)
    requires hm == [[1, 1, 1], [1, 0, 1], [1, 1, 1]]
    ensures RiskLevelsSpec(hm) == Ok([1])
  {
    ExampleLowCells(hm);
    assert RowLows(hm, 3, 0, 1) == [];
    assert RowLows(hm, 3, 0, 2) == [];
    assert RowLows(hm, 3, 0, 3) == [];
    assert RowLows(hm, 3, 1, 1) == [];
    assert RowLows(hm, 3, 1, 2) == [(1, 1)];
    assert RowLows(hm, 3, 1, 3) == [(1, 1)];
    assert RowLows(hm, 3, 2, 1) == [];
    assert RowLows(hm, 3, 2, 2) == [];
    assert RowLows(hm, 3, 2, 3) == [];
    assert LowsBefore(hm, 3, 1) == [];
    assert LowsBefore(hm, 3, 2) == [(1, 1)];
    assert LowsBefore(hm, 3, 3) == [(1, 1)];
    assert RaggedFrom(hm, 3, 3) == None;
    assert RaggedFrom(hm, 3, 2) == None;
    assert RaggedFrom(hm, 3, 1) == None;
    assert Readable(hm, (1, 1)) && hm[1][1] == 0;
    assert Risks(hm, [(1, 1)])[0] == 1;
    assert Risks(hm, [(1, 1)]) == [1];
  }

  /*
   * find_size_basins
   */

  /** The cells of the first `cols` columns. */
  function GridCells(hm: HeightMap, cols: int): set<Pos>
  {
    set r, c | 0 <= r < |hm| && 0 <= c < cols :: (r, c)
  }

  /** A cell of the grid that exists and is not of height 9. */
  predicate Open(hm: HeightMap, cols: int, p: Pos)
  {
    InGrid(hm, cols, p) && Readable(hm, p) && hm[p.0][p.1] != 9
  }

  /**
   * The neighbours in directions 0..d-1 that the search queues, in order:
   * those in the grid and not of height 9. Reading a neighbour past its
   * row's end is an IndexError.
   */
  function Pushes(hm: HeightMap, cols: int, p: Pos, d: nat): (r: Result<seq<Pos>>)
    requires d <= 4
    ensures r.Ok? ==> forall q :: q in r.value ==> Open(hm, cols, q)
  {
    if d == 0 then Ok([])
    else
      match Pushes(hm, cols, p, d - 1)
      case Err(e) => Err(e)
      case Ok(prev) =>
        var q := Neighbour(p, d - 1);
        if !InGrid(hm, cols, q) then Ok(prev)
        else if !Readable(hm, q) then Err(IndexError)
        else Ok(if hm[q.0][q.1] != 9 then prev + [q] else prev)
  }

  /** Adding an unseen cell of the grid leaves fewer unseen cells. */
  lemma FewerUnseen(grid: set<Pos>, seen: set<Pos>, p: Pos)
    requires p in grid && p !in seen
    ensures |grid - (seen + {p})| < |grid - seen|
  {
    assert grid - (seen + {p}) == (grid - seen) - {p};
    assert p in grid - seen;
  }

  /** What the breadth-first search leaves: the cells seen, the size counted, the last cell popped. */
  datatype Fill = Fill(seen: set<Pos>, size: nat, last: Pos)

  /**
   * The `while queue` loop: pop the front; a cell already seen is skipped,
   * otherwise it is marked seen, counted, and its open neighbours queued.
   */
  function Flood(hm: HeightMap, cols: int, queue: seq<Pos>, seen: set<Pos>, size: nat, last: Pos): (r: Result<Fill>)
    requires forall q :: q in queue ==> InGrid(hm, cols, q)
    requires seen <= GridCells(hm, cols) && InGrid(hm, cols, last)
    ensures r.Ok? ==> r.value.seen <= GridCells(hm, cols) && InGrid(hm, cols, r.value.last)
    decreases |GridCells(hm, cols) - seen|, |queue|
  {
    if queue == [] then Ok(Fill(seen, size, last))
    else
      var p := queue[0];
      if p in seen then Flood(hm, cols, queue[1..], seen, size, p)
      else
        match Pushes(hm, cols, p, 4)
        case Err(e) => Err(e)
        case Ok(next) =>
          assert p in GridCells(hm, cols) by { assert InGrid(hm, cols, p); }
          FewerUnseen(GridCells(hm, cols), seen, p);
          Flood(hm, cols, queue[1..] + next, seen + {p}, size + 1, p)
  }

  /** The cells of the grid that are open. */
  function OpenCells(hm: HeightMap, cols: int): set<Pos>
  {
    set p | p in GridCells(hm, cols) && Open(hm, cols, p)
  }

  /** What the scan has gathered: the cells seen, the basin sizes, and (for the proofs) the cell each basin was found from. */
  datatype Scan = Scan(seen: set<Pos>, sizes: seq<int>, starts: seq<Pos>)

  /**
   * The two nested `for` loops from row `row`, column `column` on. The cell
   * examined is (rowVar, column). As written the search reuses the name
   * `row` for the cells it pops, so after a basin the column loop goes on
   * in the row of the last cell popped; the corrected scan stays in its row.
   */
  function Search(hm: HeightMap, cols: int, asWritten: bool, row: nat, rowVar: int, column: nat, scan: Scan): (r: Result<Scan>)
    requires row < |hm| ==> 0 <= rowVar < |hm|
    requires scan.seen <= GridCells(hm, cols)
    ensures r.Ok? ==> r.value.seen <= GridCells(hm, cols)
    decreases |hm| - row, cols - column
  {
    if row >= |hm| then Ok(scan)
    else if column >= cols then Search(hm, cols, asWritten, row + 1, row + 1, 0, scan)
    else if (rowVar, column) in scan.seen then Search(hm, cols, asWritten, row, rowVar, column + 1, scan)
    else if !Readable(hm, (rowVar, column)) then Err(IndexError)
    else if hm[rowVar][column] == 9 then Search(hm, cols, asWritten, row, rowVar, column + 1, scan)
    else
      var start := (rowVar, column);
      match Flood(hm, cols, [start], scan.seen, 0, start)
      case Err(e) => Err(e)
      case Ok(fill) =>
        var next := Scan(fill.seen, scan.sizes + [fill.size], scan.starts + [start]);
        Search(hm, cols, asWritten, row, if asWritten then fill.last.0 else rowVar, column + 1, next)
  }

  /** The whole scan; an empty map is an IndexError. */
  function BasinScan(hm: HeightMap, asWritten: bool): Result<Scan>
  {
    if hm == [] then Err(IndexError)
    else Search(hm, |hm[0]|, asWritten, 0, 0, 0, Scan({}, [], []))
  }

  /** `find_size_basins`: the basin sizes, sorted. */
  function SizeBasinsSpec(hm: HeightMap, asWritten: bool): Result<seq<int>>
  {
    match BasinScan(hm, asWritten)
    case Err(e) => Err(e)
    case Ok(scan) => Ok(SortAscending(scan.sizes))
  }

  /** Once the neighbour loop has failed, it stays failed with the same error. */
  lemma {:induction false} PushesErrStays(hm: HeightMap, cols: int, p: Pos, d: nat, e: nat)
    requires d <= e <= 4 && Pushes(hm, cols, p, d).Err?
    ensures Pushes(hm, cols, p, e) == Pushes(hm, cols, p, d)
    decreases e - d
  {
    if d < e {
      PushesErrStays(hm, cols, p, d, e - 1);
    }
  }

  /** The neighbour loop of the search: the open neighbours of a cell are appended to the queue. */
  method QueueNeighbours(hm: HeightMap, numCols: int, cell: Pos, queue: seq<Pos>) returns (r: Result<seq<Pos>>)
    ensures r.Err? <==> Pushes(hm, numCols, cell, 4).Err?
    ensures r.Err? ==> r.error == Pushes(hm, numCols, cell, 4).error
    ensures r.Ok? ==> r.value == queue + Pushes(hm, numCols, cell, 4).value
  {
    var extended := queue;
    for d := 0 to 4
      invariant Pushes(hm, numCols, cell, d).Ok?
      invariant extended == queue + Pushes(hm, numCols, cell, d).value
    {
      var neighbour := Neighbour(cell, d);
      if 0 <= neighbour.0 < |hm| && 0 <= neighbour.1 < numCols {
        if neighbour.1 >= |hm[neighbour.0]| {
          PushesErrStays(hm, numCols, cell, d + 1, 4);
          return Err(IndexError);
        }
        if hm[neighbour.0][neighbour.1] != 9 {
          extended := extended + [neighbour];
        }
      }
    }
    return Ok(extended);
  }

  /**
   * The `while queue` loop of `find_size_basins` from one start cell; the
   * set of seen cells is passed in and the grown set handed back.
   */
  method FillBasin(hm: HeightMap, numCols: int, start: Pos, seenFields: set<Pos>) returns (r: Result<Fill>)
    requires InGrid(hm, numCols, start) && seenFields <= GridCells(hm, numCols)
    ensures r == Flood(hm, numCols, [start], seenFields, 0, start)
  {
    var size := 0;
    var queue := [start];
    var seen := seenFields;
    var last := start;
    while queue != []
      invariant forall q :: q in queue ==> InGrid(hm, numCols, q)
      invariant seen <= GridCells(hm, numCols) && InGrid(hm, numCols, last)
      invariant Flood(hm, numCols, queue, seen, size, last) == Flood(hm, numCols, [start], seenFields, 0, start)
      decreases |GridCells(hm, numCols) - seen|, |queue|
    {
      var cell := queue[0];
      queue := queue[1..];
      last := cell;
      if cell in seen {
        continue;
      }
      assert cell in GridCells(hm, numCols) by { assert InGrid(hm, numCols, cell); }
      FewerUnseen(GridCells(hm, numCols), seen, cell);
      seen := seen + {cell};
      size := size + 1;
      var extended := QueueNeighbours(hm, numCols, cell, queue);
      if extended.Err? {
        return Err(extended.error);
      }
      queue := extended.value;
    }
    return Ok(Fill(seen, size, last));
  }

  /**
   * `find_size_basins` as written: after each basin the column loop goes on
   * in the row of the last cell the search popped.
   */
  method FindSizeBasins(hm: HeightMap) returns (r: Result<seq<int>>)
    ensures r == SizeBasinsSpec(hm, true)
  {
    if |hm| == 0 {
      return Err(IndexError);
    }
    var numRows, numCols := |hm|, |hm[0]|;
    var basinsSizes: seq<int> := [];
    var seenFields: set<Pos> := {};
    ghost var starts: seq<Pos> := [];
    for rowIndex := 0 to numRows
      invariant seenFields <= GridCells(hm, numCols)
      invariant Search(hm, numCols, true, rowIndex, rowIndex, 0, Scan(seenFields, basinsSizes, starts)) == BasinScan(hm, true)
    {
      var row := rowIndex;
      for column := 0 to numCols
        invariant 0 <= row < numRows && seenFields <= GridCells(hm, numCols)
        invariant Search(hm, numCols, true, rowIndex, row, column, Scan(seenFields, basinsSizes, starts)) == BasinScan(hm, true)
      {
        if (row, column) !in seenFields {
          if column >= |hm[row]| {
            return Err(IndexError);
          }
          if hm[row][column] != 9 {
            var fill := FillBasin(hm, numCols, (row, column), seenFields);
            if fill.Err? {
              return Err(fill.error);
            }
            seenFields := fill.value.seen;
            basinsSizes := basinsSizes + [fill.value.size];
            starts := starts + [(row, column)];
            row := fill.value.last.0;
          }
        }
      }
    }
    return Ok(SortAscending(basinsSizes));
  }

  /** `find_size_basins` with the column loop kept in its own row. */
  method FindSizeBasinsCorrected(hm: HeightMap) returns (r: Result<seq<int>>)
    ensures r == SizeBasinsSpec(hm, false)
  {
    if |hm| == 0 {
      return Err(IndexError);
    }
    var numRows, numCols := |hm|, |hm[0]|;
    var basinsSizes: seq<int> := [];
    var seenFields: set<Pos> := {};
    ghost var starts: seq<Pos> := [];
    for row := 0 to numRows
      invariant seenFields <= GridCells(hm, numCols)
      invariant Search(hm, numCols, false, row, row, 0, Scan(seenFields, basinsSizes, starts)) == BasinScan(hm, false)
    {
      for column := 0 to numCols
        invariant seenFields <= GridCells(hm, numCols)
        invariant Search(hm, numCols, false, row, row, column, Scan(seenFields, basinsSizes, starts)) == BasinScan(hm, false)
      {
        if (row, column) !in seenFields {
          if column >= |hm[row]| {
            return Err(IndexError);
          }
          if hm[row][column] != 9 {
            var fill := FillBasin(hm, numCols, (row, column), seenFields);
            if fill.Err? {
              return Err(fill.error);
            }
            seenFields := fill.value.seen;
            basinsSizes := basinsSizes + [fill.value.size];
            starts := starts + [(row, column)];
          }
        }
      }
    }
    return Ok(SortAscending(basinsSizes));
  }

  /*
   * Basins: the cells reachable from a start through open cells, one step
   * along a row or a column at a time.
   */

  /** One step along a row or a column. */
  predicate Adjacent(p: Pos, q: Pos)
  {
    Abs(p.0 - q.0) + Abs(p.1 - q.1) == 1
  }

  /** The direction from a cell to an adjacent one. */
  function Direction(p: Pos, q: Pos): (d: nat)
    requires Adjacent(p, q)
    ensures d < 4 && Neighbour(p, d) == q
  {
    if q.0 < p.0 then 0 else if q.1 > p.1 then 1 else if q.0 > p.0 then 2 else 3
  }

  /** A walk through open cells. */
  ghost predicate IsWalk(hm: HeightMap, cols: int, w: seq<Pos>)
  {
    && |w| >= 1
    && (forall i :: 0 <= i < |w| ==> Open(hm, cols, w[i]))
    && (forall i :: 0 <= i < |w| - 1 ==> Adjacent(w[i], w[i + 1]))
  }

  ghost predicate Connected(hm: HeightMap, cols: int, p: Pos, q: Pos)
  {
    exists w :: IsWalk(hm, cols, w) && w[0] == p && w[|w| - 1] == q
  }

  /** The basin of a cell: every cell a walk from it reaches. */
  ghost function Basin(hm: HeightMap, cols: int, s: Pos): set<Pos>
  {
    set p | p in GridCells(hm, cols) && Connected(hm, cols, s, p)
  }

  /** No open cell next to the set lies outside it. */
  ghost predicate Closed(hm: HeightMap, cols: int, cells: set<Pos>)
  {
    forall p, q :: p in cells && Open(hm, cols, q) && Adjacent(p, q) ==> q in cells
  }

  lemma ConnectedSelf(hm: HeightMap, cols: int, s: Pos)
    requires Open(hm, cols, s)
    ensures Connected(hm, cols, s, s)
  {
    assert IsWalk(hm, cols, [s]);
  }

  lemma ConnectedStep(hm: HeightMap, cols: int, s: Pos, p: Pos, q: Pos)
    requires Connected(hm, cols, s, p) && Open(hm, cols, q) && Adjacent(p, q)
    ensures Connected(hm, cols, s, q)
  {
    var w :| IsWalk(hm, cols, w) && w[0] == s && w[|w| - 1] == p;
    var w' := w + [q];
    assert forall i :: 0 <= i < |w| ==> w'[i] == w[i];
    assert IsWalk(hm, cols, w');
  }

  /** A walk that starts inside a closed set ends inside it. */
  lemma {:induction false} WalkStaysIn(hm: HeightMap, cols: int, cells: set<Pos>, w: seq<Pos>)
    requires Closed(hm, cols, cells) && IsWalk(hm, cols, w) && w[0] in cells
    ensures w[|w| - 1] in cells
    decreases |w|
  {
    if |w| > 1 {
      var init := w[..|w| - 1];
      assert forall i :: 0 <= i < |init| ==> init[i] == w[i];
      assert IsWalk(hm, cols, init);
      WalkStaysIn(hm, cols, cells, init);
      assert Adjacent(w[|w| - 2], w[|w| - 1]);
    }
  }

  /** A walk that ends inside a closed set starts inside it. */
  lemma {:induction false} WalkStaysInBackwards(hm: HeightMap, cols: int, cells: set<Pos>, w: seq<Pos>)
    requires Closed(hm, cols, cells) && IsWalk(hm, cols, w) && w[|w| - 1] in cells
    ensures w[0] in cells
    decreases |w|
  {
    if |w| > 1 {
      var tail := w[1..];
      assert forall i :: 0 <= i < |tail| ==> tail[i] == w[i + 1];
      assert IsWalk(hm, cols, tail);
      WalkStaysInBackwards(hm, cols, cells, tail);
      assert Adjacent(w[1], w[0]) by { assert Adjacent(w[0], w[1]); }
    }
  }

  /** A basin is closed and holds its own start. */
  lemma BasinClosed(hm: HeightMap, cols: int, s: Pos)
    requires Open(hm, cols, s)
    ensures s in Basin(hm, cols, s)
    ensures Closed(hm, cols, Basin(hm, cols, s))
  {
    ConnectedSelf(hm, cols, s);
    assert s in GridCells(hm, cols) by { assert InGrid(hm, cols, s); }
    forall p, q | p in Basin(hm, cols, s) && Open(hm, cols, q) && Adjacent(p, q)
      ensures q in Basin(hm, cols, s)
    {
      ConnectedStep(hm, cols, s, p, q);
      assert q in GridCells(hm, cols) by { assert InGrid(hm, cols, q); }
    }
  }

  /** With every row long enough, the neighbour loop succeeds and queues exactly the open neighbours. */
  lemma {:induction false} PushesOpen(hm: HeightMap, cols: int, p: Pos, d: nat)
    requires Covers(hm, cols) && d <= 4
    ensures Pushes(hm, cols, p, d).Ok?
    ensures forall q :: q in Pushes(hm, cols, p, d).value ==> Adjacent(p, q)
    ensures forall e :: 0 <= e < d && Open(hm, cols, Neighbour(p, e)) ==> Neighbour(p, e) in Pushes(hm, cols, p, d).value
  {
    if d > 0 {
      PushesOpen(hm, cols, p, d - 1);
      var q := Neighbour(p, d - 1);
      assert Adjacent(p, q);
      assert InGrid(hm, cols, q) ==> Readable(hm, q);
    }
  }

  /**
   * What holds of the search from `start` at every turn of its loop: the
   * cells queued and newly seen are open and reachable from the start, the
   * open neighbours of a newly seen cell are seen or queued, and the size
   * counts the newly seen cells.
   */
  ghost predicate FloodInv(hm: HeightMap, cols: int, start: Pos, seen0: set<Pos>, queue: seq<Pos>, seen: set<Pos>, size: nat)
  {
    && seen0 <= seen
    && (forall q :: q in queue ==> Open(hm, cols, q) && Connected(hm, cols, start, q))
    && (forall p :: p in seen && p !in seen0 ==> Open(hm, cols, p) && Connected(hm, cols, start, p))
    && (forall p, q :: p in seen && p !in seen0 && Open(hm, cols, q) && Adjacent(p, q) ==> q in seen || q in queue)
    && (start in seen || start in queue)
    && size == |seen - seen0|
  }

  /** An empty queue: the newly seen cells are exactly the basin of the start. */
  lemma FloodDone(hm: HeightMap, cols: int, start: Pos, seen0: set<Pos>, seen: set<Pos>, size: nat)
    requires seen <= GridCells(hm, cols)
    requires Closed(hm, cols, seen0) && Open(hm, cols, start) && start !in seen0
    requires FloodInv(hm, cols, start, seen0, [], seen, size)
    ensures seen - seen0 == Basin(hm, cols, start)
    ensures seen == seen0 + Basin(hm, cols, start) && seen0 !! Basin(hm, cols, start)
    ensures size == |Basin(hm, cols, start)|
  {
    var newCells := seen - seen0;
    forall p, q | p in newCells && Open(hm, cols, q) && Adjacent(p, q)
      ensures q in newCells
    {
      assert q in seen;
      assert Adjacent(q, p);
      assert q in seen0 ==> p in seen0;
    }
    assert Closed(hm, cols, newCells);
    forall x | x in Basin(hm, cols, start)
      ensures x in newCells
    {
      var w :| IsWalk(hm, cols, w) && w[0] == start && w[|w| - 1] == x;
      WalkStaysIn(hm, cols, newCells, w);
    }
    assert newCells <= Basin(hm, cols, start);
  }

  /** Popping a cell already seen keeps the invariant. */
  lemma FloodSkip(hm: HeightMap, cols: int, start: Pos, seen0: set<Pos>, queue: seq<Pos>, seen: set<Pos>, size: nat)
    requires queue != [] && queue[0] in seen
    requires FloodInv(hm, cols, start, seen0, queue, seen, size)
    ensures FloodInv(hm, cols, start, seen0, queue[1..], seen, size)
  {
    assert forall q :: q in queue ==> q == queue[0] || q in queue[1..];
  }

  /** Popping a new cell, marking it and queueing its open neighbours keeps the invariant. */
  lemma FloodVisit(hm: HeightMap, cols: int, start: Pos, seen0: set<Pos>, queue: seq<Pos>, seen: set<Pos>, size: nat, next: seq<Pos>)
    requires queue != [] && queue[0] !in seen
    requires FloodInv(hm, cols, start, seen0, queue, seen, size)
    requires forall q :: q in next ==> Open(hm, cols, q) && Adjacent(queue[0], q)
    requires forall e :: 0 <= e < 4 && Open(hm, cols, Neighbour(queue[0], e)) ==> Neighbour(queue[0], e) in next
    ensures FloodInv(hm, cols, start, seen0, queue[1..] + next, seen + {queue[0]}, size + 1)
  {
    var p := queue[0];
    assert p in queue;
    forall q | q in next
      ensures Connected(hm, cols, start, q)
    {
      ConnectedStep(hm, cols, start, p, q);
    }
    forall x, q | x in seen + {p} && x !in seen0 && Open(hm, cols, q) && Adjacent(x, q)
      ensures q in seen + {p} || q in queue[1..] + next
    {
      if x == p {
        assert Neighbour(p, Direction(p, q)) == q;
      } else {
        assert q in seen || q in queue;
        assert q in queue ==> q == p || q in queue[1..];
      }
    }
    assert forall q :: q in queue ==> q == p || q in queue[1..];
    assert (seen + {p}) - seen0 == (seen - seen0) + {p};
  }

  /**
   * The search from an open start outside a closed set of seen cells adds
   * exactly the basin of the start, which shares no cell with them, and
   * counts its cells.
   */
  lemma {:induction false} FloodFills(hm: HeightMap, cols: int, start: Pos, seen0: set<Pos>,
                                      queue: seq<Pos>, seen: set<Pos>, size: nat, last: Pos)
    requires Covers(hm, cols)
    requires forall q :: q in queue ==> InGrid(hm, cols, q)
    requires seen <= GridCells(hm, cols) && InGrid(hm, cols, last)
    requires Closed(hm, cols, seen0) && Open(hm, cols, start) && start !in seen0
    requires FloodInv(hm, cols, start, seen0, queue, seen, size)
    ensures Flood(hm, cols, queue, seen, size, last).Ok?
    ensures Flood(hm, cols, queue, seen, size, last).value.seen == seen0 + Basin(hm, cols, start)
    ensures Flood(hm, cols, queue, seen, size, last).value.size == |Basin(hm, cols, start)|
    ensures seen0 !! Basin(hm, cols, start)
    decreases |GridCells(hm, cols) - seen|, |queue|
  {
    if queue == [] {
      FloodDone(hm, cols, start, seen0, seen, size);
    } else {
      var p := queue[0];
      if p in seen {
        FloodSkip(hm, cols, start, seen0, queue, seen, size);
        FloodFills(hm, cols, start, seen0, queue[1..], seen, size, p);
      } else {
        PushesOpen(hm, cols, p, 4);
        var next := Pushes(hm, cols, p, 4).value;
        FloodVisit(hm, cols, start, seen0, queue, seen, size, next);
        assert p in GridCells(hm, cols) by { assert InGrid(hm, cols, p); }
        FewerUnseen(GridCells(hm, cols), seen, p);
        FloodFills(hm, cols, start, seen0, queue[1..] + next, seen + {p}, size + 1, p);
      }
    }
  }

  /** The search as the scan starts it: from the start alone, nothing newly seen, size 0. */
  lemma FloodFromStart(hm: HeightMap, cols: int, start: Pos, seen0: set<Pos>)
    requires Covers(hm, cols)
    requires seen0 <= GridCells(hm, cols)
    requires Closed(hm, cols, seen0) && Open(hm, cols, start) && start !in seen0
    ensures Flood(hm, cols, [start], seen0, 0, start).Ok?
    ensures Flood(hm, cols, [start], seen0, 0, start).value.seen == seen0 + Basin(hm, cols, start)
    ensures Flood(hm, cols, [start], seen0, 0, start).value.size == |Basin(hm, cols, start)|
    ensures seen0 !! Basin(hm, cols, start)
  {
    ConnectedSelf(hm, cols, start);
    assert seen0 - seen0 == {};
    FloodFills(hm, cols, start, seen0, [start], seen0, 0, start);
  }

  /** The basins of the start cells, together. */
  ghost function Union(hm: HeightMap, cols: int, starts: seq<Pos>): set<Pos>
  {
    if starts == [] then {} else Union(hm, cols, starts[..|starts| - 1]) + Basin(hm, cols, starts[|starts| - 1])
  }

  lemma {:induction false} UnionHolds(hm: HeightMap, cols: int, starts: seq<Pos>, i: nat)
    requires i < |starts|
    ensures Basin(hm, cols, starts[i]) <= Union(hm, cols, starts)
  {
    if i < |starts| - 1 {
      UnionHolds(hm, cols, starts[..|starts| - 1], i);
    }
  }

  /** A basin holds only open cells. */
  lemma BasinIsOpen(hm: HeightMap, cols: int, s: Pos)
    ensures Basin(hm, cols, s) <= OpenCells(hm, cols)
  {
    forall p | p in Basin(hm, cols, s)
      ensures Open(hm, cols, p)
    {
      var w :| IsWalk(hm, cols, w) && w[0] == s && w[|w| - 1] == p;
      assert Open(hm, cols, w[|w| - 1]);
    }
  }

  /**
   * What the scan has gathered is a set of whole basins: each start is an
   * open cell and each size is the number of cells of its basin, no two
   * of those basins share a cell, and the seen cells are their union.
   */
  ghost predicate BasinsFound(hm: HeightMap, cols: int, scan: Scan)
  {
    && |scan.sizes| == |scan.starts|
    && (forall i :: 0 <= i < |scan.starts| ==>
          Open(hm, cols, scan.starts[i]) && scan.sizes[i] == |Basin(hm, cols, scan.starts[i])|)
    && (forall i, j :: 0 <= i < j < |scan.starts| ==> Basin(hm, cols, scan.starts[i]) !! Basin(hm, cols, scan.starts[j]))
    && scan.seen == Union(hm, cols, scan.starts)
  }

  /** The scans that hold whole, disjoint basins. */
  ghost function WholeBasins(hm: HeightMap, cols: int): iset<Scan>
  {
    iset s | BasinsFound(hm, cols, s)
  }

  /**
   * Whole, disjoint basins: their union is closed under stepping to an
   * open neighbour, holds only open cells, and has as many cells as the
   * sizes add up to.
   */
  lemma UnionOfBasins(hm: HeightMap, cols: int, scan: Scan)
    requires scan in WholeBasins(hm, cols)
    ensures Closed(hm, cols, scan.seen)
    ensures scan.seen <= OpenCells(hm, cols)
    ensures Sum(scan.sizes) == |scan.seen|
  {
    UnionClosed(hm, cols, scan.starts);
    UnionSize(hm, cols, scan.starts, scan.sizes, |scan.starts|);
    assert scan.starts[..|scan.starts|] == scan.starts;
    assert scan.sizes[..|scan.sizes|] == scan.sizes;
  }

  /** The union of the basins of open cells is closed and holds only open cells. */
  lemma {:induction false} UnionClosed(hm: HeightMap, cols: int, starts: seq<Pos>)
    requires forall i :: 0 <= i < |starts| ==> Open(hm, cols, starts[i])
    ensures Closed(hm, cols, Union(hm, cols, starts))
    ensures Union(hm, cols, starts) <= OpenCells(hm, cols)
  {
    if starts != [] {
      var k := |starts| - 1;
      var prefix := starts[..k];
      assert forall i :: 0 <= i < |prefix| ==> prefix[i] == starts[i];
      UnionClosed(hm, cols, prefix);
      BasinClosed(hm, cols, starts[k]);
      BasinIsOpen(hm, cols, starts[k]);
    }
  }

  /** Disjoint basins: the union of the first n has as many cells as their sizes add up to. */
  lemma {:induction false} UnionSize(hm: HeightMap, cols: int, starts: seq<Pos>, sizes: seq<int>, n: nat)
    requires n <= |sizes| == |starts|
    requires forall i :: 0 <= i < |starts| ==> sizes[i] == |Basin(hm, cols, starts[i])|
    requires forall i, j :: 0 <= i < j < |starts| ==> Basin(hm, cols, starts[i]) !! Basin(hm, cols, starts[j])
    ensures Sum(sizes[..n]) == |Union(hm, cols, starts[..n])|
  {
    if n > 0 {
      UnionSize(hm, cols, starts, sizes, n - 1);
      var prefix := starts[..n - 1];
      var start := starts[n - 1];
      PrefixSnoc(starts, n);
      assert Union(hm, cols, starts[..n]) == Union(hm, cols, prefix) + Basin(hm, cols, start);
      forall i | 0 <= i < n - 1
        ensures Basin(hm, cols, prefix[i]) !! Basin(hm, cols, start)
      {
        assert prefix[i] == starts[i];
      }
      UnionDisjoint(hm, cols, prefix, start);
      DisjointSize(Union(hm, cols, prefix), Basin(hm, cols, start));
      PrefixSnoc(sizes, n);
      SumAppend(sizes[..n - 1], sizes[n - 1]);
    }
  }

  lemma PrefixSnoc<T>(s: seq<T>, n: nat)
    requires 0 < n <= |s|
    ensures s[..n] == s[..n - 1] + [s[n - 1]]
    ensures s[..n][..n - 1] == s[..n - 1]
  {
  }

  lemma DisjointSize<T>(a: set<T>, b: set<T>)
    requires a !! b
    ensures |a + b| == |a| + |b|
  {
  }

  /** A basin that shares no cell with any of the earlier basins shares none with their union. */
  lemma {:induction false} UnionDisjoint(hm: HeightMap, cols: int, starts: seq<Pos>, start: Pos)
    requires forall i :: 0 <= i < |starts| ==> Basin(hm, cols, starts[i]) !! Basin(hm, cols, start)
    ensures Union(hm, cols, starts) !! Basin(hm, cols, start)
  {
    if starts != [] {
      UnionDisjoint(hm, cols, starts[..|starts| - 1], start);
      assert Basin(hm, cols, starts[|starts| - 1]) !! Basin(hm, cols, start);
    }
  }

  /** Adding the basin of a new open start keeps the scan a set of whole basins. */
  lemma ScanStep(hm: HeightMap, cols: int, scan: Scan, start: Pos)
    requires scan in WholeBasins(hm, cols)
    requires Open(hm, cols, start) && scan.seen !! Basin(hm, cols, start)
    ensures Scan(scan.seen + Basin(hm, cols, start), scan.sizes + [|Basin(hm, cols, start)|], scan.starts + [start]) in WholeBasins(hm, cols)
  {
    var basin := Basin(hm, cols, start);
    var sizes, starts := scan.sizes + [|basin|], scan.starts + [start];
    assert starts[..|starts| - 1] == scan.starts;
    assert Union(hm, cols, starts) == scan.seen + basin;
    forall i, j | 0 <= i < j < |starts|
      ensures Basin(hm, cols, starts[i]) !! Basin(hm, cols, starts[j])
    {
      if j == |starts| - 1 {
        UnionHolds(hm, cols, scan.starts, i);
      }
    }
    InWholeBasins(hm, cols, Scan(scan.seen + basin, sizes, starts));
  }

  /** Every open cell the corrected scan has passed over. */
  ghost predicate CoveredBefore(hm: HeightMap, cols: int, row: int, column: int, seen: set<Pos>)
  {
    forall p :: p in OpenCells(hm, cols) && (p.0 < row || (p.0 == row && p.1 < column)) ==> p in seen
  }

  lemma CoveredNextRow(hm: HeightMap, cols: int, row: int, seen: set<Pos>)
    requires CoveredBefore(hm, cols, row, cols, seen)
    ensures CoveredBefore(hm, cols, row + 1, 0, seen)
  {
  }

  lemma CoveredNextColumn(hm: HeightMap, cols: int, row: int, column: int, seen: set<Pos>)
    requires CoveredBefore(hm, cols, row, column, seen)
    requires (row, column) in seen || (row, column) !in OpenCells(hm, cols)
    ensures CoveredBefore(hm, cols, row, column + 1, seen)
  {
  }

  lemma CoveredAll(hm: HeightMap, cols: int, seen: set<Pos>)
    requires CoveredBefore(hm, cols, |hm|, 0, seen)
    ensures OpenCells(hm, cols) <= seen
  {
  }

  /**
   * The scan meets an open cell it has not seen: the search from it
   * succeeds and the basin is added to what the scan has gathered.
   */
  lemma ScanVisit(hm: HeightMap, cols: int, scan: Scan, start: Pos)
    requires Covers(hm, cols) && scan.seen <= GridCells(hm, cols)
    requires scan in WholeBasins(hm, cols)
    requires Open(hm, cols, start) && start !in scan.seen
    ensures Flood(hm, cols, [start], scan.seen, 0, start).Ok?
    ensures var fill := Flood(hm, cols, [start], scan.seen, 0, start).value;
      && Scan(fill.seen, scan.sizes + [fill.size], scan.starts + [start]) in WholeBasins(hm, cols)
      && scan.seen + {start} <= fill.seen
  {
    VisitFillsBasin(hm, cols, scan, start);
    ScanStep(hm, cols, scan, start);
  }

  /** The search from an open cell the scan has not seen adds exactly that cell's basin, which the scan had not touched. */
  lemma VisitFillsBasin(hm: HeightMap, cols: int, scan: Scan, start: Pos)
    requires Covers(hm, cols) && scan.seen <= GridCells(hm, cols)
    requires scan in WholeBasins(hm, cols)
    requires Open(hm, cols, start) && start !in scan.seen
    ensures Flood(hm, cols, [start], scan.seen, 0, start).Ok?
    ensures Flood(hm, cols, [start], scan.seen, 0, start).value.seen == scan.seen + Basin(hm, cols, start)
    ensures Flood(hm, cols, [start], scan.seen, 0, start).value.size == |Basin(hm, cols, start)|
    ensures scan.seen !! Basin(hm, cols, start) && start in Basin(hm, cols, start)
  {
    UnionOfBasins(hm, cols, scan);
    FloodFromStart(hm, cols, start, scan.seen);
    BasinClosed(hm, cols, start);
  }

  lemma InWholeBasins(hm: HeightMap, cols: int, scan: Scan)
    requires BasinsFound(hm, cols, scan)
    ensures scan in WholeBasins(hm, cols)
  {
  }

  /**
   * Visiting a basin keeps the scan inside the family `good`: from a scan
   * in the family and an open cell it has not seen, the search succeeds,
   * sees at least that cell, and the scan with the new basin added is
   * again in the family.
   */
  ghost predicate VisitKeeps(hm: HeightMap, cols: int, good: iset<Scan>)
  {
    forall s: Scan, start: Pos ::
      s in good && s.seen <= GridCells(hm, cols) && Open(hm, cols, start) && start !in s.seen ==>
      var r := Flood(hm, cols, [start], s.seen, 0, start);
      && r.Ok?
      && Scan(r.value.seen, s.sizes + [r.value.size], s.starts + [start]) in good
      && s.seen + {start} <= r.value.seen
  }

  /**
   * With every row long enough, the scan from any place it may stand
   * succeeds and ends in any family that visiting a basin keeps; the
   * corrected scan, having seen every open cell it passed, ends having
   * seen every open cell.
   */
  /** Where the scan may stand: what the proof of the scan carries from cell to cell. */
  ghost predicate KeepsReady(hm: HeightMap, cols: int, asWritten: bool, row: nat, rowVar: int, column: nat,
                             scan: Scan, good: iset<Scan>)
  {
    && Covers(hm, cols) && VisitKeeps(hm, cols, good)
    && (row < |hm| ==> 0 <= rowVar < |hm|)
    && scan.seen <= GridCells(hm, cols) && scan in good
    && (!asWritten ==> rowVar == row && CoveredBefore(hm, cols, row, column, scan.seen))
  }

  /** What the scan from there ends with. */
  ghost predicate KeepsEnd(hm: HeightMap, cols: int, asWritten: bool, row: nat, rowVar: int, column: nat,
                           scan: Scan, good: iset<Scan>)
    requires row < |hm| ==> 0 <= rowVar < |hm|
    requires scan.seen <= GridCells(hm, cols)
  {
    var r := Search(hm, cols, asWritten, row, rowVar, column, scan);
    && r.Ok?
    && r.value in good
    && (!asWritten ==> OpenCells(hm, cols) <= r.value.seen)
  }

  /**
   * With every row long enough, the scan from any place it may stand
   * succeeds and ends in any family that visiting a basin keeps; the
   * corrected scan, having seen every open cell it passed, ends having
   * seen every open cell.
   */
  lemma {:induction false} SearchKeeps(hm: HeightMap, cols: int, asWritten: bool, row: nat, rowVar: int, column: nat,
                                       scan: Scan, good: iset<Scan>)
    requires KeepsReady(hm, cols, asWritten, row, rowVar, column, scan, good)
    ensures KeepsEnd(hm, cols, asWritten, row, rowVar, column, scan, good)
    decreases |hm| - row, cols - column, 1
  {
    if row >= |hm| {
      if !asWritten {
        CoveredAll(hm, cols, scan.seen);
      }
    } else if column >= cols {
      KeepsNextRow(hm, cols, asWritten, row, rowVar, column, scan, good);
    } else if (rowVar, column) in scan.seen || hm[rowVar][column] == 9 {
      KeepsSkip(hm, cols, asWritten, row, rowVar, column, scan, good);
    } else {
      KeepsVisit(hm, cols, asWritten, row, rowVar, column, scan, good);
    }
  }

  lemma {:induction false} KeepsNextRow(hm: HeightMap, cols: int, asWritten: bool, row: nat, rowVar: int, column: nat,
                                        scan: Scan, good: iset<Scan>)
    requires KeepsReady(hm, cols, asWritten, row, rowVar, column, scan, good)
    requires row < |hm| && column >= cols
    ensures KeepsEnd(hm, cols, asWritten, row, rowVar, column, scan, good)
    decreases |hm| - row, cols - column, 0
  {
    if !asWritten {
      CoveredNextRow(hm, cols, row, scan.seen);
    }
    SearchKeeps(hm, cols, asWritten, row + 1, row + 1, 0, scan, good);
  }

  lemma {:induction false} KeepsSkip(hm: HeightMap, cols: int, asWritten: bool, row: nat, rowVar: int, column: nat,
                                     scan: Scan, good: iset<Scan>)
    requires KeepsReady(hm, cols, asWritten, row, rowVar, column, scan, good)
    requires row < |hm| && column < cols
    requires (rowVar, column) in scan.seen || hm[rowVar][column] == 9
    ensures KeepsEnd(hm, cols, asWritten, row, rowVar, column, scan, good)
    decreases |hm| - row, cols - column, 0
  {
    if !asWritten {
      CoveredNextColumn(hm, cols, row, column, scan.seen);
    }
    assert Readable(hm, (rowVar, column));
    SearchKeeps(hm, cols, asWritten, row, rowVar, column + 1, scan, good);
  }

  lemma {:induction false} KeepsVisit(hm: HeightMap, cols: int, asWritten: bool, row: nat, rowVar: int, column: nat,
                                      scan: Scan, good: iset<Scan>)
    requires KeepsReady(hm, cols, asWritten, row, rowVar, column, scan, good)
    requires row < |hm| && column < cols
    requires (rowVar, column) !in scan.seen && hm[rowVar][column] != 9
    ensures KeepsEnd(hm, cols, asWritten, row, rowVar, column, scan, good)
    decreases |hm| - row, cols - column, 0
  {
    var start := (rowVar, column);
    assert Open(hm, cols, start);
    var fill := Flood(hm, cols, [start], scan.seen, 0, start).value;
    var next := Scan(fill.seen, scan.sizes + [fill.size], scan.starts + [start]);
    if !asWritten {
      CoveredNextColumn(hm, cols, row, column, next.seen);
    }
    SearchKeeps(hm, cols, asWritten, row, if asWritten then fill.last.0 else rowVar, column + 1, next, good);
  }

  /** Visiting a basin keeps the scan a set of whole, disjoint basins. */
  lemma VisitKeepsWholeBasins(hm: HeightMap, cols: int)
    requires Covers(hm, cols)
    ensures VisitKeeps(hm, cols, WholeBasins(hm, cols))
  {
    forall s: Scan, start: Pos | s in WholeBasins(hm, cols) && s.seen <= GridCells(hm, cols)
                                 && Open(hm, cols, start) && start !in s.seen
      ensures Flood(hm, cols, [start], s.seen, 0, start).Ok?
      ensures var fill := Flood(hm, cols, [start], s.seen, 0, start).value;
        && Scan(fill.seen, s.sizes + [fill.size], s.starts + [start]) in WholeBasins(hm, cols)
        && s.seen + {start} <= fill.seen
    {
      ScanVisit(hm, cols, s, start);
    }
  }

  /**
   * With every row as long as the first, the scan succeeds, and what it
   * finds are whole basins: each size is the number of cells of the basin
   * it was found from, no two of those basins share a cell, and the sizes
   * add up to the number of cells seen. The corrected scan sees every open
   * cell, so every cell that is not a 9 lies in exactly one of the basins.
   */
  lemma ScanFindsBasins(hm: HeightMap, asWritten: bool)
    requires hm != [] && Covers(hm, |hm[0]|)
    ensures BasinScan(hm, asWritten).Ok?
    ensures BasinsFound(hm, |hm[0]|, BasinScan(hm, asWritten).value)
    ensures Sum(BasinScan(hm, asWritten).value.sizes) == |BasinScan(hm, asWritten).value.seen|
    ensures !asWritten ==> BasinScan(hm, asWritten).value.seen == OpenCells(hm, |hm[0]|)
  {
    var cols := |hm[0]|;
    var empty := Scan({}, [], []);
    VisitKeepsWholeBasins(hm, cols);
    assert empty in WholeBasins(hm, cols);
    SearchKeeps(hm, cols, asWritten, 0, 0, 0, empty, WholeBasins(hm, cols));
    UnionOfBasins(hm, cols, BasinScan(hm, asWritten).value);
  }

  /**
   * `find_size_basins`, corrected: with every row as long as the first, the
   * result is the basin sizes sorted ascending, and they add up to the
   * number of cells that are not a 9.
   */
  lemma BasinSizesCorrected(hm: HeightMap)
    requires hm != [] && Covers(hm, |hm[0]|)
    ensures SizeBasinsSpec(hm, false).Ok?
    ensures Sorted(SizeBasinsSpec(hm, false).value)
    ensures multiset(SizeBasinsSpec(hm, false).value) == multiset(BasinScan(hm, false).value.sizes)
    ensures Sum(BasinScan(hm, false).value.sizes) == |OpenCells(hm, |hm[0]|)|
  {
    ScanFindsBasins(hm, false);
  }

  /** Cells that lie within their rows. */
  predicate AllReadable(hm: HeightMap, cells: set<Pos>)
  {
    forall p :: p in cells ==> Readable(hm, p)
  }

  /** The search marks seen only cells it could read. */
  lemma {:induction false} FloodReadable(hm: HeightMap, cols: int, queue: seq<Pos>, seen: set<Pos>, size: nat, last: Pos)
    requires forall q :: q in queue ==> InGrid(hm, cols, q) && Readable(hm, q)
    requires seen <= GridCells(hm, cols) && InGrid(hm, cols, last)
    requires AllReadable(hm, seen)
    ensures Flood(hm, cols, queue, seen, size, last).Ok? ==> AllReadable(hm, Flood(hm, cols, queue, seen, size, last).value.seen)
    decreases |GridCells(hm, cols) - seen|, |queue|
  {
    if queue != [] {
      var p := queue[0];
      if p in seen {
        FloodReadable(hm, cols, queue[1..], seen, size, p);
      } else if Pushes(hm, cols, p, 4).Ok? {
        var next := Pushes(hm, cols, p, 4).value;
        assert p in GridCells(hm, cols) by { assert InGrid(hm, cols, p); }
        FewerUnseen(GridCells(hm, cols), seen, p);
        FloodReadable(hm, cols, queue[1..] + next, seen + {p}, size + 1, p);
      }
    }
  }

  /**
   * The corrected scan fails once a row shorter than the first lies ahead:
   * it reaches the first cell past that row's end unless the search from
   * an earlier cell fails first, and it never marks such a cell seen.
   */
  lemma {:induction false} SearchFails(hm: HeightMap, cols: int, row: nat, column: nat, scan: Scan, k: nat)
    requires row <= k < |hm| && |hm[k]| < cols
    requires row == k ==> column <= |hm[k]|
    requires scan.seen <= GridCells(hm, cols) && AllReadable(hm, scan.seen)
    ensures Search(hm, cols, false, row, row, column, scan).Err?
    decreases |hm| - row, cols - column
  {
    if column >= cols {
      SearchFails(hm, cols, row + 1, 0, scan, k);
    } else if (row, column) in scan.seen || (Readable(hm, (row, column)) && hm[row][column] == 9) {
      SearchFails(hm, cols, row, column + 1, scan, k);
    } else if Readable(hm, (row, column)) {
      var start := (row, column);
      FloodReadable(hm, cols, [start], scan.seen, 0, start);
      var r := Flood(hm, cols, [start], scan.seen, 0, start);
      if r.Ok? {
        var next := Scan(r.value.seen, scan.sizes + [r.value.size], scan.starts + [start]);
        SearchFails(hm, cols, row, column + 1, next, k);
      }
    }
  }

  /**
   * `find_size_basins`, corrected, fails exactly when the map is empty or
   * a row is shorter than the first.
   */
  lemma BasinScanCorrectedOk(hm: HeightMap)
    ensures BasinScan(hm, false).Ok? <==> hm != [] && Covers(hm, |hm[0]|)
    ensures SizeBasinsSpec(hm, false).Ok? <==> hm != [] && Covers(hm, |hm[0]|)
  {
    if hm != [] {
      var cols := |hm[0]|;
      if Covers(hm, cols) {
        ScanFindsBasins(hm, false);
      } else {
        var k :| 0 <= k < |hm| && |hm[k]| < cols;
        SearchFails(hm, cols, 0, 0, Scan({}, [], []), k);
      }
    }
  }

  /** The neighbours the search queues in the map of AsWrittenMissesBasin. */
  lemma ExamplePushes(hm: HeightMap)
    requires hm == [[0, 9, 0], [0, 0, 9]]
    ensures Pushes(hm, 3, (0, 0), 4) == Ok([(1, 0)])
    ensures Pushes(hm, 3, (1, 0), 4) == Ok([(0, 0), (1, 1)])
    ensures Pushes(hm, 3, (1, 1), 4) == Ok([(1, 0)])
  {
    assert DeltaRow[0] == -1 && DeltaRow[1] == 0 && DeltaRow[2] == 1 && DeltaRow[3] == 0;
    assert DeltaCol[0] == 0 && DeltaCol[1] == 1 && DeltaCol[2] == 0 && DeltaCol[3] == -1;
    assert |hm| == 2 && |hm[0]| == 3 && |hm[1]| == 3;
    assert hm[0][0] == 0 && hm[0][1] == 9 && hm[0][2] == 0;
    assert hm[1][0] == 0 && hm[1][1] == 0 && hm[1][2] == 9;
    assert Pushes(hm, 3, (0, 0), 1) == Ok([]);
    assert Pushes(hm, 3, (0, 0), 2) == Ok([]);
    assert [] + [(1, 0)] == [(1, 0)];
    assert Pushes(hm, 3, (0, 0), 3) == Ok([(1, 0)]);
    assert [] + [(0, 0)] == [(0, 0)];
    assert Pushes(hm, 3, (1, 0), 1) == Ok([(0, 0)]);
    assert [(0, 0)] + [(1, 1)] == [(0, 0), (1, 1)];
    assert Pushes(hm, 3, (1, 0), 2) == Ok([(0, 0), (1, 1)]);
    assert Pushes(hm, 3, (1, 0), 3) == Ok([(0, 0), (1, 1)]);
    assert Pushes(hm, 3, (1, 1), 1) == Ok([]);
    assert Pushes(hm, 3, (1, 1), 2) == Ok([]);
    assert Pushes(hm, 3, (1, 1), 3) == Ok([]);
  }

  /** The search from (0, 0) in the map of AsWrittenMissesBasin: it fills three cells and pops (1, 0) last. */
  lemma ExampleFlood(hm: HeightMap)
    requires hm == [[0, 9, 0], [0, 0, 9]]
    ensures Flood(hm, 3, [(0, 0)], {}, 0, (0, 0)) == Ok(Fill({(0, 0), (1, 0), (1, 1)}, 3, (1, 0)))
  {
    var basin := {(0, 0), (1, 0), (1, 1)};
    assert |hm| == 2;
    ExamplePushes(hm);
    assert Flood(hm, 3, [], basin, 3, (1, 0)) == Ok(Fill(basin, 3, (1, 0)));
    assert Flood(hm, 3, [(1, 0)], basin, 3, (1, 1)) == Ok(Fill(basin, 3, (1, 0)));
    assert [(1, 1)][1..] + [(1, 0)] == [(1, 0)];
    assert {(0, 0), (1, 0)} + {(1, 1)} == basin;
    assert Flood(hm, 3, [(1, 1)], {(0, 0), (1, 0)}, 2, (0, 0)) == Ok(Fill(basin, 3, (1, 0)));
    assert [(0, 0), (1, 1)][1..] == [(1, 1)];
    assert Flood(hm, 3, [(0, 0), (1, 1)], {(0, 0), (1, 0)}, 2, (1, 0)) == Ok(Fill(basin, 3, (1, 0)));
    assert [(1, 0)][1..] + [(0, 0), (1, 1)] == [(0, 0), (1, 1)];
    assert {(0, 0)} + {(1, 0)} == {(0, 0), (1, 0)};
    assert Flood(hm, 3, [(1, 0)], {(0, 0)}, 1, (0, 0)) == Ok(Fill(basin, 3, (1, 0)));
    assert [(0, 0)][1..] + [(1, 0)] == [(1, 0)];
    assert {} + {(0, 0)} == {(0, 0)};
  }

  /** The scan as written in the map of AsWrittenMissesBasin: one basin, of three cells. */
  lemma ExampleScanAsWritten(hm: HeightMap)
    requires hm == [[0, 9, 0], [0, 0, 9]]
    ensures BasinScan(hm, true) == Ok(Scan({(0, 0), (1, 0), (1, 1)}, [3], [(0, 0)]))
  {
    var s0 := Scan({}, [], []);
    var basin := {(0, 0), (1, 0), (1, 1)};
    assert |hm| == 2 && |hm[0]| == 3 && |hm[1]| == 3;
    assert hm[1][2] == 9;
    ExampleFlood(hm);
    var s1 := Scan(basin, [3], [(0, 0)]);
    assert Search(hm, 3, true, 2, 2, 0, s1) == Ok(s1);
    assert Search(hm, 3, true, 1, 1, 3, s1) == Ok(s1);
    assert Search(hm, 3, true, 1, 1, 2, s1) == Ok(s1);
    assert Search(hm, 3, true, 1, 1, 1, s1) == Ok(s1);
    assert Search(hm, 3, true, 1, 1, 0, s1) == Ok(s1);
    assert Search(hm, 3, true, 0, 1, 3, s1) == Ok(s1);
    assert Search(hm, 3, true, 0, 1, 2, s1) == Ok(s1);
    assert Search(hm, 3, true, 0, 1, 1, s1) == Ok(s1);
    assert Scan(basin, s0.sizes + [3], s0.starts + [(0, 0)]) == s1;
  }

  /**
   * The scan as written misses a basin: in this map the search from (0, 0)
   * pops (1, 0) last, so the rest of row 0 is examined in row 1 and the
   * open cell (0, 2) is never counted. The corrected scan counts it.
   */
  lemma AsWrittenMissesBasin(hm: HeightMap)
    requires hm == [[0, 9, 0], [0, 0, 9]]
    ensures SizeBasinsSpec(hm, true) == Ok([3])
    ensures (0, 2) in OpenCells(hm, 3)
    ensures BasinScan(hm, true).Ok? && (0, 2) !in BasinScan(hm, true).value.seen
    ensures BasinScan(hm, false).Ok? && (0, 2) in BasinScan(hm, false).value.seen
  {
    assert |hm| == 2 && |hm[0]| == 3 && |hm[1]| == 3;
    assert hm[0][2] == 0;
    ExampleScanAsWritten(hm);
    assert SortAscending([3]) == [3];
    assert (0, 2) in GridCells(hm, 3);
    assert Covers(hm, 3);
    ScanFindsBasins(hm, false);
  }
}
