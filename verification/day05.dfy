/**
 * Hydrothermal vents: line segments between two points are normalised, then
 * rasterised onto a square counter field; the answer is the number of cells
 * that two or more segments cover.
 */
module Day5Vents {
  import opened Common

  /** A segment as the reader yields it: x start, x stop, y start, y stop, diagonal flag. */
  datatype Segment = Segment(x1: int, x2: int, y1: int, y2: int, diagonal: bool)

  /**
   * The case split of the reader: a horizontal or vertical line is ordered so
   * that both coordinates ascend and flagged straight; a 45-degree line keeps
   * its endpoints and is flagged diagonal; any other line is dropped.
   */
  function Normalise(x1: int, y1: int, x2: int, y2: int): (s: Option<Segment>)
    ensures s.Some? <==> x1 == x2 || y1 == y2 || Abs(x1 - x2) == Abs(y1 - y2)
    ensures s.Some? && !s.value.diagonal ==>
      (x1 == x2 || y1 == y2)
      && s.value.x1 == Min(x1, x2) && s.value.x2 == Max(x1, x2)
      && s.value.y1 == Min(y1, y2) && s.value.y2 == Max(y1, y2)
    ensures s.Some? && s.value.diagonal ==>
      x1 != x2 && y1 != y2 && s.value == Segment(x1, x2, y1, y2, true)
  {
    if x1 == x2 || y1 == y2 then
      var (ya, yb) := if y1 > y2 then (y2, y1) else (y1, y2);
      var (xa, xb) := if x1 > x2 then (x2, x1) else (x1, x2);
      Some(Segment(xa, xb, ya, yb, false))
    else if Abs(x1 - x2) == Abs(y1 - y2) then Some(Segment(x1, x2, y1, y2, true))
    else None
  }

  /** A bound of a numpy slice over an axis of length n: negative counts from the end, then clipped. */
  function SliceBound(b: int, n: nat): (r: nat)
    ensures r <= n
    ensures 0 <= b <= n ==> r == b
  {
    if b < 0 then (if b + n < 0 then 0 else b + n) else if b > n then n else b
  }

  /** A numpy index on an axis of length n, valid in [-n, n): negative counts from the end. */
  function Wrap(k: int, n: nat): (r: nat)
    requires -(n as int) <= k < n
    ensures r < n
  {
    if k < 0 then k + n else k
  }

  predicate InAxis(k: int, n: nat)
  {
    -(n as int) <= k < n
  }

  /** How often the slice `field[x1:x2+1, y1:y2+1] += 1` raises cell (x, y): once or never. */
  function StraightHits(s: Segment, n: nat, x: int, y: int): nat
  {
    if SliceBound(s.x1, n) <= x < SliceBound(s.x2 + 1, n) && SliceBound(s.y1, n) <= y < SliceBound(s.y2 + 1, n)
    then 1 else 0
  }

  /** The number of points a diagonal visits, and its direction on each axis. */
  function Steps(s: Segment): nat
  {
    Abs(s.x2 - s.x1) + 1
  }

  function DeltaX(s: Segment): int
  {
    if s.x2 > s.x1 then 1 else -1
  }

  function DeltaY(s: Segment): int
  {
    if s.y2 > s.y1 then 1 else -1
  }

  /** The i-th point of a diagonal. */
  function PointX(s: Segment, i: int): int
  {
    s.x1 + DeltaX(s) * i
  }

  function PointY(s: Segment, i: int): int
  {
    s.y1 + DeltaY(s) * i
  }

  /** Every point of the diagonal is a valid index of the field. */
  predicate DiagonalFits(s: Segment, n: nat)
  {
    forall i :: 0 <= i < Steps(s) ==> InAxis(PointX(s, i), n) && InAxis(PointY(s, i), n)
  }

  /** How often the first k points of a diagonal raise cell (x, y), when those points are valid indices. */
  function DiagonalHits(s: Segment, n: nat, x: int, y: int, k: nat): nat
    requires forall j :: 0 <= j < k ==> InAxis(PointX(s, j), n) && InAxis(PointY(s, j), n)
  {
    if k == 0 then 0
    else
      var i := k - 1;
      assert InAxis(PointX(s, i), n) && InAxis(PointY(s, i), n);
      DiagonalHits(s, n, x, y, i)
        + (if Wrap(PointX(s, i), n) == x && Wrap(PointY(s, i), n) == y then 1 else 0)
  }

  /** One more point of a diagonal raises exactly the cell it names. */
  lemma DiagonalHitsNext(s: Segment, n: nat, i: nat, wx: int, wy: int)
    requires forall j :: 0 <= j < i ==> InAxis(PointX(s, j), n) && InAxis(PointY(s, j), n)
    requires InAxis(PointX(s, i), n) && InAxis(PointY(s, i), n)
    requires wx == Wrap(PointX(s, i), n) && wy == Wrap(PointY(s, i), n)
    ensures forall x, y :: DiagonalHits(s, n, x, y, i + 1) == DiagonalHits(s, n, x, y, i) + (if x == wx && y == wy then 1 else 0)
  {
  }

  /** Whether a segment is drawn as a diagonal, and whether that draw stays inside the field. */
  predicate DrawnDiagonally(s: Segment, useDiagonals: bool)
  {
    useDiagonals && s.diagonal
  }

  predicate Fits(lines: seq<Segment>, useDiagonals: bool, n: nat)
  {
    forall k :: 0 <= k < |lines| && DrawnDiagonally(lines[k], useDiagonals) ==> DiagonalFits(lines[k], n)
  }

  /** How often one segment raises cell (x, y). */
  function Hits(s: Segment, useDiagonals: bool, n: nat, x: int, y: int): nat
    requires DrawnDiagonally(s, useDiagonals) ==> DiagonalFits(s, n)
  {
    if DrawnDiagonally(s, useDiagonals) then DiagonalHits(s, n, x, y, Steps(s))
    else if !s.diagonal then StraightHits(s, n, x, y)
    else 0
  }

  /** The counter of cell (x, y) after all segments are drawn. */
  function Count(lines: seq<Segment>, useDiagonals: bool, n: nat, x: int, y: int): nat
    requires Fits(lines, useDiagonals, n)
  {
    if lines == [] then 0
    else
      Count(lines[..|lines| - 1], useDiagonals, n, x, y) + Hits(lines[|lines| - 1], useDiagonals, n, x, y)
  }

  /** The cells (x, y) with y < cols whose counter is at least 2. */
  function RowOverlaps(lines: seq<Segment>, useDiagonals: bool, n: nat, x: int, cols: nat): nat
    requires Fits(lines, useDiagonals, n)
  {
    if cols == 0 then 0
    else
      RowOverlaps(lines, useDiagonals, n, x, cols - 1)
        + (if Count(lines, useDiagonals, n, x, cols - 1) >= 2 then 1 else 0)
  }

  /** The cells in the first `rows` rows of the field whose counter is at least 2. */
  function Overlaps(lines: seq<Segment>, useDiagonals: bool, n: nat, rows: nat): nat
    requires Fits(lines, useDiagonals, n)
  {
    if rows == 0 then 0
    else Overlaps(lines, useDiagonals, n, rows - 1) + RowOverlaps(lines, useDiagonals, n, rows - 1, n)
  }

  /** The overlap count never exceeds the number of cells considered. */
  lemma {:induction false} OverlapsBound(lines: seq<Segment>, useDiagonals: bool, n: nat, rows: nat)
    requires Fits(lines, useDiagonals, n)
    ensures Overlaps(lines, useDiagonals, n, rows) <= rows * n
  {
    if rows > 0 {
      OverlapsBound(lines, useDiagonals, n, rows - 1);
      RowOverlapsBound(lines, useDiagonals, n, rows - 1, n);
      assert rows * n == (rows - 1) * n + n;
    }
  }

  lemma {:induction false} RowOverlapsBound(lines: seq<Segment>, useDiagonals: bool, n: nat, x: int, cols: nat)
    requires Fits(lines, useDiagonals, n)
    ensures RowOverlaps(lines, useDiagonals, n, x, cols) <= cols
  {
    if cols > 0 {
      RowOverlapsBound(lines, useDiagonals, n, x, cols - 1);
    }
  }

  /**
   * A straight segment with its corners inside the field raises exactly the
   * cells of its bounding box, once each.
   */
  lemma StraightCoversBox(s: Segment, n: nat, x: int, y: int)
    requires 0 <= s.x1 < n && 0 <= s.x2 < n && 0 <= s.y1 < n && 0 <= s.y2 < n
    ensures StraightHits(s, n, x, y) == if s.x1 <= x <= s.x2 && s.y1 <= y <= s.y2 then 1 else 0
  {
  }

  /** A straight segment that is not normalised (a coordinate descends) raises nothing. */
  lemma DescendingSliceIsEmpty(s: Segment, n: nat, x: int, y: int)
    requires 0 <= s.x2 < s.x1 || 0 <= s.y2 < s.y1
    ensures StraightHits(s, n, x, y) == 0
  {
  }

  /** The point of a diagonal at step i lies i steps from its start on both axes. */
  predicate OnDiagonal(s: Segment, x: int, y: int, k: nat)
  {
    var i := DeltaX(s) * (x - s.x1);
    0 <= i < k && DeltaY(s) * (y - s.y1) == i
  }

  /**
   * A diagonal with its points inside the field raises each of its points
   * once and no other cell: Steps(s) = |x2 - x1| + 1 cells in all.
   */
  lemma {:induction false} DiagonalCellsOnce(s: Segment, n: nat, x: int, y: int, k: nat)
    requires k <= Steps(s) && DiagonalFits(s, n)
    requires forall i :: 0 <= i < Steps(s) ==> 0 <= PointX(s, i) && 0 <= PointY(s, i)
    ensures DiagonalHits(s, n, x, y, k) == if OnDiagonal(s, x, y, k) then 1 else 0
  {
    if k > 0 {
      DiagonalCellsOnce(s, n, x, y, k - 1);
      var i := k - 1;
      assert 0 <= PointX(s, i) && 0 <= PointY(s, i);
      StepOfPoint(s, i);
      if DeltaX(s) * (x - s.x1) == i && DeltaY(s) * (y - s.y1) == i {
        PointOfStep(s, x, y, i);
      }
    }
  }

  /** The i-th point is i steps along both axes. */
  lemma StepOfPoint(s: Segment, i: int)
    ensures DeltaX(s) * (PointX(s, i) - s.x1) == i && DeltaY(s) * (PointY(s, i) - s.y1) == i
  {
    assert DeltaX(s) * DeltaX(s) == 1 && DeltaY(s) * DeltaY(s) == 1;
    assert DeltaX(s) * (DeltaX(s) * i) == (DeltaX(s) * DeltaX(s)) * i;
    assert DeltaY(s) * (DeltaY(s) * i) == (DeltaY(s) * DeltaY(s)) * i;
  }

  /** A cell i steps along both axes is the i-th point. */
  lemma PointOfStep(s: Segment, x: int, y: int, i: int)
    requires DeltaX(s) * (x - s.x1) == i && DeltaY(s) * (y - s.y1) == i
    ensures PointX(s, i) == x && PointY(s, i) == y
  {
    assert DeltaX(s) * DeltaX(s) == 1 && DeltaY(s) * DeltaY(s) == 1;
    assert DeltaX(s) * (DeltaX(s) * (x - s.x1)) == (DeltaX(s) * DeltaX(s)) * (x - s.x1);
    assert DeltaY(s) * (DeltaY(s) * (y - s.y1)) == (DeltaY(s) * DeltaY(s)) * (y - s.y1);
  }

  /** The non-diagonal segments, in order. */
  function StraightOnly(lines: seq<Segment>): (r: seq<Segment>)
    ensures forall k :: 0 <= k < |r| ==> !r[k].diagonal
  {
    if lines == [] then []
    else StraightOnly(lines[..|lines| - 1]) + (if lines[|lines| - 1].diagonal then [] else [lines[|lines| - 1]])
  }

  /** Without diagonals, the field is what the straight segments alone draw. */
  lemma {:induction false} WithoutDiagonals(lines: seq<Segment>, n: nat, x: int, y: int)
    ensures Fits(lines, false, n) && Fits(StraightOnly(lines), true, n)
    ensures Count(lines, false, n, x, y) == Count(StraightOnly(lines), true, n, x, y)
  {
    if lines != [] {
      var init := lines[..|lines| - 1];
      var last := lines[|lines| - 1];
      WithoutDiagonals(init, n, x, y);
      var r := StraightOnly(lines);
      if last.diagonal {
        assert r == StraightOnly(init);
      } else {
        assert r == StraightOnly(init) + [last];
        assert r[..|r| - 1] == StraightOnly(init);
      }
    }
  }

  /** Adding one more segment adds its hits to every counter. */
  lemma CountStep(lines: seq<Segment>, useDiagonals: bool, n: nat, k: nat, x: int, y: int)
    requires k < |lines| && Fits(lines[..k + 1], useDiagonals, n)
    ensures Fits(lines[..k], useDiagonals, n)
    ensures Count(lines[..k + 1], useDiagonals, n, x, y)
      == Count(lines[..k], useDiagonals, n, x, y) + Hits(lines[k], useDiagonals, n, x, y)
  {
    assert lines[..k + 1][..k] == lines[..k];
  }

  /** A segment that does not fit makes every longer input not fit. */
  lemma MisfitStays(lines: seq<Segment>, useDiagonals: bool, n: nat, k: nat)
    requires k < |lines| && DrawnDiagonally(lines[k], useDiagonals) && !DiagonalFits(lines[k], n)
    ensures !Fits(lines, useDiagonals, n)
  {
  }

  /** `field[x1:x2+1, y1:y2+1] += 1`, cell by cell. */
  method AddStraight(field: array2<int>, s: Segment)
    requires field.Length0 == field.Length1
    modifies field
    ensures forall x, y :: 0 <= x < field.Length0 && 0 <= y < field.Length1 ==>
      field[x, y] == old(field[x, y]) + StraightHits(s, field.Length0, x, y)
  {
    var n := field.Length0;
    var a, b := SliceBound(s.x1, n), SliceBound(s.x2 + 1, n);
    var c, d := SliceBound(s.y1, n), SliceBound(s.y2 + 1, n);
    if a < b && c < d {
      for x := a to b
        invariant forall x', y' :: 0 <= x' < n && 0 <= y' < n ==>
          field[x', y'] == old(field[x', y']) + (if a <= x' < x && c <= y' < d then 1 else 0)
      {
        for y := c to d
          invariant forall x', y' :: 0 <= x' < n && 0 <= y' < n ==>
            field[x', y'] == old(field[x', y'])
              + (if (a <= x' < x && c <= y' < d) || (x' == x && c <= y' < y) then 1 else 0)
        {
          field[x, y] := field[x, y] + 1;
        }
      }
    }
  }

  /**
   * Walks the diagonal from (x1, y1), one step on both axes at a time,
   * raising each point; false when a point is not a valid index (the
   * IndexError), with the field then left part-way.
   */
  method AddDiagonal(field: array2<int>, s: Segment) returns (ok: bool)
    requires field.Length0 == field.Length1
    modifies field
    ensures ok <==> DiagonalFits(s, field.Length0)
    ensures ok ==> forall x, y :: 0 <= x < field.Length0 && 0 <= y < field.Length1 ==>
      field[x, y] == old(field[x, y]) + DiagonalHits(s, field.Length0, x, y, Steps(s))
  {
    var n := field.Length0;
    for i := 0 to Abs(s.x2 - s.x1) + 1
      invariant forall j :: 0 <= j < i ==> InAxis(PointX(s, j), n) && InAxis(PointY(s, j), n)
      invariant forall x, y :: 0 <= x < n && 0 <= y < n ==>
        field[x, y] == old(field[x, y]) + DiagonalHits(s, n, x, y, i)
    {
      var px, py := PointX(s, i), PointY(s, i);
      if !(InAxis(px, n) && InAxis(py, n)) {
        return false;
      }
      var wx, wy := Wrap(px, n), Wrap(py, n);
      field[wx, wy] := field[wx, wy] + 1;
      DiagonalHitsNext(s, n, i, wx, wy);
    }
    return true;
  }

  /** Counts the cells whose counter reached 2, row by row. */
  method CountOverlaps(field: array2<int>, ghost lines: seq<Segment>, useDiagonals: bool)
    returns (count: nat)
    requires field.Length0 == field.Length1 && Fits(lines, useDiagonals, field.Length0)
    requires forall x, y :: 0 <= x < field.Length0 && 0 <= y < field.Length1 ==>
      field[x, y] == Count(lines, useDiagonals, field.Length0, x, y)
    ensures count == Overlaps(lines, useDiagonals, field.Length0, field.Length0)
  {
    var n := field.Length0;
    count := 0;
    for x := 0 to n
      invariant count == Overlaps(lines, useDiagonals, n, x)
    {
      var inRow := 0;
      for y := 0 to n
        invariant inRow == RowOverlaps(lines, useDiagonals, n, x, y)
      {
        if field[x, y] >= 2 {
          inRow := inRow + 1;
        }
      }
      count := count + inRow;
    }
  }

  /**
   * Draws every segment on a zeroed n-by-n field (diagonals only when asked
   * to) and counts the cells covered at least twice; a diagonal that leaves
   * the field is an IndexError.
   */
  method CalcPointsOverlapping(lines: seq<Segment>, useDiagonals: bool, fieldSize: nat)
    returns (r: Result<nat>)
    ensures r.Ok? <==> Fits(lines, useDiagonals, fieldSize)
    ensures r.Ok? ==> r.value == Overlaps(lines, useDiagonals, fieldSize, fieldSize)
    ensures r.Err? ==> r.error == IndexError
  {
    var n := fieldSize;
    var field := new int[n, n]((x, y) => 0);
    for k := 0 to |lines|
      invariant Fits(lines[..k], useDiagonals, n)
      invariant forall x, y :: 0 <= x < n && 0 <= y < n ==> field[x, y] == Count(lines[..k], useDiagonals, n, x, y)
    {
      var s := lines[k];
      if useDiagonals && s.diagonal {
        var ok := AddDiagonal(field, s);
        if !ok {
          MisfitStays(lines, useDiagonals, n, k);
          return Err(IndexError);
        }
      } else if !s.diagonal {
        AddStraight(field, s);
      }
      assert Fits(lines[..k + 1], useDiagonals, n) by {
        assert lines[..k + 1] == lines[..k] + [s];
      }
      forall x, y | 0 <= x < n && 0 <= y < n
        ensures field[x, y] == Count(lines[..k + 1], useDiagonals, n, x, y)
      {
        CountStep(lines, useDiagonals, n, k, x, y);
      }
    }
    assert lines[..|lines|] == lines;
    var count := CountOverlaps(field, lines, useDiagonals);
    return Ok(count);
  }
}
