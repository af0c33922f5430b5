/**
 * Giant squid bingo: 5x5 boards with per-row and per-column hit counters, a
 * finish test, the score of a board, and the parser that cuts the input lines
 * into boards at blank lines.
 */
module Day4Bingo {
  import opened Common
  import Decimal
  import opened Text

  type Grid = seq<seq<int>>

  predicate IsGrid(g: Grid)
  {
    |g| == 5 && forall r :: 0 <= r < 5 ==> |g[r]| == 5
  }

  function Zeros(): (g: Grid)
    ensures IsGrid(g) && forall r, c :: 0 <= r < 5 && 0 <= c < 5 ==> g[r][c] == 0
  {
    seq(5, r => seq(5, c => 0))
  }

  /** The row-major position of a cell. */
  function Flat(p: (int, int)): int
  {
    5 * p.0 + p.1
  }

  /**
   * The cells among the first i in row-major order that hold `number`, listed
   * in row-major order, which is how `np.where` reports them.
   */
  function MatchesBefore(board: Grid, number: int, i: nat): seq<(int, int)>
    requires IsGrid(board) && i <= 25
  {
    if i == 0 then []
    else
      var prev := MatchesBefore(board, number, i - 1);
      var r, c := (i - 1) / 5, (i - 1) % 5;
      if board[r][c] == number then prev + [(r, c)] else prev
  }

  ghost predicate MatchShape(board: Grid, number: int, i: nat, m: seq<(int, int)>)
    requires IsGrid(board)
  {
    (forall k :: 0 <= k < |m| ==>
      0 <= m[k].0 < 5 && 0 <= m[k].1 < 5 && board[m[k].0][m[k].1] == number && Flat(m[k]) < i)
    && (forall j, k :: 0 <= j < k < |m| ==> Flat(m[j]) < Flat(m[k]))
    && (forall r, c :: 0 <= r < 5 && 0 <= c < 5 && 5 * r + c < i && board[r][c] == number ==> (r, c) in m)
  }

  /**
   * The matches among the first i cells are cells holding the number, in
   * strictly increasing row-major order, and every such cell is among them.
   */
  lemma {:induction false} MatchesBeforeShape(board: Grid, number: int, i: nat)
    requires IsGrid(board) && i <= 25
    ensures MatchShape(board, number, i, MatchesBefore(board, number, i))
  {
    if i > 0 {
      MatchesBeforeShape(board, number, i - 1);
      var r, c := (i - 1) / 5, (i - 1) % 5;
      assert 5 * r + c == i - 1;
      MatchShapeStep(board, number, i - 1, MatchesBefore(board, number, i - 1), r, c);
    }
  }

  /** Looking at cell (r, c), the n-th in row-major order, extends the matches among the first n cells. */
  lemma MatchShapeStep(board: Grid, number: int, n: nat, prev: seq<(int, int)>, r: int, c: int)
    requires IsGrid(board) && n < 25 && MatchShape(board, number, n, prev)
    requires 0 <= r < 5 && 0 <= c < 5 && 5 * r + c == n
    ensures MatchShape(board, number, n + 1, if board[r][c] == number then prev + [(r, c)] else prev)
  {
    var m := if board[r][c] == number then prev + [(r, c)] else prev;
    forall k | 0 <= k < |m|
      ensures 0 <= m[k].0 < 5 && 0 <= m[k].1 < 5 && board[m[k].0][m[k].1] == number && Flat(m[k]) < n + 1
    {
      if k < |prev| {
        assert m[k] == prev[k];
      }
    }
    forall j, k | 0 <= j < k < |m|
      ensures Flat(m[j]) < Flat(m[k])
    {
      assert m[j] == prev[j];
      if k < |prev| {
        assert m[k] == prev[k];
      }
    }
    forall r', c' | 0 <= r' < 5 && 0 <= c' < 5 && 5 * r' + c' < n + 1 && board[r'][c'] == number
      ensures (r', c') in m
    {
      if 5 * r' + c' == n {
        assert r' == r && c' == c;
        assert m[|m| - 1] == (r, c);
      } else {
        assert (r', c') in prev;
      }
    }
  }

  /** All cells of the board holding `number`. */
  function Matches(board: Grid, number: int): (m: seq<(int, int)>)
    requires IsGrid(board)
    ensures forall k :: 0 <= k < |m| ==> 0 <= m[k].0 < 5 && 0 <= m[k].1 < 5
  {
    MatchesBeforeShape(board, number, 25);
    MatchesBefore(board, number, 25)
  }

  /** The matches are exactly the cells holding the number, each listed once. */
  lemma MatchesAreCellsHoldingNumber(board: Grid, number: int)
    requires IsGrid(board)
    ensures var m := Matches(board, number);
      (forall r, c :: 0 <= r < 5 && 0 <= c < 5 ==> ((r, c) in m <==> board[r][c] == number))
      && (forall p :: p in m ==> 0 <= p.0 < 5 && 0 <= p.1 < 5)
      && (forall j, k :: 0 <= j < k < |m| ==> m[j] != m[k])
  {
    var m := Matches(board, number);
    MatchesBeforeShape(board, number, 25);
    forall p | p in m
      ensures 0 <= p.0 < 5 && 0 <= p.1 < 5 && board[p.0][p.1] == number
    {
      var k :| 0 <= k < |m| && m[k] == p;
    }
    forall j, k | 0 <= j < k < |m|
      ensures m[j] != m[k]
    {
      assert Flat(m[j]) < Flat(m[k]);
    }
  }

  /** Scans the board in row-major order, collecting the cells that hold `number`. */
  method Where(board: Grid, number: int) returns (found: seq<(int, int)>)
    requires IsGrid(board)
    ensures found == Matches(board, number)
  {
    found := [];
    for i := 0 to 25
      invariant found == MatchesBefore(board, number, i)
    {
      if board[i / 5][i % 5] == number {
        found := found + [(i / 5, i % 5)];
      }
    }
  }

  /** How many marks lie in row r (column c). */
  function CountRow(marks: seq<(int, int)>, r: int): nat
  {
    if marks == [] then 0
    else CountRow(marks[..|marks| - 1], r) + (if marks[|marks| - 1].0 == r then 1 else 0)
  }

  function CountCol(marks: seq<(int, int)>, c: int): nat
  {
    if marks == [] then 0
    else CountCol(marks[..|marks| - 1], c) + (if marks[|marks| - 1].1 == c then 1 else 0)
  }

  /** A new mark at (r, c) adds one to row r's and column c's counts only. */
  lemma CountsAfterMark(marks: seq<(int, int)>, r: int, c: int)
    ensures forall i :: CountRow(marks + [(r, c)], i) == CountRow(marks, i) + (if i == r then 1 else 0)
    ensures forall j :: CountCol(marks + [(r, c)], j) == CountCol(marks, j) + (if j == c then 1 else 0)
  {
    assert (marks + [(r, c)])[..|marks|] == marks;
  }

  /**
   * The counters and the hit matrix agree with the marks: each counter is
   * the number of marks on its line, and a cell is hit iff it was marked.
   */
  ghost predicate Consistent(marks: seq<(int, int)>, rows: seq<int>, cols: seq<int>, g: Grid)
  {
    |rows| == 5 && |cols| == 5 && IsGrid(g)
    && (forall k :: 0 <= k < |marks| ==> 0 <= marks[k].0 < 5 && 0 <= marks[k].1 < 5)
    && (forall r :: 0 <= r < 5 ==> rows[r] == CountRow(marks, r))
    && (forall c :: 0 <= c < 5 ==> cols[c] == CountCol(marks, c))
    && (forall r, c :: 0 <= r < 5 && 0 <= c < 5 ==> g[r][c] == if (r, c) in marks then 1 else 0)
  }

  /** Marking (r, c) keeps the counters and the hit matrix in step with the marks. */
  lemma ConsistentAfterMark(marks: seq<(int, int)>, rows: seq<int>, cols: seq<int>, g: Grid, r: int, c: int)
    requires Consistent(marks, rows, cols, g) && 0 <= r < 5 && 0 <= c < 5
    ensures Consistent(marks + [(r, c)], rows[r := rows[r] + 1], cols[c := cols[c] + 1], g[r := g[r][c := 1]])
  {
    var m := marks + [(r, c)];
    var rows', cols' := rows[r := rows[r] + 1], cols[c := cols[c] + 1];
    CountsAfterMark(marks, r, c);
    forall k | 0 <= k < |m|
      ensures 0 <= m[k].0 < 5 && 0 <= m[k].1 < 5
    {
      if k < |marks| {
        assert m[k] == marks[k];
      }
    }
    forall i | 0 <= i < 5
      ensures rows'[i] == CountRow(m, i)
    {
    }
    forall j | 0 <= j < 5
      ensures cols'[j] == CountCol(m, j)
    {
    }
    HitsAfterMark(marks, g, r, c);
  }

  /** Marking (r, c) sets exactly that cell of the hit matrix. */
  lemma HitsAfterMark(marks: seq<(int, int)>, g: Grid, r: int, c: int)
    requires IsGrid(g) && 0 <= r < 5 && 0 <= c < 5
    requires forall i, j :: 0 <= i < 5 && 0 <= j < 5 ==> g[i][j] == if (i, j) in marks then 1 else 0
    ensures IsGrid(g[r := g[r][c := 1]])
    ensures forall i, j :: 0 <= i < 5 && 0 <= j < 5 ==>
      g[r := g[r][c := 1]][i][j] == if (i, j) in marks + [(r, c)] then 1 else 0
  {
    forall i, j | 0 <= i < 5 && 0 <= j < 5
      ensures g[r := g[r][c := 1]][i][j] == if (i, j) in marks + [(r, c)] then 1 else 0
    {
      MarkedAfter(marks, (r, c), (i, j));
    }
  }

  /** The sum of the cells among the first i (row-major) whose hit entry is 0. */
  function UnmarkedBefore(board: Grid, hits: Grid, i: nat): int
    requires IsGrid(board) && IsGrid(hits) && i <= 25
  {
    if i == 0 then 0
    else
      var r, c := (i - 1) / 5, (i - 1) % 5;
      UnmarkedBefore(board, hits, i - 1) + (if hits[r][c] == 0 then board[r][c] else 0)
  }

  /** Marking one unmarked cell removes exactly its value from the unmarked sum. */
  lemma {:induction false} MarkingRemovesCell(board: Grid, hits: Grid, r: int, c: int, i: nat)
    requires IsGrid(board) && IsGrid(hits) && i <= 25
    requires 0 <= r < 5 && 0 <= c < 5 && hits[r][c] == 0
    ensures var marked := hits[r := hits[r][c := 1]];
      IsGrid(marked) &&
      UnmarkedBefore(board, marked, i) == UnmarkedBefore(board, hits, i) - (if 5 * r + c < i then board[r][c] else 0)
  {
    if i > 0 {
      MarkingRemovesCell(board, hits, r, c, i - 1);
    }
  }

  class BingoBoard {
    const board: Grid
    const row: array<int>
    const col: array<int>
    const hits: array2<int>
    /** The cells marked so far, in the order they were drawn. */
    ghost var marks: seq<(int, int)>

    ghost predicate Valid()
      reads this, row, col, hits
    {
      IsGrid(board) && row.Length == 5 && col.Length == 5 && row != col
      && hits.Length0 == 5 && hits.Length1 == 5
      && Consistent(marks, row[..], col[..], HitGrid())
    }

    /** The hit matrix as a value. */
    function HitGrid(): (g: Grid)
      reads this, hits
      requires hits.Length0 == 5 && hits.Length1 == 5
      ensures IsGrid(g) && forall r, c :: 0 <= r < 5 && 0 <= c < 5 ==> g[r][c] == hits[r, c]
    {
      seq(5, r requires 0 <= r < 5 reads hits => seq(5, c requires 0 <= c < 5 reads hits => hits[r, c]))
    }

    /** The sum of the board cells not yet hit. */
    function UnmarkedSum(): int
      reads this, hits
      requires IsGrid(board) && hits.Length0 == 5 && hits.Length1 == 5
    {
      UnmarkedBefore(board, HitGrid(), 25)
    }

    constructor (b: Grid)
      requires IsGrid(b)
      ensures Valid() && board == b && marks == []
      ensures fresh(row) && fresh(col) && fresh(hits)
      ensures forall i :: 0 <= i < 5 ==> row[i] == 0 && col[i] == 0
    {
      board := b;
      row := new int[5](i => 0);
      col := new int[5](i => 0);
      hits := new int[5, 5]((r, c) => 0);
      marks := [];
    }

    /**
     * Marks the drawn number: a number on more than one cell raises, a number
     * on no cell changes nothing, and a number on one cell (r, c) raises the
     * counters of row r and column c and sets the hit at (r, c).
     */
    method PlayRound(number: int) returns (outcome: Result<()>)
      requires Valid()
      modifies this, row, col, hits
      ensures Valid()
      ensures var m := Matches(board, number);
        |m| > 1 ==> outcome == Err(Exception) && marks == old(marks)
      ensures var m := Matches(board, number);
        |m| <= 1 ==> outcome == Ok(()) && marks == old(marks) + m
      ensures var m := Matches(board, number);
        |m| != 1 ==> unchanged(row) && unchanged(col) && unchanged(hits)
      ensures var m := Matches(board, number);
        |m| == 1 ==> var (r, c) := m[0];
          row[..] == old(row[..])[r := old(row[r]) + 1]
          && col[..] == old(col[..])[c := old(col[c]) + 1]
          && HitGrid() == old(HitGrid())[r := old(HitGrid())[r][c := 1]]
      ensures var m := Matches(board, number);
        |m| == 1 && old(hits[m[0].0, m[0].1]) == 0 ==> UnmarkedSum() == old(UnmarkedSum()) - number
    {
      var found := Where(board, number);
      MatchesAreCellsHoldingNumber(board, number);
      if |found| > 1 {
        return Err(Exception);
      }
      if |found| == 1 {
        var (r, c) := found[0];
        Mark(r, c);
        assert marks == old(marks) + found;
      }
      return Ok(());
    }

    /** Records a hit at (r, c): both counters go up by one and the hit is set. */
    method Mark(r: int, c: int)
      requires Valid() && 0 <= r < 5 && 0 <= c < 5
      modifies this, row, col, hits
      ensures Valid() && marks == old(marks) + [(r, c)]
      ensures row[..] == old(row[..])[r := old(row[r]) + 1]
      ensures col[..] == old(col[..])[c := old(col[c]) + 1]
      ensures HitGrid() == old(HitGrid())[r := old(HitGrid())[r][c := 1]]
      ensures old(hits[r, c]) == 0 ==> UnmarkedSum() == old(UnmarkedSum()) - board[r][c]
    {
      ghost var oldRow, oldCol, oldHits, oldMarks := row[..], col[..], HitGrid(), marks;
      var wasHit := hits[r, c];
      row[r] := row[r] + 1;
      col[c] := col[c] + 1;
      hits[r, c] := 1;
      marks := marks + [(r, c)];
      assert row[..] == oldRow[r := oldRow[r] + 1];
      assert col[..] == oldCol[c := oldCol[c] + 1];
      forall i | 0 <= i < 5
        ensures HitGrid()[i] == oldHits[r := oldHits[r][c := 1]][i]
      {
      }
      assert HitGrid() == oldHits[r := oldHits[r][c := 1]];
      ConsistentAfterMark(oldMarks, oldRow, oldCol, oldHits, r, c);
      assert Consistent(marks, row[..], col[..], HitGrid());
      if wasHit == 0 {
        MarkingRemovesCell(board, oldHits, r, c, 25);
      }
    }

    /** The board is finished once some row or column counter reaches 5. */
    function IsFinished(): bool
      reads this, row, col
      requires row.Length == 5 && col.Length == 5
    {
      5 in row[..] || 5 in col[..]
    }

    /** Row r is entirely hit. */
    ghost predicate RowComplete(r: int)
      reads this, hits
      requires hits.Length0 == 5 && hits.Length1 == 5 && 0 <= r < 5
    {
      forall c :: 0 <= c < 5 ==> hits[r, c] == 1
    }

    ghost predicate ColComplete(c: int)
      reads this, hits
      requires hits.Length0 == 5 && hits.Length1 == 5 && 0 <= c < 5
    {
      forall r :: 0 <= r < 5 ==> hits[r, c] == 1
    }

    /**
     * As long as no cell was marked twice (no number drawn twice), the board
     * is finished exactly when some row or column is completely hit.
     */
    lemma FinishedIffLineComplete()
      requires Valid()
      requires forall j, k :: 0 <= j < k < |marks| ==> marks[j] != marks[k]
      ensures IsFinished() <==>
        (exists r :: 0 <= r < 5 && RowComplete(r)) || (exists c :: 0 <= c < 5 && ColComplete(c))
    {
      forall r | 0 <= r < 5
        ensures row[r] == 5 <==> RowComplete(r)
      {
        RowFiveIffComplete(r);
      }
      forall c | 0 <= c < 5
        ensures col[c] == 5 <==> ColComplete(c)
      {
        ColFiveIffComplete(c);
      }
      assert IsFinished() <==> (exists r :: 0 <= r < 5 && row[r] == 5) || (exists c :: 0 <= c < 5 && col[c] == 5) by {
        assert forall r :: 0 <= r < 5 ==> row[..][r] == row[r];
        assert forall c :: 0 <= c < 5 ==> col[..][c] == col[c];
      }
    }

    lemma RowFiveIffComplete(r: int)
      requires Valid() && 0 <= r < 5
      requires forall j, k :: 0 <= j < k < |marks| ==> marks[j] != marks[k]
      ensures row[r] == 5 <==> RowComplete(r)
    {
      RowCountIsMarkedColumns(marks, r);
      FullIffFive(MarkedInRow(marks, r));
      if RowComplete(r) {
        forall c | c in {0, 1, 2, 3, 4}
          ensures c in MarkedInRow(marks, r)
        {
          assert hits[r, c] == 1;
        }
      }
      if MarkedInRow(marks, r) == {0, 1, 2, 3, 4} {
        forall c | 0 <= c < 5
          ensures hits[r, c] == 1
        {
          assert c in MarkedInRow(marks, r);
        }
      }
    }

    lemma ColFiveIffComplete(c: int)
      requires Valid() && 0 <= c < 5
      requires forall j, k :: 0 <= j < k < |marks| ==> marks[j] != marks[k]
      ensures col[c] == 5 <==> ColComplete(c)
    {
      ColCountIsMarkedRows(marks, c);
      FullIffFive(MarkedInCol(marks, c));
      if ColComplete(c) {
        forall r | r in {0, 1, 2, 3, 4}
          ensures r in MarkedInCol(marks, c)
        {
          assert hits[r, c] == 1;
        }
      }
      if MarkedInCol(marks, c) == {0, 1, 2, 3, 4} {
        forall r | 0 <= r < 5
          ensures hits[r, c] == 1
        {
          assert r in MarkedInCol(marks, c);
        }
      }
    }
  }

  /** The columns marked in row r, and the rows marked in column c. */
  function MarkedInRow(marks: seq<(int, int)>, r: int): (s: set<int>)
    ensures s <= {0, 1, 2, 3, 4}
  {
    set c | c in {0, 1, 2, 3, 4} && (r, c) in marks
  }

  function MarkedInCol(marks: seq<(int, int)>, c: int): (s: set<int>)
    ensures s <= {0, 1, 2, 3, 4}
  {
    set r | r in {0, 1, 2, 3, 4} && (r, c) in marks
  }

  lemma FullIffFive(s: set<int>)
    requires s <= {0, 1, 2, 3, 4}
    ensures |s| == 5 <==> s == {0, 1, 2, 3, 4}
  {
    var full := {0, 1, 2, 3, 4};
    if s != full {
      var x :| x in full && x !in s;
      SubsetCard(s, full - {x});
      assert |full - {x}| == 4;
    }
  }

  lemma SubsetCard(a: set<int>, b: set<int>)
    requires a <= b
    ensures |a| <= |b|
  {
    assert b * a == a;
    assert |b - a| == |b| - |b * a|;
  }

  /** Dropping the last of distinct in-range marks keeps them distinct and in range, and leaves it out. */
  lemma DropLastMark(marks: seq<(int, int)>)
    requires marks != []
    requires forall k :: 0 <= k < |marks| ==> 0 <= marks[k].0 < 5 && 0 <= marks[k].1 < 5
    requires forall j, k :: 0 <= j < k < |marks| ==> marks[j] != marks[k]
    ensures var init := marks[..|marks| - 1];
      marks == init + [marks[|marks| - 1]] && marks[|marks| - 1] !in init
      && (forall k :: 0 <= k < |init| ==> 0 <= init[k].0 < 5 && 0 <= init[k].1 < 5)
      && (forall j, k :: 0 <= j < k < |init| ==> init[j] != init[k])
  {
  }

  lemma MarkedAfter(init: seq<(int, int)>, p: (int, int), q: (int, int))
    ensures q in init + [p] <==> q in init || q == p
  {
  }

  /** With distinct in-range marks, the row counter is the number of marked columns. */
  lemma {:induction false} RowCountIsMarkedColumns(marks: seq<(int, int)>, r: int)
    requires forall k :: 0 <= k < |marks| ==> 0 <= marks[k].0 < 5 && 0 <= marks[k].1 < 5
    requires forall j, k :: 0 <= j < k < |marks| ==> marks[j] != marks[k]
    ensures CountRow(marks, r) == |MarkedInRow(marks, r)|
  {
    if marks != [] {
      var init, p := marks[..|marks| - 1], marks[|marks| - 1];
      DropLastMark(marks);
      RowCountIsMarkedColumns(init, r);
      MarkedInRowSnoc(init, p, r);
    }
  }

  lemma MarkedInRowSnoc(init: seq<(int, int)>, p: (int, int), r: int)
    requires p !in init
    ensures MarkedInRow(init + [p], r)
      == if p.0 == r && 0 <= p.1 < 5 then MarkedInRow(init, r) + {p.1} else MarkedInRow(init, r)
    ensures p.0 == r ==> p.1 !in MarkedInRow(init, r)
  {
    var before, after := MarkedInRow(init, r), MarkedInRow(init + [p], r);
    forall x ensures x in after <==> x in before || (p.0 == r && 0 <= p.1 < 5 && x == p.1) {
      MarkedAfter(init, p, (r, x));
    }
  }



  lemma {:induction false} ColCountIsMarkedRows(marks: seq<(int, int)>, c: int)
    requires forall k :: 0 <= k < |marks| ==> 0 <= marks[k].0 < 5 && 0 <= marks[k].1 < 5
    requires forall j, k :: 0 <= j < k < |marks| ==> marks[j] != marks[k]
    ensures CountCol(marks, c) == |MarkedInCol(marks, c)|
  {
    if marks != [] {
      var init, p := marks[..|marks| - 1], marks[|marks| - 1];
      DropLastMark(marks);
      ColCountIsMarkedRows(init, c);
      MarkedInColSnoc(init, p, c);
    }
  }

  lemma MarkedInColSnoc(init: seq<(int, int)>, p: (int, int), c: int)
    requires p !in init
    ensures MarkedInCol(init + [p], c)
      == if p.1 == c && 0 <= p.0 < 5 then MarkedInCol(init, c) + {p.0} else MarkedInCol(init, c)
    ensures p.1 == c ==> p.0 !in MarkedInCol(init, c)
  {
    var before, after := MarkedInCol(init, c), MarkedInCol(init + [p], c);
    forall x ensures x in after <==> x in before || (p.1 == c && 0 <= p.0 < 5 && x == p.0) {
      MarkedAfter(init, p, (x, c));
    }
  }



  /** The drawn number times the sum of the cells not hit. */
  method CalcScore(b: BingoBoard, number: int) returns (score: int)
    requires IsGrid(b.board) && b.hits.Length0 == 5 && b.hits.Length1 == 5
    ensures score == number * b.UnmarkedSum()
  {
    var summe := SumUnhit(b.board, b.hits, b.HitGrid());
    score := number * summe;
  }

  /** Walks the hit matrix row by row, adding up the board cells whose hit is 0. */
  method SumUnhit(board: Grid, hits: array2<int>, ghost h: Grid) returns (summe: int)
    requires IsGrid(board) && IsGrid(h) && hits.Length0 == 5 && hits.Length1 == 5
    requires forall r, c :: 0 <= r < 5 && 0 <= c < 5 ==> h[r][c] == hits[r, c]
    ensures summe == UnmarkedBefore(board, h, 25)
  {
    summe := 0;
    for r := 0 to 5
      invariant summe == UnmarkedBefore(board, h, 5 * r)
    {
      for c := 0 to 5
        invariant summe == UnmarkedBefore(board, h, 5 * r + c)
      {
        UnmarkedStep(board, h, r, c);
        if hits[r, c] == 0 {
          summe := summe + board[r][c];
        }
      }
    }
  }

  /** Row-major cell 5r + c is the cell in row r, column c. */
  lemma UnmarkedStep(board: Grid, hits: Grid, r: int, c: int)
    requires IsGrid(board) && IsGrid(hits) && 0 <= r < 5 && 0 <= c < 5
    ensures UnmarkedBefore(board, hits, 5 * r + c + 1)
      == UnmarkedBefore(board, hits, 5 * r + c) + (if hits[r][c] == 0 then board[r][c] else 0)
  {
    assert (5 * r + c) / 5 == r && (5 * r + c) % 5 == c;
  }

  /** A fresh board has every cell unmarked. */
  lemma {:induction false} UnmarkedOfZeros(board: Grid, i: nat)
    requires IsGrid(board) && i <= 25
    ensures UnmarkedBefore(board, Zeros(), i) == CellSum(board, i)
  {
    if i > 0 {
      UnmarkedOfZeros(board, i - 1);
    }
  }

  /** The sum of the first i cells in row-major order. */
  function CellSum(board: Grid, i: nat): int
    requires IsGrid(board) && i <= 25
  {
    if i == 0 then 0 else CellSum(board, i - 1) + board[(i - 1) / 5][(i - 1) % 5]
  }

  /** A line that `strip()` empties separates boards. */
  predicate Blank(line: string)
  {
    Strip(line) == []
  }

  /** The lines cut at blank lines: one group more than there are blank lines. */
  function Groups(lines: seq<string>): (g: seq<seq<string>>)
    ensures |g| >= 1
  {
    if lines == [] then [[]]
    else
      var g := Groups(lines[..|lines| - 1]);
      var line := lines[|lines| - 1];
      if Blank(line) then g + [[]] else g[..|g| - 1] + [g[|g| - 1] + [line]]
  }

  predicate NoBlankIn(g: seq<seq<string>>)
  {
    forall i, j :: 0 <= i < |g| && 0 <= j < |g[i]| ==> !Blank(g[i][j])
  }

  /** No group holds a blank line; together the groups hold every other line, in order. */
  lemma GroupsSplitAtBlanks(lines: seq<string>)
    ensures NoBlankIn(Groups(lines))
    ensures Concat(Groups(lines)) == NonBlank(lines)
  {
    GroupsHoldNoBlank(lines);
    GroupsConcat(lines);
  }

  lemma {:induction false} GroupsHoldNoBlank(lines: seq<string>)
    ensures NoBlankIn(Groups(lines))
  {
    if lines != [] {
      var init := lines[..|lines| - 1];
      var line := lines[|lines| - 1];
      GroupsHoldNoBlank(init);
      var g := Groups(init);
      var r := Groups(lines);
      if Blank(line) {
        assert r == g + [[]];
        forall i, j | 0 <= i < |r| && 0 <= j < |r[i]|
          ensures !Blank(r[i][j])
        {
          assert r[i] == g[i];
          assert !Blank(g[i][j]);
        }
      } else {
        assert r == g[..|g| - 1] + [g[|g| - 1] + [line]];
        forall i, j | 0 <= i < |r| && 0 <= j < |r[i]|
          ensures !Blank(r[i][j])
        {
          if i < |g| - 1 {
            assert r[i] == g[i];
            assert !Blank(g[i][j]);
          } else if j < |g[|g| - 1]| {
            assert r[i][j] == g[|g| - 1][j];
            assert !Blank(g[|g| - 1][j]);
          } else {
            assert r[i][j] == line;
          }
        }
      }
    }
  }

  lemma {:induction false} GroupsConcat(lines: seq<string>)
    ensures Concat(Groups(lines)) == NonBlank(lines)
  {
    if lines != [] {
      var init := lines[..|lines| - 1];
      var line := lines[|lines| - 1];
      GroupsConcat(init);
      var g := Groups(init);
      if Blank(line) {
        ConcatAppend(g, []);
      } else {
        assert g == g[..|g| - 1] + [g[|g| - 1]];
        ConcatAppend(g[..|g| - 1], g[|g| - 1]);
        ConcatAppend(g[..|g| - 1], g[|g| - 1] + [line]);
      }
    }
  }


  function Concat(g: seq<seq<string>>): seq<string>
  {
    if g == [] then [] else Concat(g[..|g| - 1]) + g[|g| - 1]
  }

  lemma ConcatAppend(g: seq<seq<string>>, x: seq<string>)
    ensures Concat(g + [x]) == Concat(g) + x
  {
    assert (g + [x])[..|g|] == g;
  }

  /** The non-blank lines, in order. */
  function NonBlank(lines: seq<string>): seq<string>
  {
    if lines == [] then []
    else NonBlank(lines[..|lines| - 1]) + (if Blank(lines[|lines| - 1]) then [] else [lines[|lines| - 1]])
  }

  /** The integers of one stripped line, split at single spaces with empty pieces dropped. */
  function RowValues(line: string): Result<seq<int>>
  {
    Decimal.ParseInts(NonEmpty(Split(Strip(line), ' ')))
  }

  /**
   * `field[k] = values` on a 5x5 array: a row index past the board raises an
   * IndexError; five values fill the row, one value is broadcast over it, and
   * any other count raises a ValueError.
   */
  /**
   * Row is what numpy stores for a parsed line: the five values as given, or
   * a single value broadcast to all five cells.
   */
  predicate Spreads(values: seq<int>, row: seq<int>)
  {
    (|values| == 5 || |values| == 1) && |row| == 5
    && forall c :: 0 <= c < 5 ==> row[c] == values[if |values| == 1 then 0 else c]
  }

  function AssignRow(field: Grid, k: nat, values: seq<int>): (r: Result<Grid>)
    requires IsGrid(field)
    ensures r.Ok? <==> k < 5 && (|values| == 5 || |values| == 1)
    ensures r.Ok? ==> IsGrid(r.value) && forall i :: 0 <= i < 5 && i != k ==> r.value[i] == field[i]
    ensures r.Ok? ==> Spreads(values, r.value[k])
  {
    if k >= 5 then Err(IndexError)
    else if |values| == 5 then Ok(field[k := values])
    else if |values| == 1 then Ok(field[k := seq(5, _ => values[0])])
    else Err(ValueError)
  }

  /** The board a group of lines fills row by row, starting from zeros. */
  function FillBoard(group: seq<string>): (r: Result<Grid>)
    ensures r.Ok? ==> IsGrid(r.value) && |group| <= 5
    ensures r.Ok? ==> forall k :: |group| <= k < 5 ==> r.value[k] == [0, 0, 0, 0, 0]
    ensures r.Ok? <==> |group| <= 5 && forall k :: 0 <= k < |group| ==>
      RowValues(group[k]).Ok? && (|RowValues(group[k]).value| == 5 || |RowValues(group[k]).value| == 1)
    ensures r.Ok? ==> forall k :: 0 <= k < |group| ==> Spreads(RowValues(group[k]).value, r.value[k])
  {
    if group == [] then Ok(Zeros())
    else
      match FillBoard(group[..|group| - 1])
      case Err(e) => Err(e)
      case Ok(field) =>
        match RowValues(group[|group| - 1])
        case Err(e) => Err(e)
        case Ok(values) =>
          var r := AssignRow(field, |group| - 1, values);
          if r.Ok? then
            assert forall k :: 0 <= k < |group| - 1 ==> group[k] == group[..|group| - 1][k];
            r
          else r
  }

  /** The boards of the groups closed by a blank line; empty groups yield nothing. */
  function Closed(groups: seq<seq<string>>): Result<seq<Grid>>
  {
    if groups == [] then Ok([])
    else
      match Closed(groups[..|groups| - 1])
      case Err(e) => Err(e)
      case Ok(boards) =>
        var last := groups[|groups| - 1];
        if last == [] then Ok(boards)
        else
          match FillBoard(last)
          case Err(e) => Err(e)
          case Ok(b) => Ok(boards + [b])
  }

  /** The closed boards together with the board still being filled. */
  function Pending(groups: seq<seq<string>>): Result<(seq<Grid>, Grid)>
    requires |groups| >= 1
  {
    match Closed(groups[..|groups| - 1])
    case Err(e) => Err(e)
    case Ok(boards) =>
      match FillBoard(groups[|groups| - 1])
      case Err(e) => Err(e)
      case Ok(b) => Ok((boards, b))
  }

  /**
   * What `list(read_boards(lines))` gives: one board per non-empty group that
   * a blank line closes, then the last group's board in any case (all zeros
   * when the input ends with a blank line); the first malformed line raises.
   */
  function BoardsOf(lines: seq<string>): Result<seq<Grid>>
  {
    match Pending(Groups(lines))
    case Err(e) => Err(e)
    case Ok(p) => Ok(p.0 + [p.1])
  }

  lemma GroupsStep(lines: seq<string>, i: nat)
    requires i < |lines|
    ensures var g := Groups(lines[..i]);
      Groups(lines[..i + 1])
        == if Blank(lines[i]) then g + [[]] else g[..|g| - 1] + [g[|g| - 1] + [lines[i]]]
  {
    assert lines[..i + 1][..i] == lines[..i];
  }

  /** Once a line has raised, the lines after it cannot change the outcome. */
  lemma PendingErrorStays(lines: seq<string>, i: nat)
    requires i < |lines| && Pending(Groups(lines[..i])).Err?
    ensures Pending(Groups(lines[..i + 1])) == Pending(Groups(lines[..i]))
  {
    GroupsStep(lines, i);
    if Blank(lines[i]) {
      ErrorSurvivesBlank(Groups(lines[..i]));
    } else {
      ErrorSurvivesRow(Groups(lines[..i]), lines[i]);
    }
  }

  lemma ErrorSurvivesBlank(g: seq<seq<string>>)
    requires |g| >= 1 && Pending(g).Err?
    ensures Pending(g + [[]]) == Pending(g)
  {
    assert (g + [[]])[..|g|] == g;
    if Closed(g[..|g| - 1]).Ok? {
      assert g[|g| - 1] != [];
    }
  }

  lemma ErrorSurvivesRow(g: seq<seq<string>>, line: string)
    requires |g| >= 1 && Pending(g).Err?
    ensures Pending(g[..|g| - 1] + [g[|g| - 1] + [line]]) == Pending(g)
  {
    var g2 := g[..|g| - 1] + [g[|g| - 1] + [line]];
    assert g2[..|g2| - 1] == g[..|g| - 1];
    var last := g[|g| - 1];
    assert (last + [line])[..|last|] == last;
  }

  lemma {:induction false} PendingErrorFinal(lines: seq<string>, i: nat)
    requires i <= |lines| && Pending(Groups(lines[..i])).Err?
    ensures Pending(Groups(lines)) == Pending(Groups(lines[..i]))
    decreases |lines| - i
  {
    if i == |lines| {
      assert lines[..i] == lines;
    } else {
      PendingErrorStays(lines, i);
      PendingErrorFinal(lines, i + 1);
    }
  }

  /** The row count of the board still being filled after the first i lines. */
  function PendingRows(lines: seq<string>, i: nat): nat
    requires i <= |lines|
  {
    var g := Groups(lines[..i]);
    |g[|g| - 1]|
  }

  /** A blank line closes the pending board (when it has a row) and opens a zero board. */
  lemma ReadBlankStep(lines: seq<string>, i: nat, boards: seq<Grid>, field: Grid)
    requires i < |lines| && Blank(lines[i])
    requires Pending(Groups(lines[..i])) == Ok((boards, field))
    ensures Pending(Groups(lines[..i + 1]))
      == Ok((if PendingRows(lines, i) == 0 then boards else boards + [field], Zeros()))
    ensures PendingRows(lines, i + 1) == 0
  {
    GroupsStep(lines, i);
    var g := Groups(lines[..i]);
    assert (g + [[]])[..|g|] == g;
  }

  /** A non-blank line parses into the next row of the board being filled. */
  lemma ReadRowStep(lines: seq<string>, i: nat, boards: seq<Grid>, field: Grid)
    requires i < |lines| && !Blank(lines[i])
    requires Pending(Groups(lines[..i])) == Ok((boards, field))
    ensures Pending(Groups(lines[..i + 1])) ==
      match RowValues(lines[i])
      case Err(e) => Err(e)
      case Ok(values) =>
        match AssignRow(field, PendingRows(lines, i), values)
        case Err(e) => Err(e)
        case Ok(f) => Ok((boards, f))
    ensures PendingRows(lines, i + 1) == PendingRows(lines, i) + 1
  {
    GroupsStep(lines, i);
    var g := Groups(lines[..i]);
    var g2 := g[..|g| - 1] + [g[|g| - 1] + [lines[i]]];
    assert g2[..|g2| - 1] == g[..|g| - 1];
    var last := g[|g| - 1];
    assert (last + [lines[i]])[..|last|] == last;
  }

  /**
   * Reads the lines one by one into a zero-initialised field, a row per
   * non-blank line; a blank line hands the field on (when a row was filled)
   * and starts a new one; the last field is always handed on.
   */
  method ReadBoards(lines: seq<string>) returns (r: Result<seq<Grid>>)
    ensures r == BoardsOf(lines)
  {
    var field := Zeros();
    var columnCounter := 0;
    var boards: seq<Grid> := [];
    for i := 0 to |lines|
      invariant Pending(Groups(lines[..i])) == Ok((boards, field))
      invariant columnCounter == PendingRows(lines, i)
    {
      var line := Strip(lines[i]);
      if line == [] {
        ReadBlankStep(lines, i, boards, field);
        if columnCounter != 0 {
          boards := boards + [field];
        }
        field := Zeros();
        columnCounter := 0;
        continue;
      }
      ReadRowStep(lines, i, boards, field);
      var values := Decimal.ParseInts(NonEmpty(Split(line, ' ')));
      if values.Err? {
        PendingErrorFinal(lines, i + 1);
        return Err(values.error);
      }
      var filled := AssignRow(field, columnCounter, values.value);
      if filled.Err? {
        PendingErrorFinal(lines, i + 1);
        return Err(filled.error);
      }
      field := filled.value;
      columnCounter := columnCounter + 1;
    }
    assert lines[..|lines|] == lines;
    r := Ok(boards + [field]);
  }
}
