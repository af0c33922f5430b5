/**
 * Day 20: trench map image enhancement. An image is an infinite grid of
 * pixels of which only a finite set is stored. Each output pixel is the rule
 * character at the 9-bit number read from the 3x3 neighbourhood of the
 * input pixel. The stored set holds either the lit pixels (`on` true) or
 * the dark ones (`on` false); every round stores the opposite kind to the
 * one it reads, so that an infinite lit background never has to be stored.
 */
module Day20Image {
  import opened Common
  import Bits

  type Pixel = (int, int)

  // ---------------------------------------------------------------------------
  // The 9-bit neighbourhood index
  // ---------------------------------------------------------------------------

  /** The 3x3 neighbourhood of p, row by row, top-left first. */
  function Neighbours(p: Pixel): (r: seq<Pixel>)
    ensures |r| == 9
  {
    var (r, c) := p;
    [(r - 1, c - 1), (r - 1, c), (r - 1, c + 1),
     (r, c - 1), (r, c), (r, c + 1),
     (r + 1, c - 1), (r + 1, c), (r + 1, c + 1)]
  }

  /** The picture an image stands for: p is lit iff its membership agrees with `on`. */
  function View(image: set<Pixel>, on: bool): Pixel -> bool
  {
    q => (q in image) == on
  }

  /** The index of p in a picture: its neighbourhood read as a binary number, first cell highest. */
  function IndexOf(lit: Pixel -> bool, p: Pixel): nat
  {
    Bits.BitsValue(seq(9, k requires 0 <= k < 9 => lit(Neighbours(p)[k])))
  }

  /** The index as `apply_image_enhancement` computes it from the stored set. */
  function Index(image: set<Pixel>, on: bool, p: Pixel): nat
  {
    IndexOf(View(image, on), p)
  }

  function Bit(b: bool): nat
  {
    if b then 1 else 0
  }

  /** Nine bits make a number below 512. */
  lemma IndexBound(lit: Pixel -> bool, p: Pixel)
    ensures IndexOf(lit, p) < 512
  {
    var bits := seq(9, k requires 0 <= k < 9 => lit(Neighbours(p)[k]));
    Bits.BitsValueBound(bits);
    assert Bits.Pow2(9) == 512;
  }

  /** `int(s, 2)` of one more bit: the old value doubled plus the new bit. */
  lemma BitsValueSnoc(s: seq<bool>, b: bool)
    ensures Bits.BitsValue(s + [b]) == 2 * Bits.BitsValue(s) + Bit(b)
  {
    assert (s + [b])[..|s|] == s;
  }

  /** The same for a prefix of s growing by one bit. */
  lemma BitsValuePrefix(s: seq<bool>, k: nat)
    requires k < |s|
    ensures Bits.BitsValue(s[..k + 1]) == 2 * Bits.BitsValue(s[..k]) + Bit(s[k])
  {
    assert s[..k + 1] == s[..k] + [s[k]];
    BitsValueSnoc(s[..k], s[k]);
  }

  /** Nine bits, most significant first, weigh 256 down to 1. */
  lemma BitsValueNine(s: seq<bool>)
    requires |s| == 9
    ensures Bits.BitsValue(s) ==
      256 * Bit(s[0]) + 128 * Bit(s[1]) + 64 * Bit(s[2]) + 32 * Bit(s[3]) + 16 * Bit(s[4]) +
      8 * Bit(s[5]) + 4 * Bit(s[6]) + 2 * Bit(s[7]) + Bit(s[8])
  {
    var v := seq(10, k requires 0 <= k < 10 => Bits.BitsValue(s[..k]));
    assert v[0] == 0 by { assert s[..0] == []; }
    forall k | 0 <= k < 9 ensures v[k + 1] == 2 * v[k] + Bit(s[k]) {
      BitsValuePrefix(s, k);
    }
    assert s[..9] == s;
    assert v[9] == Bits.BitsValue(s);
  }

  /**
   * The index weighs the neighbourhood row-major with the top-left cell as
   * the most significant bit: 256 for the top-left cell down to 1 for the
   * bottom-right one.
   */
  lemma IndexWeights(lit: Pixel -> bool, p: Pixel)
    ensures IndexOf(lit, p) ==
      256 * Bit(lit((p.0 - 1, p.1 - 1))) + 128 * Bit(lit((p.0 - 1, p.1))) + 64 * Bit(lit((p.0 - 1, p.1 + 1))) +
      32 * Bit(lit((p.0, p.1 - 1))) + 16 * Bit(lit((p.0, p.1))) + 8 * Bit(lit((p.0, p.1 + 1))) +
      4 * Bit(lit((p.0 + 1, p.1 - 1))) + 2 * Bit(lit((p.0 + 1, p.1))) + Bit(lit((p.0 + 1, p.1 + 1)))
  {
    var n := Neighbours(p);
    var bits := seq(9, k requires 0 <= k < 9 => lit(n[k]));
    assert n[0] == (p.0 - 1, p.1 - 1) && n[1] == (p.0 - 1, p.1) && n[2] == (p.0 - 1, p.1 + 1);
    assert n[3] == (p.0, p.1 - 1) && n[4] == (p.0, p.1) && n[5] == (p.0, p.1 + 1);
    assert n[6] == (p.0 + 1, p.1 - 1) && n[7] == (p.0 + 1, p.1) && n[8] == (p.0 + 1, p.1 + 1);
    BitsValueNine(bits);
  }

  /** Pictures that agree on p's neighbourhood give p the same index. */
  lemma IndexOfLocal(f: Pixel -> bool, g: Pixel -> bool, p: Pixel)
    requires forall k :: 0 <= k < 9 ==> f(Neighbours(p)[k]) == g(Neighbours(p)[k])
    ensures IndexOf(f, p) == IndexOf(g, p)
  {
    assert seq(9, k requires 0 <= k < 9 => f(Neighbours(p)[k])) == seq(9, k requires 0 <= k < 9 => g(Neighbours(p)[k]));
  }

  /** A neighbourhood that is all dark reads 0; one that is all lit reads 511. */
  lemma IndexUniform(lit: Pixel -> bool, p: Pixel, b: bool)
    requires forall k :: 0 <= k < 9 ==> lit(Neighbours(p)[k]) == b
    ensures IndexOf(lit, p) == if b then 511 else 0
  {
    IndexOfLocal(lit, q => b, p);
    IndexWeights(q => b, p);
  }

  /** The first k of nine bits, each weighing `2 ** bit` with `bit` counting down from 8. */
  function Weighted(s: seq<bool>, k: nat): nat
    requires k <= |s| == 9
  {
    if k == 0 then 0 else Weighted(s, k - 1) + (if s[k - 1] then Bits.Pow2(9 - k) else 0)
  }

  /** All nine weighted bits add up to the index. */
  lemma WeightedNine(s: seq<bool>)
    requires |s| == 9
    ensures Weighted(s, 9) == Bits.BitsValue(s)
  {
    BitsValueNine(s);
    assert Bits.Pow2(8) == 256;
    assert Weighted(s, 1) == 256 * Bit(s[0]);
    assert Weighted(s, 2) == Weighted(s, 1) + 128 * Bit(s[1]);
    assert Weighted(s, 3) == Weighted(s, 2) + 64 * Bit(s[2]);
    assert Weighted(s, 4) == Weighted(s, 3) + 32 * Bit(s[3]);
    assert Weighted(s, 5) == Weighted(s, 4) + 16 * Bit(s[4]);
    assert Weighted(s, 6) == Weighted(s, 5) + 8 * Bit(s[5]);
    assert Weighted(s, 7) == Weighted(s, 6) + 4 * Bit(s[6]);
    assert Weighted(s, 8) == Weighted(s, 7) + 2 * Bit(s[7]);
    assert Weighted(s, 9) == Weighted(s, 8) + Bit(s[8]);
  }

  /**
   * The inner loops of `apply_image_enhancement` for one pixel: `2 ** bit`
   * is added for every neighbour whose membership agrees with `on`, with
   * `bit` counting down from 8.
   */
  method NeighbourhoodIndex(image: set<Pixel>, on: bool, row: int, col: int) returns (index: nat)
    ensures index == Index(image, on, (row, col))
    ensures index < 512
  {
    ghost var bits := seq(9, k requires 0 <= k < 9 => View(image, on)(Neighbours((row, col))[k]));
    index := 0;
    var bit := 8;
    for i := 0 to 3
      invariant bit == 8 - 3 * i
      invariant index == Weighted(bits, 3 * i)
    {
      var deltaRow := i - 1;
      for j := 0 to 3
        invariant bit == 8 - 3 * i - j
        invariant index == Weighted(bits, 3 * i + j)
      {
        var deltaCol := j - 1;
        assert Neighbours((row, col))[3 * i + j] == (row + deltaRow, col + deltaCol);
        assert bits[3 * i + j] == View(image, on)((row + deltaRow, col + deltaCol));
        if ((row + deltaRow, col + deltaCol) in image) == on {
          index := index + Bits.Pow2(bit);
        }
        bit := bit - 1;
      }
    }
    WeightedNine(bits);
    IndexBound(View(image, on), (row, col));
  }

  // ---------------------------------------------------------------------------
  // The bounding box of the stored pixels
  // ---------------------------------------------------------------------------

  /** The row (`col` false) or the column (`col` true) of a pixel. */
  function Coord(p: Pixel, col: bool): int
  {
    if col then p.1 else p.0
  }

  /** Some stored pixel has the least row (or column). */
  lemma {:induction false} LeastExists(image: set<Pixel>, col: bool)
    requires image != {}
    ensures exists p :: p in image && forall q :: q in image ==> Coord(p, col) <= Coord(q, col)
    decreases |image|
  {
    var x :| x in image;
    if image != {x} {
      LeastExists(image - {x}, col);
      var m :| m in image - {x} && forall q :: q in image - {x} ==> Coord(m, col) <= Coord(q, col);
      var w := if Coord(x, col) < Coord(m, col) then x else m;
      forall q | q in image ensures Coord(w, col) <= Coord(q, col) {
        if q != x {
          assert q in image - {x};
        }
      }
    }
  }

  /** Some stored pixel has the greatest row (or column). */
  lemma {:induction false} GreatestExists(image: set<Pixel>, col: bool)
    requires image != {}
    ensures exists p :: p in image && forall q :: q in image ==> Coord(q, col) <= Coord(p, col)
    decreases |image|
  {
    var x :| x in image;
    if image != {x} {
      GreatestExists(image - {x}, col);
      var m :| m in image - {x} && forall q :: q in image - {x} ==> Coord(q, col) <= Coord(m, col);
      var w := if Coord(m, col) < Coord(x, col) then x else m;
      forall q | q in image ensures Coord(q, col) <= Coord(w, col) {
        if q != x {
          assert q in image - {x};
        }
      }
    }
  }

  /** `min` over the rows (or columns) of the stored pixels. */
  ghost function Least(image: set<Pixel>, col: bool): (m: int)
    requires image != {}
    ensures (exists p :: p in image && Coord(p, col) == m) && forall q :: q in image ==> m <= Coord(q, col)
  {
    LeastExists(image, col);
    var p :| p in image && forall q :: q in image ==> Coord(p, col) <= Coord(q, col);
    Coord(p, col)
  }

  /** `max` over the rows (or columns) of the stored pixels. */
  ghost function Greatest(image: set<Pixel>, col: bool): (m: int)
    requires image != {}
    ensures (exists p :: p in image && Coord(p, col) == m) && forall q :: q in image ==> Coord(q, col) <= m
  {
    GreatestExists(image, col);
    var p :| p in image && forall q :: q in image ==> Coord(q, col) <= Coord(p, col);
    Coord(p, col)
  }

  /** The four `min`/`max` calls over the rows and the columns of the stored pixels. */
  method Bounds(image: set<Pixel>) returns (rowLow: int, rowHigh: int, colLow: int, colHigh: int)
    requires image != {}
    ensures rowLow == Least(image, false) && rowHigh == Greatest(image, false)
    ensures colLow == Least(image, true) && colHigh == Greatest(image, true)
    ensures rowLow <= rowHigh && colLow <= colHigh
  {
    var p :| p in image;
    rowLow, rowHigh, colLow, colHigh := p.0, p.0, p.1, p.1;
    ghost var a, b, c, d := p, p, p, p;
    var rest := image - {p};
    while rest != {}
      invariant rest <= image
      invariant a in image - rest && a.0 == rowLow && b in image - rest && b.0 == rowHigh
      invariant c in image - rest && c.1 == colLow && d in image - rest && d.1 == colHigh
      invariant forall q :: q in image - rest ==> rowLow <= q.0 <= rowHigh && colLow <= q.1 <= colHigh
      decreases |rest|
    {
      var q :| q in rest;
      if q.0 < rowLow {
        rowLow, a := q.0, q;
      }
      if q.0 > rowHigh {
        rowHigh, b := q.0, q;
      }
      if q.1 < colLow {
        colLow, c := q.1, q;
      }
      if q.1 > colHigh {
        colHigh, d := q.1, q;
      }
      rest := rest - {q};
    }
    assert Coord(a, false) == rowLow && Coord(b, false) == rowHigh;
    assert Coord(c, true) == colLow && Coord(d, true) == colHigh;
  }

  // ---------------------------------------------------------------------------
  // One enhancement round
  // ---------------------------------------------------------------------------

  /** Every pixel of rows [r0, r1) and columns [c0, c1) has an index inside the rule. */
  ghost predicate Fits(image: set<Pixel>, on: bool, rule: string, r0: int, r1: int, c0: int, c1: int)
  {
    forall r, c :: r0 <= r < r1 && c0 <= c < c1 ==> Index(image, on, (r, c)) < |rule|
  }

  /** The pixels of rows [r0, r1) and columns [c0, c1) whose rule character differs from `on`. */
  ghost function Stored(image: set<Pixel>, on: bool, rule: string, r0: int, r1: int, c0: int, c1: int): set<Pixel>
  {
    set r, c | r0 <= r < r1 && c0 <= c < c1 && Index(image, on, (r, c)) < |rule| &&
      (rule[Index(image, on, (r, c))] == '#') != on :: (r, c)
  }

  /**
   * `apply_image_enhancement`: an empty image is the ValueError of `min([])`;
   * an index past the end of the rule is an IndexError; otherwise the pixels
   * of the bounding box widened by 5 below and 10 above whose rule character
   * differs from `on`.
   */
  ghost function Enhance(image: set<Pixel>, on: bool, rule: string): Result<set<Pixel>>
  {
    if image == {} then Err(ValueError)
    else
      var r0, r1 := Least(image, false) - 5, Greatest(image, false) + 10;
      var c0, c1 := Least(image, true) - 5, Greatest(image, true) + 10;
      if Fits(image, on, rule, r0, r1, c0, c1) then Ok(Stored(image, on, rule, r0, r1, c0, c1))
      else Err(IndexError)
  }

  /** Enhance with its window named. */
  lemma EnhanceWindow(image: set<Pixel>, on: bool, rule: string, r0: int, r1: int, c0: int, c1: int)
    requires image != {}
    requires r0 == Least(image, false) - 5 && r1 == Greatest(image, false) + 10
    requires c0 == Least(image, true) - 5 && c1 == Greatest(image, true) + 10
    ensures Enhance(image, on, rule) ==
      if Fits(image, on, rule, r0, r1, c0, c1) then Ok(Stored(image, on, rule, r0, r1, c0, c1)) else Err(IndexError)
  {
  }

  /** The cells of one row up to a column. */
  lemma StoredNextCol(image: set<Pixel>, on: bool, rule: string, row: int, c0: int, col: int)
    requires c0 <= col && Index(image, on, (row, col)) < |rule|
    ensures Stored(image, on, rule, row, row + 1, c0, col + 1) ==
      Stored(image, on, rule, row, row + 1, c0, col) +
      (if (rule[Index(image, on, (row, col))] == '#') != on then {(row, col)} else {})
  {
  }

  /** The rows up to a row. */
  lemma StoredNextRow(image: set<Pixel>, on: bool, rule: string, r0: int, row: int, c0: int, c1: int)
    requires r0 <= row
    ensures Stored(image, on, rule, r0, row + 1, c0, c1) ==
      Stored(image, on, rule, r0, row, c0, c1) + Stored(image, on, rule, row, row + 1, c0, c1)
  {
  }

  /** Every row of a window that fits fits. */
  lemma FitsRow(image: set<Pixel>, on: bool, rule: string, r0: int, r1: int, c0: int, c1: int, row: int)
    requires Fits(image, on, rule, r0, r1, c0, c1) && r0 <= row < r1
    ensures Fits(image, on, rule, row, row + 1, c0, c1)
  {
  }

  /**
   * Columns [c0, col) of a row fit trivially when empty; they fit up to
   * col + 1 exactly when they fit up to col and col's index fits; and a
   * column whose index does not fit spoils every wider window.
   */
  lemma FitsNextCol(image: set<Pixel>, on: bool, rule: string, row: int, c0: int, col: int, c1: int)
    requires c0 <= col
    ensures col == c0 ==> Fits(image, on, rule, row, row + 1, c0, col)
    ensures Fits(image, on, rule, row, row + 1, c0, col + 1) <==>
      Fits(image, on, rule, row, row + 1, c0, col) && Index(image, on, (row, col)) < |rule|
    ensures col < c1 && Index(image, on, (row, col)) >= |rule| ==> !Fits(image, on, rule, row, row + 1, c0, c1)
  {
  }

  /** One column of the row loop: the index fits, and the pixel is added exactly when its rule character differs from `on`. */
  lemma RowStep(image: set<Pixel>, on: bool, rule: string, row: int, c0: int, col: int,
                result: set<Pixel>, acc: set<Pixel>, index: nat)
    requires c0 <= col && index == Index(image, on, (row, col)) && index < |rule|
    requires Fits(image, on, rule, row, row + 1, c0, col)
    requires acc == result + Stored(image, on, rule, row, row + 1, c0, col)
    ensures Fits(image, on, rule, row, row + 1, c0, col + 1)
    ensures (if (rule[index] == '#') != on then acc + {(row, col)} else acc) ==
      result + Stored(image, on, rule, row, row + 1, c0, col + 1)
  {
    FitsNextCol(image, on, rule, row, c0, col, col + 1);
    StoredNextCol(image, on, rule, row, c0, col);
  }

  /** The loop over the columns of one row, adding to `result`. */
  method EnhanceRow(image: set<Pixel>, on: bool, rule: string, row: int, c0: int, c1: int, result: set<Pixel>)
    returns (r: Result<set<Pixel>>)
    requires c0 <= c1
    ensures r.Ok? <==> Fits(image, on, rule, row, row + 1, c0, c1)
    ensures r.Err? ==> r.error == IndexError
    ensures r.Ok? ==> r.value == result + Stored(image, on, rule, row, row + 1, c0, c1)
  {
    var acc := result;
    FitsNextCol(image, on, rule, row, c0, c0, c1);
    for col := c0 to c1
      invariant Fits(image, on, rule, row, row + 1, c0, col)
      invariant acc == result + Stored(image, on, rule, row, row + 1, c0, col)
    {
      var index := NeighbourhoodIndex(image, on, row, col);
      FitsNextCol(image, on, rule, row, c0, col, c1);
      if index >= |rule| {
        return Err(IndexError);
      }
      RowStep(image, on, rule, row, c0, col, result, acc, index);
      if (rule[index] == '#') != on {
        acc := acc + {(row, col)};
      }
    }
    return Ok(acc);
  }

  /** The loop over the rows of the window [r0, r1) x [c0, c1). */
  method EnhanceRows(image: set<Pixel>, on: bool, rule: string, r0: int, r1: int, c0: int, c1: int)
    returns (r: Result<set<Pixel>>)
    requires r0 <= r1 && c0 <= c1
    ensures r.Ok? <==> Fits(image, on, rule, r0, r1, c0, c1)
    ensures r.Err? ==> r.error == IndexError
    ensures r.Ok? ==> r.value == Stored(image, on, rule, r0, r1, c0, c1)
  {
    var result := {};
    for row := r0 to r1
      invariant Fits(image, on, rule, r0, row, c0, c1)
      invariant result == Stored(image, on, rule, r0, row, c0, c1)
    {
      var next := EnhanceRow(image, on, rule, row, c0, c1, result);
      if next.Err? {
        if Fits(image, on, rule, r0, r1, c0, c1) {
          FitsRow(image, on, rule, r0, r1, c0, c1, row);
        }
        return next;
      }
      StoredNextRow(image, on, rule, r0, row, c0, c1);
      result := next.value;
    }
    return Ok(result);
  }

  /**
   * `apply_image_enhancement`: the bounding box of the stored pixels, then
   * every pixel of the box widened by 5 below and 10 above.
   */
  method ApplyEnhancement(image: set<Pixel>, on: bool, rule: string) returns (r: Result<set<Pixel>>)
    ensures r == Enhance(image, on, rule)
    ensures image == {} <==> r == Err(ValueError)
  {
    if image == {} {
      return Err(ValueError);
    }
    var rowLow, rowHigh, colLow, colHigh := Bounds(image);
    r := EnhanceRows(image, on, rule, rowLow - 5, rowHigh + 10, colLow - 5, colHigh + 10);
    WindowResult(image, on, rule, rowLow - 5, rowHigh + 10, colLow - 5, colHigh + 10, r);
  }

  /** What the loops over the window give is the round's result, and never the ValueError. */
  lemma WindowResult(image: set<Pixel>, on: bool, rule: string, r0: int, r1: int, c0: int, c1: int, r: Result<set<Pixel>>)
    requires image != {}
    requires r0 == Least(image, false) - 5 && r1 == Greatest(image, false) + 10
    requires c0 == Least(image, true) - 5 && c1 == Greatest(image, true) + 10
    requires r.Ok? <==> Fits(image, on, rule, r0, r1, c0, c1)
    requires r.Err? ==> r.error == IndexError
    requires r.Ok? ==> r.value == Stored(image, on, rule, r0, r1, c0, c1)
    ensures r == Enhance(image, on, rule) && r != Err(ValueError)
  {
    EnhanceWindow(image, on, rule, r0, r1, c0, c1);
  }

  // ---------------------------------------------------------------------------
  // What the stored sets stand for
  // ---------------------------------------------------------------------------

  /** The picture after one enhancement of the picture `lit` by the rule. */
  function Enhanced(lit: Pixel -> bool, rule: string): Pixel -> bool
  {
    p => IndexOf(lit, p) < |rule| && rule[IndexOf(lit, p)] == '#'
  }

  /** p lies in the window `apply_image_enhancement` computes: the bounding box widened by 5 below and 10 above. */
  ghost predicate InWindow(image: set<Pixel>, p: Pixel)
    requires image != {}
  {
    Least(image, false) - 5 <= p.0 < Greatest(image, false) + 10 &&
    Least(image, true) - 5 <= p.1 < Greatest(image, true) + 10
  }

  /** A pixel outside the window has a neighbourhood outside the bounding box: a uniform background. */
  lemma Background(image: set<Pixel>, on: bool, p: Pixel)
    requires image != {} && !InWindow(image, p)
    ensures Index(image, on, p) == if on then 0 else 511
  {
    forall k | 0 <= k < 9 ensures View(image, on)(Neighbours(p)[k]) == !on {
      var q := Neighbours(p)[k];
      assert Coord(q, false) < Least(image, false) || Greatest(image, false) < Coord(q, false) ||
        Coord(q, true) < Least(image, true) || Greatest(image, true) < Coord(q, true);
    }
    IndexUniform(View(image, on), p, !on);
  }

  /** A pixel is stored iff it lies in the rows and columns and its rule character differs from `on`. */
  lemma StoredMember(image: set<Pixel>, on: bool, rule: string, r0: int, r1: int, c0: int, c1: int, p: Pixel)
    ensures p in Stored(image, on, rule, r0, r1, c0, c1) <==>
      r0 <= p.0 < r1 && c0 <= p.1 < c1 && Index(image, on, p) < |rule| && (rule[Index(image, on, p)] == '#') != on
  {
    assert p == (p.0, p.1);
  }

  /** With a rule of 512 characters every index fits: one round succeeds on any non-empty image. */
  lemma EnhanceOk(image: set<Pixel>, on: bool, rule: string)
    requires image != {} && |rule| >= 512
    ensures Enhance(image, on, rule) == Ok(Stored(image, on, rule,
      Least(image, false) - 5, Greatest(image, false) + 10, Least(image, true) - 5, Greatest(image, true) + 10))
  {
    var r0, r1 := Least(image, false) - 5, Greatest(image, false) + 10;
    var c0, c1 := Least(image, true) - 5, Greatest(image, true) + 10;
    forall r, c | r0 <= r < r1 && c0 <= c < c1 ensures Index(image, on, (r, c)) < |rule| {
      IndexBound(View(image, on), (r, c));
    }
    EnhanceWindow(image, on, rule, r0, r1, c0, c1);
  }

  /** So the result holds the pixels of the window whose rule character differs from `on`. */
  lemma EnhanceFits(image: set<Pixel>, on: bool, rule: string, p: Pixel)
    requires image != {} && |rule| >= 512
    ensures Enhance(image, on, rule).Ok?
    ensures p in Enhance(image, on, rule).value <==> InWindow(image, p) && (rule[Index(image, on, p)] == '#') != on
  {
    EnhanceOk(image, on, rule);
    IndexBound(View(image, on), p);
    StoredMember(image, on, rule,
      Least(image, false) - 5, Greatest(image, false) + 10, Least(image, true) - 5, Greatest(image, true) + 10, p);
  }

  /** Inside the window the result, read with the opposite `on`, is the enhanced picture. */
  lemma EnhanceInside(image: set<Pixel>, on: bool, rule: string, p: Pixel)
    requires image != {} && |rule| >= 512 && InWindow(image, p)
    ensures Enhance(image, on, rule).Ok?
    ensures View(Enhance(image, on, rule).value, !on)(p) == Enhanced(View(image, on), rule)(p)
  {
    EnhanceFits(image, on, rule, p);
    IndexBound(View(image, on), p);
  }

  /**
   * Outside the window the result, read with the opposite `on`, is `on`,
   * while the enhanced picture is the rule character of a uniform
   * background: the first one for a dark background, the last for a lit one.
   */
  lemma EnhanceOutside(image: set<Pixel>, on: bool, rule: string, p: Pixel)
    requires image != {} && |rule| >= 512 && !InWindow(image, p)
    ensures Enhance(image, on, rule).Ok?
    ensures View(Enhance(image, on, rule).value, !on)(p) == on
    ensures Enhanced(View(image, on), rule)(p) == (rule[if on then 0 else 511] == '#')
  {
    EnhanceFits(image, on, rule, p);
    Background(image, on, p);
  }

  /**
   * One round with a rule of 512 characters always succeeds on a non-empty
   * image, and the stored result, read with the opposite `on`, is the
   * enhanced picture at every pixel exactly when the rule maps the
   * background to the kind of pixel the result does not store: a dark
   * background (`on`) must light up (the first rule character is '#'), a
   * lit one must go dark (the last is '.').
   */
  lemma EnhanceRepresents(image: set<Pixel>, on: bool, rule: string)
    requires image != {} && |rule| >= 512
    ensures Enhance(image, on, rule).Ok?
    ensures (forall p :: View(Enhance(image, on, rule).value, !on)(p) == Enhanced(View(image, on), rule)(p))
      <==> (rule[if on then 0 else 511] == '#') == on
  {
    EnhanceOk(image, on, rule);
    if (rule[if on then 0 else 511] == '#') == on {
      forall p ensures View(Enhance(image, on, rule).value, !on)(p) == Enhanced(View(image, on), rule)(p) {
        if InWindow(image, p) {
          EnhanceInside(image, on, rule, p);
        } else {
          EnhanceOutside(image, on, rule, p);
        }
      }
    } else {
      var far := (Greatest(image, false) + 10, Greatest(image, true) + 10);
      EnhanceOutside(image, on, rule, far);
    }
  }

  /** The stored set after n rounds of the driver loop, round i reading with `on` = (i % 2 == 0). */
  ghost function Rounds(image: set<Pixel>, rule: string, n: nat): Result<set<Pixel>>
  {
    if n == 0 then Ok(image)
    else
      match Rounds(image, rule, n - 1)
      case Err(e) => Err(e)
      case Ok(current) => Enhance(current, (n - 1) % 2 == 0, rule)
  }

  /** The picture after n enhancements of the lit pixels of `image`. */
  ghost function Truth(image: set<Pixel>, rule: string, n: nat): Pixel -> bool
  {
    if n == 0 then View(image, true) else Enhanced(Truth(image, rule, n - 1), rule)
  }

  /** A failed round fails the rest. */
  lemma {:induction false} RoundsStayFailed(image: set<Pixel>, rule: string, m: nat, n: nat)
    requires m <= n && Rounds(image, rule, m).Err?
    ensures Rounds(image, rule, n) == Rounds(image, rule, m)
    decreases n - m
  {
    if m < n {
      RoundsStayFailed(image, rule, m + 1, n);
    }
  }

  /** The stored set, read with `on`, shows the picture `lit` at every pixel. */
  ghost predicate Depicts(stored: set<Pixel>, on: bool, lit: Pixel -> bool)
  {
    forall q :: View(stored, on)(q) == lit(q)
  }

  /**
   * One round at pixel p, for a rule that maps the background correctly:
   * if the stored set depicts the picture `lit`, the result reads as the
   * enhanced picture at p.
   */
  lemma RoundStep(current: set<Pixel>, on: bool, rule: string, lit: Pixel -> bool, next: set<Pixel>, p: Pixel)
    requires current != {} && |rule| >= 512 && (rule[if on then 0 else 511] == '#') == on
    requires Enhance(current, on, rule) == Ok(next)
    requires Depicts(current, on, lit)
    ensures View(next, !on)(p) == Enhanced(lit, rule)(p)
  {
    if InWindow(current, p) {
      EnhanceInside(current, on, rule, p);
    } else {
      EnhanceOutside(current, on, rule, p);
    }
    IndexOfLocal(View(current, on), lit, p);
    assert Enhanced(View(current, on), rule)(p) == Enhanced(lit, rule)(p);
  }

  /** A whole round, for a rule that maps the background correctly, turns a depiction of `lit` into one of its enhancement. */
  lemma RoundDepicts(current: set<Pixel>, on: bool, rule: string, lit: Pixel -> bool, next: set<Pixel>)
    requires current != {} && |rule| >= 512 && (rule[if on then 0 else 511] == '#') == on
    requires Enhance(current, on, rule) == Ok(next)
    requires Depicts(current, on, lit)
    ensures Depicts(next, !on, Enhanced(lit, rule))
  {
    forall q ensures View(next, !on)(q) == Enhanced(lit, rule)(q) {
      RoundStep(current, on, rule, lit, next, q);
    }
  }

  /** The polarity of the round counter. */
  lemma Parity(m: nat)
    ensures m == 0 ==> m % 2 == 0
    ensures ((m + 1) % 2 == 0) == !(m % 2 == 0)
  {
  }

  /** A round that succeeds follows one that succeeded. */
  lemma RoundsBefore(image: set<Pixel>, rule: string, m: nat)
    requires Rounds(image, rule, m + 1).Ok?
    ensures Rounds(image, rule, m).Ok?
  {
    RoundsNext(image, rule, m + 1);
  }

  /** Before any round the image, read with `on` = true, depicts its lit pixels. */
  lemma RoundsStart(image: set<Pixel>, rule: string, m: nat)
    requires m == 0
    ensures Rounds(image, rule, m) == Ok(image)
    ensures Depicts(Rounds(image, rule, m).value, m % 2 == 0, Truth(image, rule, m))
  {
    assert Truth(image, rule, m) == View(image, true);
    Parity(m);
  }

  /** Round m + 1 keeps the depiction, with the polarity flipped. */
  lemma RoundsAdvance(image: set<Pixel>, rule: string, m: nat)
    requires |rule| >= 512 && rule[0] == '#' && rule[511] == '.'
    requires Rounds(image, rule, m + 1).Ok?
    requires Rounds(image, rule, m).Ok? && Depicts(Rounds(image, rule, m).value, m % 2 == 0, Truth(image, rule, m))
    ensures Depicts(Rounds(image, rule, m + 1).value, (m + 1) % 2 == 0, Truth(image, rule, m + 1))
  {
    RoundsNext(image, rule, m + 1);
    Parity(m);
    RoundDepicts(Rounds(image, rule, m).value, m % 2 == 0, rule, Truth(image, rule, m), Rounds(image, rule, m + 1).value);
    assert Truth(image, rule, m + 1) == Enhanced(Truth(image, rule, m), rule);
  }

  /** Induction on the rounds: after m + 1 rounds the stored set depicts the m + 1 times enhanced picture. */
  lemma {:induction false} RoundsDepict(image: set<Pixel>, rule: string, m: nat)
    requires |rule| >= 512 && rule[0] == '#' && rule[511] == '.'
    requires Rounds(image, rule, m + 1).Ok?
    ensures Depicts(Rounds(image, rule, m + 1).value, (m + 1) % 2 == 0, Truth(image, rule, m + 1))
  {
    RoundsBefore(image, rule, m);
    if m > 0 {
      RoundsDepict(image, rule, m - 1);
    } else {
      RoundsStart(image, rule, m);
    }
    RoundsAdvance(image, rule, m);
  }

  /**
   * With a rule of 512 characters that lights a dark background and darkens
   * a lit one, the alternating polarity is exact: after n rounds the stored
   * set, read with `on` = (n % 2 == 0), is the n times enhanced picture, and
   * after an even number of rounds it holds exactly its lit pixels.
   */
  lemma RoundsRepresent(image: set<Pixel>, rule: string, n: nat)
    requires |rule| >= 512 && rule[0] == '#' && rule[511] == '.'
    requires Rounds(image, rule, n).Ok?
    ensures forall p :: View(Rounds(image, rule, n).value, n % 2 == 0)(p) == Truth(image, rule, n)(p)
    ensures n % 2 == 0 ==> forall p :: p in Rounds(image, rule, n).value <==> Truth(image, rule, n)(p)
  {
    if n > 0 {
      RoundsDepict(image, rule, n - 1);
      assert Depicts(Rounds(image, rule, n).value, n % 2 == 0, Truth(image, rule, n));
    }
  }

  /** A round that succeeds follows a round that succeeded with a non-empty image. */
  lemma RoundsNext(image: set<Pixel>, rule: string, n: nat)
    requires n > 0 && Rounds(image, rule, n).Ok?
    ensures Rounds(image, rule, n - 1).Ok? && Rounds(image, rule, n - 1).value != {}
    ensures Rounds(image, rule, n) == Enhance(Rounds(image, rule, n - 1).value, (n - 1) % 2 == 0, rule)
  {
  }

  /** The loop of `part_1` (2 rounds) and `part_2` (50 rounds). */
  method Enhancements(image: set<Pixel>, rule: string, rounds: nat) returns (r: Result<set<Pixel>>)
    ensures r == Rounds(image, rule, rounds)
  {
    var current := image;
    for i := 0 to rounds
      invariant Rounds(image, rule, i) == Ok(current)
    {
      var next := ApplyEnhancement(current, i % 2 == 0, rule);
      if next.Err? {
        RoundsStayFailed(image, rule, i + 1, rounds);
        return next;
      }
      current := next.value;
    }
    return Ok(current);
  }
}
