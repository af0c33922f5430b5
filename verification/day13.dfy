/**
 * Transparent origami: dots on a sheet are folded along vertical (x) and
 * horizontal (y) lines; a dot past the line lands on its mirror image.
 * The numbers of the dots and fold lines are read as the runs of digits
 * in a line of text.
 */
module Day13Origami {
  import opened Common
  import opened Decimal

  // ---------------------------------------------------------------------------
  // extract_integers: the runs of digits of a line
  // ---------------------------------------------------------------------------

  predicate NoDigits(s: string)
  {
    forall i :: 0 <= i < |s| ==> !IsDigit(s[i])
  }

  /** The length of the run of digits that s starts with. */
  function DigitRun(s: string): (n: nat)
    ensures n <= |s| && AllDigits(s[..n])
    ensures n < |s| ==> !IsDigit(s[n])
  {
    if s == [] || !IsDigit(s[0]) then 0
    else
      var n := 1 + DigitRun(s[1..]);
      assert s[..n] == [s[0]] + s[1..][..n - 1];
      n
  }

  /** `extract_integers`: the value of every maximal run of ASCII digits, left to right. */
  function ExtractIntegers(line: string): (r: seq<nat>)
    decreases |line|
  {
    if line == [] then []
    else if !IsDigit(line[0]) then ExtractIntegers(line[1..])
    else
      var n := DigitRun(line);
      [Value(line[..n])] + ExtractIntegers(line[n..])
  }

  /** Characters other than digits are skipped. */
  lemma {:induction false} SkipNonDigits(s: string, t: string)
    requires NoDigits(s)
    ensures ExtractIntegers(s + t) == ExtractIntegers(t)
    decreases |s|
  {
    if s != [] {
      assert (s + t)[1..] == s[1..] + t;
      SkipNonDigits(s[1..], t);
    } else {
      assert s + t == t;
    }
  }

  lemma {:induction false} DigitRunOf(d: string, rest: string)
    requires AllDigits(d)
    requires rest == [] || !IsDigit(rest[0])
    ensures DigitRun(d + rest) == |d|
    decreases |d|
  {
    if d == [] {
      assert d + rest == rest;
    } else {
      assert (d + rest)[1..] == d[1..] + rest;
      DigitRunOf(d[1..], rest);
    }
  }

  /** A maximal run of digits is read as one number, by its decimal value. */
  lemma RunFirst(d: string, rest: string)
    requires d != [] && AllDigits(d)
    requires rest == [] || !IsDigit(rest[0])
    ensures ExtractIntegers(d + rest) == [Value(d)] + ExtractIntegers(rest)
  {
    DigitRunOf(d, rest);
    assert IsDigit((d + rest)[0]);
    assert (d + rest)[..|d|] == d && (d + rest)[|d|..] == rest;
  }

  /** The numbers xs written in decimal, with sep between consecutive numbers. */
  function Listed(xs: seq<nat>, sep: string): string
  {
    if xs == [] then []
    else if |xs| == 1 then Render(xs[0])
    else Render(xs[0]) + sep + Listed(xs[1..], sep)
  }

  /** Numbers written out with separators that hold no digit are read back exactly. */
  lemma {:induction false} ExtractListed(xs: seq<nat>, sep: string)
    requires sep != [] && NoDigits(sep)
    ensures ExtractIntegers(Listed(xs, sep)) == xs
    decreases |xs|
  {
    if |xs| == 1 {
      ValueOfRender(xs[0]);
      RunFirst(Render(xs[0]), []);
      assert Render(xs[0]) + [] == Render(xs[0]);
    } else if |xs| > 1 {
      var tail := Listed(xs[1..], sep);
      ValueOfRender(xs[0]);
      assert !IsDigit((sep + tail)[0]);
      RunFirst(Render(xs[0]), sep + tail);
      assert Render(xs[0]) + sep + tail == Render(xs[0]) + (sep + tail);
      SkipNonDigits(sep, tail);
      ExtractListed(xs[1..], sep);
    }
  }

  /** A minus sign is not part of a number: "-n" is read as n. */
  lemma MinusIgnored(n: nat)
    ensures ExtractIntegers(RenderInt(-(n as int))) == [n]
  {
    ValueOfRender(n);
    RunFirst(Render(n), []);
    assert Render(n) + [] == Render(n);
    if n > 0 {
      SkipNonDigits(['-'], Render(n));
    }
  }

  /** The documented example "10,4". */
  lemma ExtractPairExample(line: string)
    requires line == "10,4"
    ensures ExtractIntegers(line) == [10, 4]
  {
    var four, sep, ten := "4", ",", "10";
    RunFirst(four, []);
    SkipNonDigits(sep, four);
    RunFirst(ten, sep + four);
    assert four + [] == four && line == ten + (sep + four);
  }

  /** The documented example "x=408z". */
  lemma ExtractEmbeddedExample(line: string)
    requires line == "x=408z"
    ensures ExtractIntegers(line) == [408]
  {
    var pre, d, post := "x=", "408", "z";
    SkipNonDigits(post, []);
    RunFirst(d, post);
    SkipNonDigits(pre, d + post);
    assert post + [] == post && line == pre + (d + post);
    assert d[..2] == "40" && "40"[..1] == "4";
    assert Value(d) == 408;
  }

  /** The documented example "fold along x=0". */
  lemma ExtractFoldExample(line: string)
    requires line == "fold along x=0"
    ensures ExtractIntegers(line) == [0]
  {
    var pre, d := "fold along x=", "0";
    RunFirst(d, []);
    SkipNonDigits(pre, d);
    assert d + [] == d && line == pre + d;
  }

  // ---------------------------------------------------------------------------
  // fold
  // ---------------------------------------------------------------------------

  /** A dot as read: the integers of its line (a dot is unpacked as `x, y`). */
  type Point = seq<int>

  datatype Axis = X | Y

  /** A coordinate past the line at pos is mirrored onto it; one before it stays. */
  function FoldCoord(v: int, pos: int): int
  {
    if v < pos then v else pos - (v - pos)
  }

  /** A folded coordinate is on the kept side, at the same distance from the line. */
  lemma FoldCoordMirror(v: int, pos: int)
    ensures FoldCoord(v, pos) <= pos
    ensures Abs(FoldCoord(v, pos) - pos) == Abs(v - pos)
    ensures FoldCoord(2 * pos - v, pos) == FoldCoord(v, pos)
    ensures FoldCoord(FoldCoord(v, pos), pos) == FoldCoord(v, pos)
  {
  }

  /** The fold of one dot; only the coordinate across the line changes. */
  function FoldPoint(p: Point, axis: Axis, pos: int): (r: Point)
    requires |p| == 2
    ensures |r| == 2
  {
    match axis
    case X => [FoldCoord(p[0], pos), p[1]]
    case Y => [p[0], FoldCoord(p[1], pos)]
  }

  predicate Pairs(points: seq<Point>)
  {
    forall i :: 0 <= i < |points| ==> |points[i]| == 2
  }

  /** One fold of every dot; unpacking a dot that is not a pair is the ValueError. */
  function FoldOnce(points: seq<Point>, axis: Axis, pos: int): (r: Result<seq<Point>>)
    ensures r.Ok? <==> Pairs(points)
    ensures r.Err? ==> r.error == ValueError
  {
    if Pairs(points) then Ok(seq(|points|, i requires 0 <= i < |points| && Pairs(points) => FoldPoint(points[i], axis, pos)))
    else Err(ValueError)
  }

  /** The fold line of an instruction: its first number (IndexError when it has none), along x when it mentions 'x'. */
  function Line(instruction: string): (r: Result<(Axis, nat)>)
    ensures r.Ok? <==> ExtractIntegers(instruction) != []
  {
    var nums := ExtractIntegers(instruction);
    if nums == [] then Err(IndexError)
    else Ok((if 'x' in instruction then X else Y, nums[0]))
  }

  /** One pass of the loop of `fold`: read the line, then fold every dot. */
  function FoldStep(points: seq<Point>, instruction: string): Result<seq<Point>>
  {
    match Line(instruction)
    case Err(e) => Err(e)
    case Ok((axis, pos)) => FoldOnce(points, axis, pos)
  }

  /** The dots after the instructions, in order; the first error ends the folding. */
  function FoldAll(points: seq<Point>, instructions: seq<string>): Result<seq<Point>>
  {
    if instructions == [] then Ok(points)
    else
      match FoldAll(points, instructions[..|instructions| - 1])
      case Err(e) => Err(e)
      case Ok(q) => FoldStep(q, instructions[|instructions| - 1])
  }

  /** `fold`: the loop over the instructions rebinds the dots to their folded copies. */
  method Fold(points: seq<Point>, instructions: seq<string>) returns (r: Result<seq<Point>>)
    ensures r == FoldAll(points, instructions)
  {
    var current := points;
    for k := 0 to |instructions|
      invariant FoldAll(points, instructions[..k]) == Ok(current)
    {
      assert instructions[..k + 1][..k] == instructions[..k];
      var pos: nat;
      var axis: Axis;
      var nums := ExtractIntegers(instructions[k]);
      if nums == [] {
        assert FoldAll(points, instructions[..k + 1]) == Err(IndexError);
        FoldAllErrStays(points, instructions[..k + 1], instructions[k + 1..]);
        assert instructions[..k + 1] + instructions[k + 1..] == instructions;
        return Err(IndexError);
      }
      pos := nums[0];
      if 'x' in instructions[k] {
        axis := X;
      } else {
        axis := Y;
      }
      var next := FoldOnce(current, axis, pos);
      if next.Err? {
        assert FoldAll(points, instructions[..k + 1]) == Err(ValueError);
        FoldAllErrStays(points, instructions[..k + 1], instructions[k + 1..]);
        assert instructions[..k + 1] + instructions[k + 1..] == instructions;
        return Err(ValueError);
      }
      current := next.value;
    }
    assert instructions[..|instructions|] == instructions;
    return Ok(current);
  }

  /** Once an instruction fails, later instructions are never read. */
  lemma {:induction false} FoldAllErrStays(points: seq<Point>, done: seq<string>, later: seq<string>)
    requires FoldAll(points, done).Err?
    ensures FoldAll(points, done + later) == FoldAll(points, done)
    decreases |later|
  {
    if later == [] {
      assert done + later == done;
    } else {
      var init := later[..|later| - 1];
      FoldAllErrStays(points, done, init);
      assert (done + later)[..|done + later| - 1] == done + init;
    }
  }

  /** Instructions are applied in list order: folding by a + b is folding by a, then by b. */
  lemma {:induction false} FoldAllAppend(points: seq<Point>, a: seq<string>, b: seq<string>)
    ensures FoldAll(points, a + b) ==
      if FoldAll(points, a).Err? then FoldAll(points, a) else FoldAll(FoldAll(points, a).value, b)
    decreases |b|
  {
    if b == [] {
      assert a + b == a;
    } else {
      var init := b[..|b| - 1];
      FoldAllAppend(points, a, init);
      assert (a + b)[..|a + b| - 1] == a + init;
      assert (a + b)[|a + b| - 1] == b[|b| - 1];
    }
  }

  /** The first instruction is applied first. */
  lemma FoldAllFirst(points: seq<Point>, instruction: string, rest: seq<string>)
    ensures FoldAll(points, [instruction] + rest) ==
      if FoldStep(points, instruction).Err? then FoldStep(points, instruction)
      else FoldAll(FoldStep(points, instruction).value, rest)
  {
    FoldAllAppend(points, [instruction], rest);
    assert [instruction][..0] == [];
  }

  /**
   * A fold keeps every dot, duplicates included: dot i stays where it is when
   * it is before the line and is mirrored across the line otherwise; the
   * other coordinate does not change.
   */
  lemma FoldOnceMoves(points: seq<Point>, axis: Axis, pos: int)
    requires Pairs(points)
    ensures var r := FoldOnce(points, axis, pos).value;
      && |r| == |points| && Pairs(r)
      && forall i :: 0 <= i < |points| ==> Mirrored(points[i], r[i], axis, pos)
  {
  }

  /** q is p folded across the line at pos: the coordinate across stays or is mirrored to the kept side. */
  predicate Mirrored(p: Point, q: Point, axis: Axis, pos: int)
    requires |p| == 2 && |q| == 2
  {
    var (k, o) := if axis == X then (0, 1) else (1, 0);
    && q[o] == p[o]
    && q[k] <= pos
    && (if p[k] < pos then q[k] == p[k] else q[k] == 2 * pos - p[k])
  }

  /** Folding twice along the same line changes nothing the first fold did not. */
  lemma FoldOnceIdempotent(points: seq<Point>, axis: Axis, pos: int)
    requires Pairs(points)
    ensures FoldOnce(FoldOnce(points, axis, pos).value, axis, pos) == FoldOnce(points, axis, pos)
  {
    var r := FoldOnce(points, axis, pos).value;
    var rr := FoldOnce(r, axis, pos).value;
    forall i | 0 <= i < |points|
      ensures rr[i] == r[i]
    {
      FoldCoordMirror(points[i][0], pos);
      FoldCoordMirror(points[i][1], pos);
    }
    assert Pairs(r) && rr == r;
  }

  /** The set of dots: what `len(set(points))` counts. */
  function Dots(points: seq<Point>): set<Point>
  {
    set i | 0 <= i < |points| :: points[i]
  }

  lemma DotsSnoc(points: seq<Point>)
    requires points != []
    ensures Dots(points) == Dots(points[..|points| - 1]) + {points[|points| - 1]}
  {
    var n := |points| - 1;
    forall p | p in Dots(points)
      ensures p in Dots(points[..n]) + {points[n]}
    {
      var i :| 0 <= i < |points| && points[i] == p;
      if i < n {
        assert points[..n][i] == p;
      }
    }
    forall p | p in Dots(points[..n])
      ensures p in Dots(points)
    {
      var i :| 0 <= i < n && points[..n][i] == p;
      assert points[i] == p;
    }
  }

  lemma FoldOnceSnoc(points: seq<Point>, axis: Axis, pos: int)
    requires Pairs(points) && points != []
    ensures Pairs(points[..|points| - 1])
    ensures FoldOnce(points, axis, pos).value
      == FoldOnce(points[..|points| - 1], axis, pos).value + [FoldPoint(points[|points| - 1], axis, pos)]
  {
    var n := |points| - 1;
    assert forall i :: 0 <= i < n ==> points[..n][i] == points[i];
  }

  /** A fold never makes more dots visible: dots only merge. */
  lemma {:induction false} FoldNeverAddsDots(points: seq<Point>, axis: Axis, pos: int)
    requires Pairs(points)
    ensures |Dots(FoldOnce(points, axis, pos).value)| <= |Dots(points)|
    decreases |points|
  {
    if points != [] {
      var n := |points| - 1;
      var init, last := points[..n], points[n];
      FoldOnceSnoc(points, axis, pos);
      FoldNeverAddsDots(init, axis, pos);
      var r := FoldOnce(points, axis, pos).value;
      var r0 := FoldOnce(init, axis, pos).value;
      assert r[..n] == r0;
      DotsSnoc(points);
      DotsSnoc(r);
      if last in Dots(init) {
        var i :| 0 <= i < n && init[i] == last;
        assert r0[i] == r[n];
        assert Dots(r) == Dots(r0);
      }
    }
  }

  /** The documented fold along x=0. */
  lemma FoldAlongXExample(points: seq<Point>, instruction: string)
    requires points == [[1, 0], [-1, 0]] && instruction == "fold along x=0"
    ensures FoldAll(points, [instruction]) == Ok([[-1, 0], [-1, 0]])
  {
    ExtractFoldExample(instruction);
    assert instruction[11] == 'x';
    assert Line(instruction) == Ok((X, 0));
    assert [instruction][..0] == [];
    assert Pairs(points);
    var r := FoldOnce(points, X, 0).value;
    assert FoldAll(points, [instruction]) == FoldStep(points, instruction) == FoldOnce(points, X, 0);
    assert |r| == 2;
    assert r[0] == [-1, 0] && r[1] == [-1, 0];
    assert r == [[-1, 0], [-1, 0]];
  }

  /** The documented fold along y=3. */
  lemma FoldAlongYExample(points: seq<Point>, instruction: string)
    requires points == [[1, 6], [-1, -4]] && instruction == "fold along y=3"
    ensures FoldAll(points, [instruction]) == Ok([[1, 0], [-1, -4]])
  {
    var pre, d := "fold along y=", "3";
    RunFirst(d, []);
    SkipNonDigits(pre, d);
    assert d + [] == d && instruction == pre + d;
    assert 'x' !in instruction;
    assert Line(instruction) == Ok((Y, 3));
    assert [instruction][..0] == [];
    assert Pairs(points);
    var r := FoldOnce(points, Y, 3).value;
    assert FoldAll(points, [instruction]) == FoldStep(points, instruction) == FoldOnce(points, Y, 3);
    assert |r| == 2;
    assert r[0] == [1, 0] && r[1] == [-1, -4];
    assert r == [[1, 0], [-1, -4]];
  }
}
