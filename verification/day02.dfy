/**
 * Dive: submarine commands "forward d", "down d", "up d", turned into
 * (horizontal, vertical) updates and folded into a position, first directly
 * and then through an accumulated aim.
 */
module Day2Dive {
  import opened Common
  import Decimal
  import opened Text

  datatype Update = Update(horizontal: int, vertical: int)

  /**
   * One command line as the script reads it: the direction comes from the
   * prefix of the raw line and the amount from the LAST character of the
   * stripped line only.
   */
  function CourseUpdate(line: string): (r: Result<Update>)
    ensures r.Ok? <==> Strip(line) != [] && Decimal.IsDigit(Strip(line)[|Strip(line)| - 1])
    ensures r.Ok? ==> r.value.horizontal >= 0
    ensures r.Ok? && StartsWith(line, "forward") ==> r.value.vertical == 0
    ensures r.Ok? && !StartsWith(line, "forward") ==> r.value.horizontal == 0
    ensures r.Ok? && !StartsWith(line, "forward") && !StartsWith(line, "down") ==> r.value.vertical <= 0
    ensures r.Ok? && StartsWith(line, "down") && !StartsWith(line, "forward") ==> r.value.vertical >= 0
    ensures r.Ok? ==> r.value.horizontal + Abs(r.value.vertical) == Decimal.DigitValue(Strip(line)[|Strip(line)| - 1])
  {
    var s := Strip(line);
    if s == [] then Err(IndexError)
    else if !Decimal.IsDigit(s[|s| - 1]) then Err(ValueError)
    else
      var d := Decimal.DigitValue(s[|s| - 1]);
      if StartsWith(line, "forward") then Ok(Update(d, 0))
      else if StartsWith(line, "down") then Ok(Update(0, d))
      else Ok(Update(0, -(d as int)))
  }

  /** The command a well-formed line spells out. */
  datatype Command = Forward(amount: nat) | Down(amount: nat) | Up(amount: nat)

  function Render(c: Command): string
  {
    match c
    case Forward(n) => "forward " + Decimal.Render(n)
    case Down(n) => "down " + Decimal.Render(n)
    case Up(n) => "up " + Decimal.Render(n)
  }

  /** The update a command means. */
  function Meaning(c: Command): Update
  {
    match c
    case Forward(n) => Update(n, 0)
    case Down(n) => Update(0, n)
    case Up(n) => Update(0, -(n as int))
  }

  lemma RenderedShape(c: Command)
    ensures Strip(Render(c)) == Render(c)
    ensures StartsWith(Render(c), "forward") <==> c.Forward?
    ensures StartsWith(Render(c), "down") <==> c.Down?
  {
    var digits := Decimal.Render(c.amount);
    var s := Render(c);
    assert !IsSpace(s[0]);
    assert s[|s| - 1] == digits[|digits| - 1];
    assert Decimal.IsDigit(s[|s| - 1]);
    StripUnchanged(s);
    if c.Down? || c.Up? {
      assert s[0] != 'f';
    }
    if c.Forward? || c.Up? {
      assert s[0] != 'd';
    }
  }

  /** Single-digit amounts are read correctly. */
  lemma CourseUpdateSingleDigit(c: Command)
    requires c.amount < 10
    ensures CourseUpdate(Render(c)) == Ok(Meaning(c))
  {
    RenderedShape(c);
  }

  /** "forward 10" is read as a move of 0, not 10: only the last digit counts. */
  lemma CourseUpdateDropsLeadingDigits()
    ensures CourseUpdate(Render(Forward(10))) == Ok(Update(0, 0))
    ensures Meaning(Forward(10)) == Update(10, 0)
  {
    var s := Render(Forward(10));
    RenderedShape(Forward(10));
    assert Decimal.Render(10) == Decimal.Render(1) + ['0'];
    assert s[|s| - 1] == '0';
  }

  /** The digit run at the end of s: its start index. */
  function TrailingDigitsStart(s: string): (k: nat)
    ensures k <= |s| && Decimal.AllDigits(s[k..])
    ensures k > 0 ==> !Decimal.IsDigit(s[k - 1])
  {
    if s == [] || !Decimal.IsDigit(s[|s| - 1]) then |s|
    else
      var k := TrailingDigitsStart(s[..|s| - 1]);
      assert s[k..] == s[..|s| - 1][k..] + [s[|s| - 1]];
      k
  }

  /** The command line read with its whole trailing amount, as intended. */
  function CourseUpdateCorrected(line: string): (r: Result<Update>)
    ensures r.Ok? <==> Strip(line) != [] && Decimal.IsDigit(Strip(line)[|Strip(line)| - 1])
  {
    var s := Strip(line);
    if s == [] then Err(IndexError)
    else if !Decimal.IsDigit(s[|s| - 1]) then Err(ValueError)
    else
      var d := Decimal.Value(s[TrailingDigitsStart(s)..]);
      if StartsWith(line, "forward") then Ok(Update(d, 0))
      else if StartsWith(line, "down") then Ok(Update(0, d))
      else Ok(Update(0, -(d as int)))
  }

  /** Every rendered command, whatever its amount, reads back as its meaning. */
  lemma CourseUpdateCorrectedRoundTrip(c: Command)
    ensures CourseUpdateCorrected(Render(c)) == Ok(Meaning(c))
  {
    RenderedShape(c);
    var digits := Decimal.Render(c.amount);
    var s := Render(c);
    var prefix := s[..|s| - |digits|];
    assert s == prefix + digits;
    assert prefix[|prefix| - 1] == ' ';
    TrailingDigitsOfSuffix(prefix, digits);
    Decimal.ValueOfRender(c.amount);
  }

  lemma {:induction false} TrailingDigitsOfSuffix(prefix: string, digits: string)
    requires prefix != [] && !Decimal.IsDigit(prefix[|prefix| - 1])
    requires Decimal.AllDigits(digits)
    ensures TrailingDigitsStart(prefix + digits) == |prefix|
  {
    if digits == [] {
      assert prefix + digits == prefix;
    } else {
      var s := prefix + digits;
      assert s[..|s| - 1] == prefix + digits[..|digits| - 1];
      TrailingDigitsOfSuffix(prefix, digits[..|digits| - 1]);
    }
  }

  /** Parses every line; the first malformed line aborts the generator. */
  function CourseUpdates(lines: seq<string>): (r: Result<seq<Update>>)
    ensures r.Ok? ==> |r.value| == |lines|
    ensures r.Ok? ==> forall i :: 0 <= i < |lines| ==> CourseUpdate(lines[i]) == Ok(r.value[i])
  {
    if lines == [] then Ok([])
    else
      match CourseUpdate(lines[0])
      case Err(e) => Err(e)
      case Ok(u) =>
        match CourseUpdates(lines[1..])
        case Err(e) => Err(e)
        case Ok(rest) => Ok([u] + rest)
  }

  /** Total horizontal and vertical movement of a prefix of updates. */
  function TotalHorizontal(u: seq<Update>): int
  {
    if u == [] then 0 else TotalHorizontal(u[..|u| - 1]) + u[|u| - 1].horizontal
  }

  function TotalVertical(u: seq<Update>): int
  {
    if u == [] then 0 else TotalVertical(u[..|u| - 1]) + u[|u| - 1].vertical
  }

  /** Part one: adds every update to the position, component by component. */
  method FinalPosition(updates: seq<Update>) returns (horizontal: int, depth: int)
    ensures horizontal == TotalHorizontal(updates)
    ensures depth == TotalVertical(updates)
  {
    horizontal, depth := 0, 0;
    for i := 0 to |updates|
      invariant horizontal == TotalHorizontal(updates[..i])
      invariant depth == TotalVertical(updates[..i])
    {
      assert updates[..i + 1][..i] == updates[..i];
      horizontal := horizontal + updates[i].horizontal;
      depth := depth + updates[i].vertical;
    }
    assert updates[..|updates|] == updates;
  }

  /**
   * The depth under the aim rule: each update first shifts the aim by its
   * vertical part, then moves forward by its horizontal part and down by
   * horizontal times the new aim.
   */
  function AimedDepth(u: seq<Update>): int
  {
    if u == [] then 0
    else
      var last := u[|u| - 1];
      AimedDepth(u[..|u| - 1]) + last.horizontal * TotalVertical(u)
  }

  /** Part two: the aim is the running vertical total. */
  method FinalPositionWithAim(updates: seq<Update>) returns (horizontal: int, depth: int, aim: int)
    ensures aim == TotalVertical(updates)
    ensures horizontal == TotalHorizontal(updates)
    ensures depth == AimedDepth(updates)
  {
    horizontal, depth, aim := 0, 0, 0;
    for i := 0 to |updates|
      invariant aim == TotalVertical(updates[..i])
      invariant horizontal == TotalHorizontal(updates[..i])
      invariant depth == AimedDepth(updates[..i])
    {
      assert updates[..i + 1][..i] == updates[..i];
      aim := aim + updates[i].vertical;
      horizontal := horizontal + updates[i].horizontal;
      depth := depth + updates[i].horizontal * aim;
    }
    assert updates[..|updates|] == updates;
  }

  /** An up or down command turns the submarine but does not move it. */
  lemma TurningDoesNotMove(u: seq<Update>, x: Update)
    requires x.horizontal == 0
    ensures TotalHorizontal(u + [x]) == TotalHorizontal(u)
    ensures AimedDepth(u + [x]) == AimedDepth(u)
    ensures TotalVertical(u + [x]) == TotalVertical(u) + x.vertical
  {
    assert (u + [x])[..|u|] == u;
  }

  /** Without any vertical commands the aim stays 0 and the depth never changes. */
  lemma {:induction false} LevelCourseStaysAtSurface(u: seq<Update>)
    requires forall i :: 0 <= i < |u| ==> u[i].vertical == 0
    ensures TotalVertical(u) == 0 && AimedDepth(u) == 0
  {
    if u != [] {
      LevelCourseStaysAtSurface(u[..|u| - 1]);
    }
  }

  lemma ExamplePositions()
    ensures var u := [Update(5, 0), Update(0, 5), Update(8, 0), Update(0, -3), Update(0, 8), Update(2, 0)];
      TotalHorizontal(u) * TotalVertical(u) == 150 && TotalHorizontal(u) * AimedDepth(u) == 900
  {
    var u := [Update(5, 0), Update(0, 5), Update(8, 0), Update(0, -3), Update(0, 8), Update(2, 0)];
    assert u[..1] == [Update(5, 0)];
    for i := 1 to 6
      invariant TotalHorizontal(u[..i]) == [0, 5, 5, 13, 13, 13, 15][i]
      invariant TotalVertical(u[..i]) == [0, 0, 5, 5, 2, 10, 10][i]
      invariant AimedDepth(u[..i]) == [0, 0, 0, 40, 40, 40, 60][i]
    {
      assert u[..i + 1][..i] == u[..i];
    }
    assert u[..6] == u;
  }
}
