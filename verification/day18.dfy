/**
 * Snailfish numbers: a number is a regular number or a pair of numbers.
 * Adding two numbers pairs them and reduces the pair: while some pair is
 * nested inside four pairs, the leftmost one explodes; only when none is left
 * does the leftmost regular number of 10 or more split. The magnitude weighs
 * the left element of a pair three times and the right element twice.
 */
module Day18Snailfish {
  import opened Common

  datatype Number = Regular(value: int) | Pair(left: Number, right: Number)

  /** The number of pairs around the most deeply nested regular number. */
  function Height(n: Number): nat
  {
    match n
    case Regular(_) => 0
    case Pair(l, r) => 1 + Max(Height(l), Height(r))
  }

  // ---------------------------------------------------------------------------
  // The flattened view: the regular numbers from left to right with the
  // number of pairs around each. Explode and split are specified on it.
  // ---------------------------------------------------------------------------

  datatype Leaf = Leaf(value: int, depth: nat)

  /** The regular numbers of n from left to right, when n itself sits d pairs deep. */
  function Flat(n: Number, d: nat): (f: seq<Leaf>)
    ensures f != []
  {
    match n
    case Regular(v) => [Leaf(v, d)]
    case Pair(l, r) => Flat(l, d + 1) + Flat(r, d + 1)
  }

  /** A regular number inside an exploding pair. */
  predicate Deep(x: Leaf)
  {
    x.depth >= 5
  }

  /** A regular number that splits. */
  predicate Big(x: Leaf)
  {
    x.value >= 10
  }

  /** The index of the first leaf satisfying p, or |f| when there is none. */
  function First(f: seq<Leaf>, p: Leaf -> bool): (i: nat)
    ensures i <= |f|
    ensures i < |f| ==> p(f[i])
  {
    if f == [] then 0 else if p(f[0]) then 0 else 1 + First(f[1..], p)
  }

  /** No leaf before the first one satisfying p satisfies it. */
  lemma {:induction false} FirstIsFirst(f: seq<Leaf>, p: Leaf -> bool)
    ensures forall k :: 0 <= k < First(f, p) ==> !p(f[k])
  {
    if f != [] && !p(f[0]) {
      FirstIsFirst(f[1..], p);
      assert forall k :: 1 <= k < First(f, p) ==> f[k] == f[1..][k - 1];
    }
  }

  lemma {:induction false} FirstConcat(a: seq<Leaf>, b: seq<Leaf>, p: Leaf -> bool)
    ensures First(a + b, p) == if First(a, p) < |a| then First(a, p) else |a| + First(b, p)
  {
    if a != [] {
      assert (a + b)[0] == a[0];
      assert (a + b)[1..] == a[1..] + b;
      FirstConcat(a[1..], b, p);
      if !p(a[0]) {
        assert First(a + b, p) == 1 + First(a[1..] + b, p);
        assert First(a, p) == 1 + First(a[1..], p);
      }
    } else {
      assert a + b == b;
    }
  }

  /** Every leaf of a number sitting d pairs deep is at least d pairs deep,
   *  and some leaf is exactly d + Height(n) pairs deep, none deeper. */
  lemma {:induction false} FlatDepths(n: Number, d: nat)
    ensures forall k :: 0 <= k < |Flat(n, d)| ==> d <= Flat(n, d)[k].depth <= d + Height(n)
    ensures exists k :: 0 <= k < |Flat(n, d)| && Flat(n, d)[k].depth == d + Height(n)
  {
    match n
    case Regular(_) =>
      assert Flat(n, d)[0].depth == d;
    case Pair(l, r) =>
      FlatDepths(l, d + 1);
      FlatDepths(r, d + 1);
      var fl, fr := Flat(l, d + 1), Flat(r, d + 1);
      assert Flat(n, d) == fl + fr;
      if Height(l) >= Height(r) {
        var k :| 0 <= k < |fl| && fl[k].depth == d + 1 + Height(l);
        assert Flat(n, d)[k] == fl[k];
      } else {
        var k :| 0 <= k < |fr| && fr[k].depth == d + 1 + Height(r);
        assert Flat(n, d)[|fl| + k] == fr[k];
      }
  }

  /** A number d pairs deep holds a leaf at depth five or more exactly when
   *  it reaches depth five. */
  lemma DeepIffHeight(n: Number, d: nat)
    ensures First(Flat(n, d), Deep) < |Flat(n, d)| <==> d + Height(n) >= 5
  {
    FlatDepths(n, d);
    var f := Flat(n, d);
    FirstIsFirst(f, Deep);
    if d + Height(n) >= 5 {
      var k :| 0 <= k < |f| && f[k].depth == d + Height(n);
      assert Deep(f[k]);
    }
  }

  function BumpFirst(f: seq<Leaf>, w: int): seq<Leaf>
    requires f != []
  {
    [Leaf(f[0].value + w, f[0].depth)] + f[1..]
  }

  function BumpLast(f: seq<Leaf>, w: int): seq<Leaf>
    requires f != []
  {
    f[..|f| - 1] + [Leaf(f[|f| - 1].value + w, f[|f| - 1].depth)]
  }

  lemma BumpFirstConcat(a: seq<Leaf>, b: seq<Leaf>, w: int)
    requires a != []
    ensures BumpFirst(a + b, w) == BumpFirst(a, w) + b
  {
    assert (a + b)[1..] == a[1..] + b;
  }

  lemma BumpLastConcat(a: seq<Leaf>, b: seq<Leaf>, w: int)
    requires b != []
    ensures BumpLast(a + b, w) == a + BumpLast(b, w)
  {
    assert (a + b)[..|a + b| - 1] == a + b[..|b| - 1];
  }

  // ---------------------------------------------------------------------------
  // add_left, add_right
  // ---------------------------------------------------------------------------

  /** add_left: element added to the leftmost regular number of n; adding a
   *  pair to a regular number is Python's TypeError. */
  function AddLeft(n: Number, element: Option<Number>): Result<Number>
  {
    match element
    case None => Ok(n)
    case Some(e) =>
      match n
      case Regular(v) => if e.Regular? then Ok(Regular(v + e.value)) else Err(TypeError)
      case Pair(l, r) =>
        var l2 := AddLeft(l, element);
        if l2.Err? then Err(l2.error) else Ok(Pair(l2.value, r))
  }

  /** add_right: element added to the rightmost regular number of n. */
  function AddRight(n: Number, element: Option<Number>): Result<Number>
  {
    match element
    case None => Ok(n)
    case Some(e) =>
      match n
      case Regular(v) => if e.Regular? then Ok(Regular(v + e.value)) else Err(TypeError)
      case Pair(l, r) =>
        var r2 := AddRight(r, element);
        if r2.Err? then Err(r2.error) else Ok(Pair(l, r2.value))
  }

  /** Nothing to add leaves the number as it is; a regular number is added to
   *  the first leaf only, and the shape stays; a pair cannot be added. */
  lemma {:induction false} AddLeftSpec(n: Number, element: Option<Number>, d: nat)
    ensures element == None ==> AddLeft(n, element) == Ok(n)
    ensures element.Some? && element.value.Pair? ==> AddLeft(n, element) == Err(TypeError)
    ensures element.Some? && element.value.Regular? ==>
      AddLeft(n, element).Ok? &&
      Flat(AddLeft(n, element).value, d) == BumpFirst(Flat(n, d), element.value.value) &&
      Height(AddLeft(n, element).value) == Height(n)
  {
    match element
    case None =>
    case Some(e) =>
      match n
      case Regular(_) =>
      case Pair(l, r) =>
        AddLeftSpec(l, element, d + 1);
        if e.Regular? {
          BumpFirstConcat(Flat(l, d + 1), Flat(r, d + 1), e.value);
        }
  }

  /** The mirror image of AddLeftSpec: only the last leaf changes. */
  lemma {:induction false} AddRightSpec(n: Number, element: Option<Number>, d: nat)
    ensures element == None ==> AddRight(n, element) == Ok(n)
    ensures element.Some? && element.value.Pair? ==> AddRight(n, element) == Err(TypeError)
    ensures element.Some? && element.value.Regular? ==>
      AddRight(n, element).Ok? &&
      Flat(AddRight(n, element).value, d) == BumpLast(Flat(n, d), element.value.value) &&
      Height(AddRight(n, element).value) == Height(n)
  {
    match element
    case None =>
    case Some(e) =>
      match n
      case Regular(_) =>
      case Pair(l, r) =>
        AddRightSpec(r, element, d + 1);
        if e.Regular? {
          BumpLastConcat(Flat(l, d + 1), Flat(r, d + 1), e.value);
        }
  }

  // ---------------------------------------------------------------------------
  // explode
  // ---------------------------------------------------------------------------

  /** What explode returns: whether a pair exploded, the value still to be
   *  added on the left of n, the new number, and the value still to be added
   *  on its right. */
  datatype Explosion = Explosion(exploded: bool, left: Option<Number>, number: Number, right: Option<Number>)

  function Explode(n: Number, depth: int): Result<Explosion>
  {
    match n
    case Regular(_) => Ok(Explosion(false, None, n, None))
    case Pair(l, r) =>
      if depth == 4 then Ok(Explosion(true, Some(l), Regular(0), Some(r)))
      else
        var inLeft := Explode(l, depth + 1);
        if inLeft.Err? then Err(inLeft.error)
        else if inLeft.value.exploded then
          var r2 := AddLeft(r, inLeft.value.right);
          if r2.Err? then Err(r2.error)
          else Ok(Explosion(true, inLeft.value.left, Pair(inLeft.value.number, r2.value), None))
        else
          var inRight := Explode(r, depth + 1);
          if inRight.Err? then Err(inRight.error)
          else if inRight.value.exploded then
            var l2 := AddRight(inLeft.value.number, inRight.value.left);
            if l2.Err? then Err(l2.error)
            else Ok(Explosion(true, None, Pair(l2.value, inRight.value.number), inRight.value.right))
          else Ok(Explosion(false, None, n, None))
  }

  /** The leaves after the pair whose leaves are f[i] and f[i + 1] explodes:
   *  its left value goes to the leaf before it, its right value to the leaf
   *  after it, and the pair becomes a 0 four pairs deep. */
  function Burst(f: seq<Leaf>, i: nat): seq<Leaf>
    requires i + 1 < |f|
  {
    Before(f, i) + [Leaf(0, 4)] + After(f, i)
  }

  /** The leaves before f[i], the last one raised by f[i]. */
  function Before(f: seq<Leaf>, i: nat): seq<Leaf>
    requires i < |f|
  {
    if i == 0 then [] else BumpLast(f[..i], f[i].value)
  }

  /** The leaves after f[i + 1], the first one raised by f[i + 1]. */
  function After(f: seq<Leaf>, i: nat): seq<Leaf>
    requires i + 1 < |f|
  {
    if i + 2 == |f| then [] else BumpFirst(f[i + 2..], f[i + 1].value)
  }

  lemma BeforeConcatLeft(a: seq<Leaf>, b: seq<Leaf>, i: nat)
    requires i < |a|
    ensures Before(a + b, i) == Before(a, i)
  {
    assert (a + b)[..i] == a[..i];
  }

  lemma AfterConcatLeft(a: seq<Leaf>, b: seq<Leaf>, i: nat)
    requires i + 1 < |a| && b != []
    ensures After(a + b, i) == if i + 2 == |a| then BumpFirst(b, a[i + 1].value) else After(a, i) + b
  {
    assert (a + b)[i + 2..] == a[i + 2..] + b;
    if i + 2 < |a| {
      BumpFirstConcat(a[i + 2..], b, a[i + 1].value);
    }
  }

  lemma BeforeConcatRight(a: seq<Leaf>, b: seq<Leaf>, i: nat)
    requires a != [] && i < |b|
    ensures Before(a + b, |a| + i) == if i == 0 then BumpLast(a, b[0].value) else a + Before(b, i)
  {
    if i == 0 {
      assert (a + b)[..|a|] == a;
    } else {
      assert (a + b)[..|a| + i] == a + b[..i];
      BumpLastConcat(a, b[..i], b[i].value);
    }
  }

  lemma AfterConcatRight(a: seq<Leaf>, b: seq<Leaf>, i: nat)
    requires i + 1 < |b|
    ensures After(a + b, |a| + i) == After(b, i)
  {
    assert (a + b)[|a| + i + 2..] == b[i + 2..];
  }

  /** With no leaf five pairs deep, nothing explodes and n comes back as it was. */
  lemma {:induction false} ExplodeCalm(n: Number, d: nat)
    ensures First(Flat(n, d), Deep) == |Flat(n, d)| ==> Explode(n, d) == Ok(Explosion(false, None, n, None))
  {
    match n
    case Regular(_) =>
    case Pair(l, r) =>
      var fl, fr := Flat(l, d + 1), Flat(r, d + 1);
      FirstConcat(fl, fr, Deep);
      if d == 4 {
        FlatDepths(l, d + 1);
        assert Deep(fl[0]);
      } else {
        ExplodeCalm(l, d + 1);
        ExplodeCalm(r, d + 1);
      }
  }

  lemma Regroup(x: seq<Leaf>, y: seq<Leaf>, u: seq<Leaf>, v: seq<Leaf>)
    ensures x + y + u + v == x + y + (u + v)
    ensures x + (u + y + v) == (x + u) + y + v
  {
  }

  lemma JoinAtEdge(x: seq<Leaf>, y: seq<Leaf>, u: seq<Leaf>, v: seq<Leaf>)
    requires u == []
    ensures x + y + u + v == x + y + v
    ensures x + (u + y + v) == x + y + v
  {
  }

  /** The leaves of a pair that exploded in its left part: the right value,
   *  unless the left part held a leaf after the pair, raises the first leaf
   *  of the right part. */
  lemma BurstJoinLeft(a: seq<Leaf>, b: seq<Leaf>, i: nat, left: seq<Leaf>, right: seq<Leaf>)
    requires i + 1 < |a| && b != []
    requires left == Burst(a, i)
    requires right == if i + 2 == |a| then BumpFirst(b, a[i + 1].value) else b
    ensures left + right == Burst(a + b, i)
  {
    BeforeConcatLeft(a, b, i);
    AfterConcatLeft(a, b, i);
    if i + 2 == |a| {
      JoinAtEdge(Before(a, i), [Leaf(0, 4)], After(a, i), right);
    } else {
      Regroup(Before(a, i), [Leaf(0, 4)], After(a, i), right);
    }
  }

  /** The leaves of a pair that exploded in its right part: the left value,
   *  unless the right part held a leaf before the pair, raises the last leaf
   *  of the left part. */
  lemma BurstJoinRight(a: seq<Leaf>, b: seq<Leaf>, i: nat, left: seq<Leaf>, right: seq<Leaf>)
    requires a != [] && i + 1 < |b|
    requires left == if i == 0 then BumpLast(a, b[0].value) else a
    requires right == Burst(b, i)
    ensures left + right == Burst(a + b, |a| + i)
  {
    BeforeConcatRight(a, b, i);
    AfterConcatRight(a, b, i);
    if i == 0 {
      JoinAtEdge(left, [Leaf(0, 4)], Before(b, i), After(b, i));
    } else {
      Regroup(left, [Leaf(0, 4)], Before(b, i), After(b, i));
    }
  }


  /** g is what exploding the pair at f[i], f[i + 1] leaves of the leaves f
   *  (as Burst says), left the value handed back to the left (none when a
   *  leaf lies to the left of the pair) and right the one handed back to the
   *  right. */
  predicate BurstsAt(f: seq<Leaf>, i: nat, left: Option<Number>, right: Option<Number>, g: seq<Leaf>)
  {
    i + 1 < |f| &&
    left == (if i == 0 then Some(Regular(f[i].value)) else None) &&
    right == (if i + 2 == |f| then Some(Regular(f[i + 1].value)) else None) &&
    g == Burst(f, i)
  }

  /** e is what exploding the pair at f[i], f[i + 1] of n (whose leaves, d
   *  pairs deep, are f) yields, and the number it leaves is no deeper. */
  predicate Bursts(n: Number, d: nat, f: seq<Leaf>, i: nat, e: Explosion)
  {
    e.exploded && BurstsAt(f, i, e.left, e.right, Flat(e.number, d)) && Height(e.number) <= Height(n)
  }

  /** The leaves of a pair that exploded in its left part a: the value handed
   *  to the right raises the first leaf of the right part b. */
  lemma BurstsAtLeft(a: seq<Leaf>, b: seq<Leaf>, f: seq<Leaf>, i: nat,
                     left: Option<Number>, right: Option<Number>, g: seq<Leaf>, b2: seq<Leaf>)
    requires f == a + b && b != [] && BurstsAt(a, i, left, right, g)
    requires right == None ==> b2 == b
    requires right.Some? && right.value.Regular? ==> b2 == BumpFirst(b, right.value.value)
    ensures BurstsAt(f, i, left, None, g + b2)
  {
    LeftEnds(a, b, f, i);
    BurstJoinLeft(a, b, i, g, b2);
  }

  /** The leaves of a pair that exploded in its right part b: the value
   *  handed to the left raises the last leaf of the left part a. */
  lemma BurstsAtRight(a: seq<Leaf>, b: seq<Leaf>, f: seq<Leaf>, j: nat, k: nat,
                      left: Option<Number>, right: Option<Number>, g: seq<Leaf>, a2: seq<Leaf>)
    requires f == a + b && a != [] && j == |a| + k && BurstsAt(b, k, left, right, g)
    requires left == None ==> a2 == a
    requires left.Some? && left.value.Regular? ==> a2 == BumpLast(a, left.value.value)
    ensures BurstsAt(f, j, None, right, a2 + g)
  {
    RightEnds(a, b, f, k);
    BurstJoinRight(a, b, k, a2, g);
  }

  /** explode on a pair whose left part exploded. */
  lemma ExplodeLeftStep(n: Number, d: nat, x: Explosion)
    requires n.Pair? && d < 4 && Explode(n.left, d + 1) == Ok(x) && x.exploded
    requires AddLeft(n.right, x.right).Ok?
    ensures Explode(n, d) == Ok(Explosion(true, x.left, Pair(x.number, AddLeft(n.right, x.right).value), None))
  {
  }

  /** explode on a pair whose right part exploded and left part did not. */
  lemma ExplodeRightStep(n: Number, d: nat, y: Explosion)
    requires n.Pair? && d < 4 && Explode(n.left, d + 1) == Ok(Explosion(false, None, n.left, None))
    requires Explode(n.right, d + 1) == Ok(y) && y.exploded
    requires AddRight(n.left, y.left).Ok?
    ensures Explode(n, d) == Ok(Explosion(true, None, Pair(AddRight(n.left, y.left).value, y.number), y.right))
  {
  }

  /** A pair explodes in its left part: the right value goes to the right part. */
  lemma BurstsInLeft(n: Number, d: nat, f: seq<Leaf>, i: nat, fl: seq<Leaf>, x: Explosion) returns (e: Explosion)
    requires n.Pair? && d < 4 && f == Flat(n, d) && fl == Flat(n.left, d + 1)
    requires Explode(n.left, d + 1) == Ok(x) && Bursts(n.left, d + 1, fl, i, x)
    ensures Explode(n, d) == Ok(e) && Bursts(n, d, f, i, e)
  {
    var l, r := n.left, n.right;
    var fr := Flat(r, d + 1);
    AddLeftSpec(r, x.right, d + 1);
    var r2 := AddLeft(r, x.right).value;
    e := Explosion(true, x.left, Pair(x.number, r2), None);
    ExplodeLeftStep(n, d, x);
    assert f == fl + fr;
    BurstsAtLeft(fl, fr, f, i, x.left, x.right, Flat(x.number, d + 1), Flat(r2, d + 1));
  }

  /** Where the leaves f[i], f[i + 1] of a concatenation lie in its left part. */
  lemma LeftEnds(a: seq<Leaf>, b: seq<Leaf>, f: seq<Leaf>, i: nat)
    requires f == a + b && i + 1 < |a| && b != []
    ensures i + 2 < |f| && f[i] == a[i] && f[i + 1] == a[i + 1]
  {
  }

  /** A pair explodes in its right part: the left value goes to the left part. */
  lemma BurstsInRight(n: Number, d: nat, f: seq<Leaf>, i: nat, fl: seq<Leaf>, fr: seq<Leaf>, k: nat, y: Explosion)
    returns (e: Explosion)
    requires n.Pair? && d < 4 && f == Flat(n, d) && fl == Flat(n.left, d + 1) && fr == Flat(n.right, d + 1)
    requires i == |fl| + k
    requires Explode(n.left, d + 1) == Ok(Explosion(false, None, n.left, None))
    requires Explode(n.right, d + 1) == Ok(y) && Bursts(n.right, d + 1, fr, k, y)
    ensures Explode(n, d) == Ok(e) && Bursts(n, d, f, i, e)
  {
    var l, r := n.left, n.right;
    AddRightSpec(l, y.left, d + 1);
    var l2 := AddRight(l, y.left).value;
    e := Explosion(true, None, Pair(l2, y.number), y.right);
    ExplodeRightStep(n, d, y);
    assert f == fl + fr;
    BurstsAtRight(fl, fr, f, i, k, y.left, y.right, Flat(y.number, d + 1), Flat(l2, d + 1));
  }

  /** Where the leaves f[|a| + k], f[|a| + k + 1] of a concatenation lie in
   *  its right part. */
  lemma RightEnds(a: seq<Leaf>, b: seq<Leaf>, f: seq<Leaf>, k: nat)
    requires f == a + b && a != [] && k + 1 < |b|
    ensures var j := |a| + k;
      0 < j && j + 1 < |f| && f[j] == b[k] && f[j + 1] == b[k + 1] && (j + 2 == |f| <==> k + 2 == |b|)
  {
  }

  /** A pair of two regular numbers four pairs deep explodes into a 0 and
   *  hands both values back. */
  lemma ExplodeInnermost(n: Number, f: seq<Leaf>) returns (e: Explosion)
    requires n.Pair? && n.left.Regular? && n.right.Regular? && f == Flat(n, 4)
    ensures Explode(n, 4) == Ok(e) && Bursts(n, 4, f, 0, e)
  {
    var a, b := n.left.value, n.right.value;
    e := Explosion(true, Some(Regular(a)), Regular(0), Some(Regular(b)));
    assert f == [Leaf(a, 5), Leaf(b, 5)];
    assert Before(f, 0) == [] && After(f, 0) == [];
  }

  /** In a number that reaches no deeper than five pairs, the leftmost leaf
   *  five pairs deep and the leaf after it form the leftmost pair four deep:
   *  that pair explodes as Burst says; its left value comes back when no
   *  leaf of n lies to its left, and its right value when none lies to its
   *  right. */
  lemma {:induction false} ExplodeBurst(n: Number, d: nat, f: seq<Leaf>, i: nat) returns (e: Explosion)
    requires d <= 4 && d + Height(n) <= 5
    requires f == Flat(n, d) && i == First(f, Deep) && i < |f|
    ensures Explode(n, d) == Ok(e) && Bursts(n, d, f, i, e)
  {
    match n
    case Regular(_) =>
      assert false;
    case Pair(l, r) =>
      if d == 4 {
        FirstConcat(Flat(l, d + 1), Flat(r, d + 1), Deep);
        e := ExplodeInnermost(n, f);
      } else {
        var fl, fr := Flat(l, d + 1), Flat(r, d + 1);
        var il, ir := First(fl, Deep), First(fr, Deep);
        FirstConcat(fl, fr, Deep);
        if il < |fl| {
          var x := ExplodeBurst(l, d + 1, fl, il);
          e := BurstsInLeft(n, d, f, i, fl, x);
        } else {
          ExplodeCalm(l, d + 1);
          var y := ExplodeBurst(r, d + 1, fr, ir);
          e := BurstsInRight(n, d, f, i, fl, fr, ir, y);
        }
      }
  }

  /** A number that explode leaves alone holds no pair four deep, and comes
   *  back unchanged. */
  lemma {:induction false} ExplodeQuiet(n: Number, d: nat)
    requires d <= 4
    ensures Explode(n, d).Ok? && !Explode(n, d).value.exploded ==>
      d + Height(n) <= 4 && Explode(n, d).value == Explosion(false, None, n, None)
  {
    match n
    case Regular(_) =>
    case Pair(l, r) =>
      if d < 4 {
        ExplodeQuiet(l, d + 1);
        ExplodeQuiet(r, d + 1);
      }
  }

  /** explode on a number whose pairs are nested at most five deep never
   *  fails, fires exactly when a pair is nested four deep, and does not make
   *  the number deeper. */
  lemma ExplodeFires(n: Number)
    requires Height(n) <= 5
    ensures Explode(n, 0).Ok?
    ensures Explode(n, 0).value.exploded <==> Height(n) == 5
    ensures Height(Explode(n, 0).value.number) <= Height(n)
  {
    var f := Flat(n, 0);
    DeepIffHeight(n, 0);
    ExplodeCalm(n, 0);
    if First(f, Deep) < |f| {
      var e := ExplodeBurst(n, 0, f, First(f, Deep));
    }
  }

  // ---------------------------------------------------------------------------
  // split
  // ---------------------------------------------------------------------------

  /** split: the leftmost regular number of 10 or more becomes the pair of its
   *  halves rounded down and up; `math.ceil(v / 2)` is (v + 1) / 2. */
  function Split(n: Number): (bool, Number)
  {
    match n
    case Regular(v) =>
      if v >= 10 then (true, Pair(Regular(v / 2), Regular((v + 1) / 2))) else (false, n)
    case Pair(l, r) =>
      var (changed, l2) := Split(l);
      if changed then (true, Pair(l2, r))
      else
        var (changed2, r2) := Split(r);
        (changed2, Pair(l2, r2))
  }

  /** The leaves after f[i] splits into two leaves one pair deeper. */
  function Halve(f: seq<Leaf>, i: nat): seq<Leaf>
    requires i < |f|
  {
    f[..i] + [Leaf(f[i].value / 2, f[i].depth + 1), Leaf((f[i].value + 1) / 2, f[i].depth + 1)] + f[i + 1..]
  }

  /** With no regular number of 10 or more, split changes nothing. */
  lemma {:induction false} SplitCalm(n: Number, d: nat)
    ensures First(Flat(n, d), Big) == |Flat(n, d)| ==> Split(n) == (false, n)
  {
    match n
    case Regular(_) =>
    case Pair(l, r) =>
      FirstConcat(Flat(l, d + 1), Flat(r, d + 1), Big);
      SplitCalm(l, d + 1);
      SplitCalm(r, d + 1);
  }

  /** split changes n by halving its leaf f[i]. */
  predicate Splits(n: Number, d: nat, f: seq<Leaf>, i: nat)
    requires i < |f|
  {
    Split(n).0 && Flat(Split(n).1, d) == Halve(f, i)
  }

  lemma HalveConcatLeft(a: seq<Leaf>, b: seq<Leaf>, i: nat)
    requires i < |a|
    ensures Halve(a + b, i) == Halve(a, i) + b
  {
    assert (a + b)[..i] == a[..i];
    assert (a + b)[i + 1..] == a[i + 1..] + b;
  }

  lemma HalveConcatRight(a: seq<Leaf>, b: seq<Leaf>, i: nat)
    requires i < |b|
    ensures Halve(a + b, |a| + i) == a + Halve(b, i)
  {
    assert (a + b)[..|a| + i] == a + b[..i];
    assert (a + b)[|a| + i + 1..] == b[i + 1..];
  }

  lemma SplitsInLeft(l: Number, r: Number, d: nat, i: nat)
    requires i < |Flat(l, d + 1)|
    requires Splits(l, d + 1, Flat(l, d + 1), i)
    ensures Splits(Pair(l, r), d, Flat(Pair(l, r), d), i)
  {
    var l2 := Split(l).1;
    assert Split(Pair(l, r)) == (true, Pair(l2, r));
    assert Flat(Pair(l2, r), d) == Flat(l2, d + 1) + Flat(r, d + 1);
    HalveConcatLeft(Flat(l, d + 1), Flat(r, d + 1), i);
  }

  lemma SplitsInRight(l: Number, r: Number, d: nat, i: nat)
    requires i < |Flat(r, d + 1)|
    requires Split(l) == (false, l)
    requires Splits(r, d + 1, Flat(r, d + 1), i)
    ensures Splits(Pair(l, r), d, Flat(Pair(l, r), d), |Flat(l, d + 1)| + i)
  {
    var r2 := Split(r).1;
    assert Split(Pair(l, r)) == (true, Pair(l, r2));
    assert Flat(Pair(l, r2), d) == Flat(l, d + 1) + Flat(r2, d + 1);
    HalveConcatRight(Flat(l, d + 1), Flat(r, d + 1), i);
  }

  /** split acts on the leftmost regular number of 10 or more and on no other:
   *  its halves add up to it and differ by at most one. */
  lemma {:induction false} SplitBurst(n: Number, d: nat, f: seq<Leaf>, i: nat)
    requires f == Flat(n, d) && i == First(f, Big)
    ensures i < |f| ==>
      Splits(n, d, f, i) &&
      f[i].value / 2 + (f[i].value + 1) / 2 == f[i].value &&
      0 <= (f[i].value + 1) / 2 - f[i].value / 2 <= 1
  {
    match n
    case Regular(_) =>
    case Pair(l, r) =>
      var fl, fr := Flat(l, d + 1), Flat(r, d + 1);
      var il, ir := First(fl, Big), First(fr, Big);
      FirstConcat(fl, fr, Big);
      SplitBurst(l, d + 1, fl, il);
      if il < |fl| {
        SplitsInLeft(l, r, d, il);
      } else {
        SplitCalm(l, d + 1);
        SplitBurst(r, d + 1, fr, ir);
        if ir < |fr| {
          SplitsInRight(l, r, d, ir);
          assert f[|fl| + ir] == fr[ir];
        }
      }
  }

  /** A split makes the number at most one pair deeper. */
  lemma {:induction false} SplitHeight(n: Number)
    ensures Height(Split(n).1) <= Height(n) + 1
  {
    match n
    case Regular(_) =>
    case Pair(l, r) =>
      SplitHeight(l);
      SplitHeight(r);
  }

  /** The sum of the regular numbers of n. */
  function Total(n: Number): int
  {
    match n
    case Regular(v) => v
    case Pair(l, r) => Total(l) + Total(r)
  }

  /** Splitting keeps the sum of the regular numbers. */
  lemma {:induction false} SplitKeepsTotal(n: Number)
    ensures Total(Split(n).1) == Total(n)
  {
    match n
    case Regular(_) =>
    case Pair(l, r) =>
      SplitKeepsTotal(l);
      SplitKeepsTotal(r);
  }

  // ---------------------------------------------------------------------------
  // add: the reduction loop
  // ---------------------------------------------------------------------------

  /** A reduced number: no pair nested four deep and no regular number of 10
   *  or more. */
  predicate Reduced(n: Number)
  {
    Height(n) <= 4 && forall k :: 0 <= k < |Flat(n, 0)| ==> Flat(n, 0)[k].value < 10
  }

  /** The loop of add run for at most fuel rounds: explode while a pair
   *  explodes, otherwise split, and stop at the first round where neither
   *  changes the number; None when the rounds run out first. */
  function Reduce(n: Number, fuel: nat): Option<Result<Number>>
    decreases fuel
  {
    if fuel == 0 then None
    else
      var e := Explode(n, 0);
      if e.Err? then Some(Err(e.error))
      else if e.value.exploded then Reduce(e.value.number, fuel - 1)
      else
        var (changed, m) := Split(e.value.number);
        if changed then Reduce(m, fuel - 1) else Some(Ok(m))
  }

  /** add: the pair of the two numbers, reduced. */
  method Add(a: Number, b: Number, fuel: nat) returns (r: Option<Result<Number>>)
    ensures r == Reduce(Pair(a, b), fuel)
  {
    var result := Pair(a, b);
    var rounds := fuel;
    while rounds > 0
      invariant Reduce(result, rounds) == Reduce(Pair(a, b), fuel)
      decreases rounds
    {
      var e := Explode(result, 0);
      if e.Err? {
        return Some(Err(e.error));
      }
      if e.value.exploded {
        result := e.value.number;
      } else {
        var (changed, m) := Split(e.value.number);
        if !changed {
          return Some(Ok(m));
        }
        result := m;
      }
      rounds := rounds - 1;
    }
    return None;
  }

  /** One round of the loop on a number nested at most five deep: it explodes
   *  exactly when a pair is nested four deep, and splits only otherwise. */
  lemma ReduceRound(n: Number, fuel: nat)
    requires Height(n) <= 5 && fuel > 0
    ensures Explode(n, 0).Ok?
    ensures Height(n) == 5 ==> Reduce(n, fuel) == Reduce(Explode(n, 0).value.number, fuel - 1)
    ensures Height(n) < 5 ==>
      Reduce(n, fuel) == if Split(n).0 then Reduce(Split(n).1, fuel - 1) else Some(Ok(n))
  {
    ExplodeFires(n);
    ExplodeQuiet(n, 0);
    var f := Flat(n, 0);
    SplitBurst(n, 0, f, First(f, Big));
    SplitCalm(n, 0);
  }

  /** Whatever the loop returns is reduced. */
  lemma {:induction false} ReduceReduces(n: Number, fuel: nat)
    ensures Reduce(n, fuel).Some? && Reduce(n, fuel).value.Ok? ==> Reduced(Reduce(n, fuel).value.value)
    decreases fuel
  {
    if fuel > 0 {
      var e := Explode(n, 0);
      ExplodeQuiet(n, 0);
      if e.Ok? && e.value.exploded {
        ReduceReduces(e.value.number, fuel - 1);
      } else if e.Ok? {
        var (changed, m) := Split(e.value.number);
        if changed {
          ReduceReduces(m, fuel - 1);
        } else {
          var f := Flat(n, 0);
          SplitBurst(n, 0, f, First(f, Big));
          SplitCalm(n, 0);
          FirstIsFirst(f, Big);
        }
      }
    }
  }

  /** Starting from a number nested at most five deep, the loop never raises:
   *  every exploding pair holds two regular numbers. */
  lemma {:induction false} ReduceNeverFails(n: Number, fuel: nat)
    requires Height(n) <= 5
    ensures Reduce(n, fuel).Some? ==> Reduce(n, fuel).value.Ok?
    decreases fuel
  {
    if fuel > 0 {
      ExplodeFires(n);
      ExplodeQuiet(n, 0);
      var e := Explode(n, 0).value;
      if e.exploded {
        ReduceNeverFails(e.number, fuel - 1);
      } else {
        SplitHeight(n);
        ReduceNeverFails(Split(n).1, fuel - 1);
      }
    }
  }

  /** More rounds never change an answer already reached. */
  lemma {:induction false} ReduceMoreFuel(n: Number, fuel: nat, more: nat)
    requires fuel <= more
    ensures Reduce(n, fuel).Some? ==> Reduce(n, more) == Reduce(n, fuel)
    decreases fuel
  {
    if fuel > 0 {
      var e := Explode(n, 0);
      if e.Ok? && e.value.exploded {
        ReduceMoreFuel(e.value.number, fuel - 1, more - 1);
      } else if e.Ok? {
        var (changed, m) := Split(e.value.number);
        if changed {
          ReduceMoreFuel(m, fuel - 1, more - 1);
        }
      }
    }
  }

  /** The sum of two snailfish numbers (each nested at most four deep) is,
   *  once the loop ends, a reduced snailfish number, never an error. */
  lemma AddReduces(a: Number, b: Number, fuel: nat)
    requires Height(a) <= 4 && Height(b) <= 4
    ensures Reduce(Pair(a, b), fuel).Some? ==>
      Reduce(Pair(a, b), fuel).value.Ok? && Reduced(Reduce(Pair(a, b), fuel).value.value)
  {
    ReduceNeverFails(Pair(a, b), fuel);
    ReduceReduces(Pair(a, b), fuel);
  }

  // ---------------------------------------------------------------------------
  // magnitude
  // ---------------------------------------------------------------------------

  function Magnitude(n: Number): int
  {
    match n
    case Regular(v) => v
    case Pair(l, r) => 3 * Magnitude(l) + 2 * Magnitude(r)
  }

  /** Each regular number with its weight in the magnitude: 3 for every pair
   *  it is the left part of, 2 for every pair it is the right part of. */
  function Weighted(n: Number): seq<(int, int)>
  {
    match n
    case Regular(v) => [(v, 1)]
    case Pair(l, r) => Scale(Weighted(l), 3) + Scale(Weighted(r), 2)
  }

  function Scale(s: seq<(int, int)>, k: int): (t: seq<(int, int)>)
    ensures |t| == |s|
  {
    if s == [] then [] else [(s[0].0, s[0].1 * k)] + Scale(s[1..], k)
  }

  function Dot(s: seq<(int, int)>): int
  {
    if s == [] then 0 else s[0].0 * s[0].1 + Dot(s[1..])
  }

  lemma {:induction false} DotConcat(s: seq<(int, int)>, t: seq<(int, int)>)
    ensures Dot(s + t) == Dot(s) + Dot(t)
  {
    if s != [] {
      assert (s + t)[0] == s[0];
      assert (s + t)[1..] == s[1..] + t;
      DotConcat(s[1..], t);
      assert Dot(s + t) == s[0].0 * s[0].1 + Dot(s[1..] + t);
    } else {
      assert s + t == t;
    }
  }

  lemma {:induction false} DotScale(s: seq<(int, int)>, k: int)
    ensures Dot(Scale(s, k)) == k * Dot(s)
  {
    if s != [] {
      DotScale(s[1..], k);
      assert s[0].0 * (s[0].1 * k) == k * (s[0].0 * s[0].1);
    }
  }

  /** The magnitude is the sum of the regular numbers, each times its weight. */
  lemma {:induction false} MagnitudeWeighs(n: Number)
    ensures Magnitude(n) == Dot(Weighted(n))
  {
    match n
    case Regular(_) =>
    case Pair(l, r) =>
      MagnitudeWeighs(l);
      MagnitudeWeighs(r);
      DotConcat(Scale(Weighted(l), 3), Scale(Weighted(r), 2));
      DotScale(Weighted(l), 3);
      DotScale(Weighted(r), 2);
  }

  // ---------------------------------------------------------------------------
  // The documented examples
  // ---------------------------------------------------------------------------

  function P(l: Number, r: Number): Number { Pair(l, r) }
  function R(v: int): Number { Regular(v) }

  lemma AddLeftExamples()
    ensures AddLeft(P(R(1), R(7)), Some(R(8))) == Ok(P(R(9), R(7)))
    ensures AddLeft(P(P(R(1), R(7)), P(R(9), R(6))), Some(R(8))) == Ok(P(P(R(9), R(7)), P(R(9), R(6))))
    ensures AddLeft(P(R(9), R(7)), Some(R(8))) == Ok(P(R(17), R(7)))
    ensures AddLeft(P(R(9), R(7)), None) == Ok(P(R(9), R(7)))
  {
  }

  lemma AddRightExamples()
    ensures AddRight(P(R(1), R(7)), Some(R(8))) == Ok(P(R(1), R(15)))
    ensures AddRight(P(P(R(1), R(7)), P(R(9), R(6))), Some(R(8))) == Ok(P(P(R(1), R(7)), P(R(9), R(14))))
    ensures AddRight(P(R(9), R(7)), Some(R(8))) == Ok(P(R(9), R(15)))
    ensures AddRight(P(R(9), R(7)), None) == Ok(P(R(9), R(7)))
  {
  }

  lemma ExplodeExamples()
    ensures Explode(P(P(R(1), R(7)), P(R(3), R(5))), 0)
         == Ok(Explosion(false, None, P(P(R(1), R(7)), P(R(3), R(5))), None))
    ensures Explode(P(P(R(6), P(R(5), P(R(4), P(R(3), R(2))))), R(1)), 0)
         == Ok(Explosion(true, None, P(P(R(6), P(R(5), P(R(7), R(0)))), R(3)), None))
    ensures Explode(P(P(R(3), P(R(2), P(R(8), R(0)))), P(R(9), P(R(5), P(R(4), P(R(3), R(2)))))), 0)
         == Ok(Explosion(true, None, P(P(R(3), P(R(2), P(R(8), R(0)))), P(R(9), P(R(5), P(R(7), R(0))))), Some(R(2))))
  {
  }

  lemma SplitExamples()
    ensures Split(P(P(R(1), R(7)), P(R(3), R(5)))) == (false, P(P(R(1), R(7)), P(R(3), R(5))))
    ensures Split(P(P(P(P(R(0), R(7)), R(4)), P(R(15), P(R(0), R(13)))), P(R(1), R(1))))
         == (true, P(P(P(P(R(0), R(7)), R(4)), P(P(R(7), R(8)), P(R(0), R(13)))), P(R(1), R(1))))
    ensures Split(P(P(P(P(R(0), R(7)), R(4)), P(P(R(7), R(8)), P(R(0), R(13)))), P(R(1), R(1))))
         == (true, P(P(P(P(R(0), R(7)), R(4)), P(P(R(7), R(8)), P(R(0), P(R(6), R(7))))), P(R(1), R(1))))
  {
  }

  lemma AddExamples()
    ensures Reduce(P(P(R(1), R(1)), P(R(2), R(2))), 1) == Some(Ok(P(P(R(1), R(1)), P(R(2), R(2)))))
    ensures Reduce(P(P(P(P(P(R(1), R(1)), P(R(2), R(2))), P(R(3), R(3))), P(R(4), R(4))), P(R(5), R(5))), 3)
         == Some(Ok(P(P(P(P(R(3), R(0)), P(R(5), R(3))), P(R(4), R(4))), P(R(5), R(5)))))
  {
  }

  lemma MagnitudeExamples()
    ensures Magnitude(P(P(R(1), R(1)), P(R(2), R(2)))) == 35
    ensures Magnitude(P(P(P(P(R(0), R(7)), R(4)), P(P(R(7), R(8)), P(R(6), R(0)))), P(R(8), R(1)))) == 1384
  {
  }
}
