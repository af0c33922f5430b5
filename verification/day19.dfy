/**
 * Day 19: beacon scanners. Positions are three-vectors; a scanner does not
 * know how it is turned, so its beacons are tried in each of 24 orientations
 * against a scanner already placed, and it is placed at the first offset that
 * lines up twelve beacon pairs.
 */
module Day19Scanner {
  import opened Common

  datatype Vector = Vector(x: int, y: int, z: int)

  /** The tuple index `v[i]`. */
  function Coord(v: Vector, i: nat): int
    requires i < 3
  {
    if i == 0 then v.x else if i == 1 then v.y else v.z
  }

  // ---------------------------------------------------------------------------
  // Vector arithmetic and the Manhattan distance
  // ---------------------------------------------------------------------------

  function Sub(a: Vector, b: Vector): Vector
  {
    Vector(a.x - b.x, a.y - b.y, a.z - b.z)
  }

  function Add(a: Vector, b: Vector): Vector
  {
    Vector(a.x + b.x, a.y + b.y, a.z + b.z)
  }

  /** Subtracting and adding the same vector are inverse to each other. */
  lemma AddSub(a: Vector, b: Vector)
    ensures Add(Sub(a, b), b) == a
    ensures Sub(Add(a, b), b) == a
    ensures Sub(a, b) == Vector(0, 0, 0) <==> a == b
  {
  }

  lemma VectorExamples()
    ensures Sub(Vector(1, 4, 6), Vector(1, 3, 7)) == Vector(0, 1, -1)
    ensures Add(Vector(1, 4, 6), Vector(1, 3, 7)) == Vector(2, 7, 13)
  {
  }

  function Manhattan(a: Vector, b: Vector): nat
  {
    var d := Sub(a, b);
    Abs(d.x) + Abs(d.y) + Abs(d.z)
  }

  /** The Manhattan distance is a metric that moving both points does not change. */
  lemma ManhattanMetric(a: Vector, b: Vector, c: Vector, t: Vector)
    ensures Manhattan(a, b) == Manhattan(b, a)
    ensures Manhattan(a, b) == 0 <==> a == b
    ensures Manhattan(a, c) <= Manhattan(a, b) + Manhattan(b, c)
    ensures Manhattan(Add(a, t), Add(b, t)) == Manhattan(a, b)
  {
  }

  lemma ManhattanExample()
    ensures Manhattan(Vector(1105, -1205, 1229), Vector(-92, -2380, -20)) == 3621
  {
  }

  // ---------------------------------------------------------------------------
  // The 24 orientations
  // ---------------------------------------------------------------------------

  /**
   * One way a scanner may be turned: axis i of the result reads coordinate
   * perm[i] of the scanned position, negated when i is in flips.
   */
  datatype Orientation = Orientation(perm: seq<nat>, flips: seq<nat>)

  predicate ValidOrientation(o: Orientation)
  {
    |o.perm| == 3 && (forall i :: 0 <= i < 3 ==> o.perm[i] < 3) &&
    o.perm[0] != o.perm[1] && o.perm[0] != o.perm[2] && o.perm[1] != o.perm[2]
  }

  function Turn(o: Orientation, pt: Vector): Vector
    requires ValidOrientation(o)
  {
    Vector(Signed(Coord(pt, o.perm[0]), 0 in o.flips),
           Signed(Coord(pt, o.perm[1]), 1 in o.flips),
           Signed(Coord(pt, o.perm[2]), 2 in o.flips))
  }

  /** `v * (-1 if negate else 1)`. */
  function Signed(v: int, negate: bool): int
  {
    if negate then -v else v
  }

  /** Every beacon of a scan, turned the same way. */
  function TurnAll(o: Orientation, pts: seq<Vector>): (r: seq<Vector>)
    requires ValidOrientation(o)
    ensures |r| == |pts|
  {
    seq(|pts|, j requires 0 <= j < |pts| => Turn(o, pts[j]))
  }

  /** `itertools.permutations([0, 1, 2])`, in the order it yields them. */
  const Permutations: seq<seq<nat>> := [[0, 1, 2], [0, 2, 1], [1, 0, 2], [1, 2, 0], [2, 0, 1], [2, 1, 0]]

  /** A permutation of the three axes. */
  predicate IsPermutation(p: seq<nat>)
  {
    ValidOrientation(Orientation(p, []))
  }

  lemma PermutationsArePermutations(n: nat)
    requires n < 6
    ensures IsPermutation(Permutations[n])
  {
  }

  /** `[i for i in p if i != p[i]]`: the values a permutation of three axes moves. */
  function Displaced(p: seq<nat>): (r: seq<nat>)
    requires IsPermutation(p)
  {
    (if p[0] != p[p[0]] then [p[0]] else []) +
    (if p[1] != p[p[1]] then [p[1]] else []) +
    (if p[2] != p[p[2]] then [p[2]] else [])
  }

  /** The axes to negate with a permutation: an odd number of them exactly when two values are displaced. */
  function FlipSets(p: seq<nat>): (r: seq<seq<nat>>)
    requires IsPermutation(p)
    ensures |r| == 4
  {
    if |Displaced(p)| != 2 then [[], [0, 1], [0, 2], [1, 2]] else [[0], [1], [2], [0, 1, 2]]
  }

  /** The four orientations of one permutation, one per flip set. */
  function Group(p: seq<nat>): (r: seq<Orientation>)
    requires IsPermutation(p)
    ensures |r| == 4 && forall m :: 0 <= m < 4 ==> r[m] == Orientation(p, FlipSets(p)[m]) && ValidOrientation(r[m])
  {
    var ks := FlipSets(p);
    [Orientation(p, ks[0]), Orientation(p, ks[1]), Orientation(p, ks[2]), Orientation(p, ks[3])]
  }

  /** The orientations of the first n permutations, in the order the generator appends them. */
  function OrientationsUpTo(n: nat): (r: seq<Orientation>)
    requires n <= 6
    ensures |r| == 4 * n
    ensures forall t :: 0 <= t < |r| ==> ValidOrientation(r[t])
  {
    if n == 0 then []
    else
      PermutationsArePermutations(n - 1);
      OrientationsUpTo(n - 1) + Group(Permutations[n - 1])
  }

  /** The orientations in the order the generator produces them: four for each of the six permutations. */
  function Orientations(): (r: seq<Orientation>)
    ensures |r| == 24
    ensures forall t :: 0 <= t < 24 ==> ValidOrientation(r[t])
  {
    OrientationsUpTo(|Permutations|)
  }

  /** Orientation t comes from permutation t / 4 with flip set t % 4. */
  lemma {:induction false} OrientationAt(n: nat, t: nat)
    requires n <= 6 && t < 4 * n
    ensures t / 4 < 6 && IsPermutation(Permutations[t / 4])
    ensures OrientationsUpTo(n)[t] == Orientation(Permutations[t / 4], FlipSets(Permutations[t / 4])[t % 4])
  {
    PermutationsArePermutations(n - 1);
    if t < 4 * (n - 1) {
      OrientationAt(n - 1, t);
    } else {
      assert t / 4 == n - 1;
    }
  }

  /** The first orientation leaves a scan as it is. */
  lemma FirstOrientationIsIdentity(v: Vector)
    ensures Turn(Orientations()[0], v) == v
  {
    OrientationAt(6, 0);
  }

  /** Turning distributes over differences, so a turned scan keeps every distance. */
  lemma TurnIsLinear(o: Orientation, a: Vector, b: Vector)
    requires ValidOrientation(o)
    ensures Turn(o, Sub(a, b)) == Sub(Turn(o, a), Turn(o, b))
    ensures Manhattan(Turn(o, a), Turn(o, b)) == Manhattan(a, b)
  {
    assert forall i :: 0 <= i < 3 ==> Coord(Sub(a, b), i) == Coord(a, i) - Coord(b, i);
  }

  /** The number of pairs a permutation of three axes puts out of order. */
  function Inversions(p: seq<nat>): nat
    requires IsPermutation(p)
  {
    (if p[0] > p[1] then 1 else 0) + (if p[0] > p[2] then 1 else 0) + (if p[1] > p[2] then 1 else 0)
  }

  /** Two displaced values are a swap of two axes, which is an odd permutation; none or three are even. */
  lemma DisplacedTwoIffOdd(p: seq<nat>)
    requires IsPermutation(p)
    ensures |Displaced(p)| == 2 <==> Inversions(p) % 2 == 1
  {
  }

  /** A permutation's parity equals the parity of the number of axes negated with it. */
  predicate ParityMatched(o: Orientation)
    requires ValidOrientation(o)
  {
    Inversions(o.perm) % 2 == |o.flips| % 2
  }

  /** Each flip set of a permutation has the permutation's parity. */
  lemma FlipSetParity(p: seq<nat>, m: nat)
    requires IsPermutation(p) && m < 4
    ensures ParityMatched(Orientation(p, FlipSets(p)[m]))
  {
    DisplacedTwoIffOdd(p);
    if |Displaced(p)| != 2 {
      assert |FlipSets(p)[m]| % 2 == 0;
    } else {
      assert |FlipSets(p)[m]| % 2 == 1;
    }
  }

  /**
   * Every orientation is a proper rotation: a permutation that swaps two axes
   * comes with an odd number of negated axes and any other with an even
   * number, so the signed permutation has determinant 1.
   */
  lemma ProperRotations(t: nat)
    requires t < 24
    ensures ParityMatched(Orientations()[t])
  {
    OrientationAt(6, t);
    FlipSetParity(Permutations[t / 4], t % 4);
  }

  /** The innermost loop: every beacon of the scan turned by o, in order. */
  method TurnScan(o: Orientation, beacons: seq<Vector>) returns (l: seq<Vector>)
    requires ValidOrientation(o)
    ensures l == TurnAll(o, beacons)
  {
    l := [];
    for q := 0 to |beacons|
      invariant |l| == q && forall j :: 0 <= j < q ==> l[j] == Turn(o, beacons[j])
    {
      l := l + [Turn(o, beacons[q])];
    }
  }

  /** The loop over the flip sets of one permutation. */
  method GroupPositions(permutation: seq<nat>, beacons: seq<Vector>) returns (ls: seq<seq<Vector>>)
    requires IsPermutation(permutation)
    ensures |ls| == 4 && forall m :: 0 <= m < 4 ==> ls[m] == TurnAll(Group(permutation)[m], beacons)
  {
    var ks := FlipSets(permutation);
    ls := [];
    for m := 0 to 4
      invariant |ls| == m && forall t :: 0 <= t < m ==> ls[t] == TurnAll(Orientation(permutation, ks[t]), beacons)
    {
      var l := TurnScan(Orientation(permutation, ks[m]), beacons);
      ls := ls + [l];
    }
  }

  /** res is the scan turned by each of the first n permutations' orientations. */
  predicate TurnedUpTo(res: seq<seq<Vector>>, n: nat, beacons: seq<Vector>)
    requires n <= 6
  {
    |res| == 4 * n && forall t :: 0 <= t < 4 * n ==> res[t] == TurnAll(OrientationsUpTo(n)[t], beacons)
  }

  /** Appending the turns of permutation n extends the turns of the first n permutations. */
  lemma TurnedNext(before: seq<seq<Vector>>, ls: seq<seq<Vector>>, n: nat, beacons: seq<Vector>)
    requires n < 6 && IsPermutation(Permutations[n]) && TurnedUpTo(before, n, beacons)
    requires |ls| == 4 && forall m :: 0 <= m < 4 ==> ls[m] == TurnAll(Group(Permutations[n])[m], beacons)
    ensures TurnedUpTo(before + ls, n + 1, beacons)
  {
    var res := before + ls;
    var upTo := OrientationsUpTo(n + 1);
    assert upTo == OrientationsUpTo(n) + Group(Permutations[n]);
    forall t | 0 <= t < 4 * (n + 1)
      ensures res[t] == TurnAll(upTo[t], beacons)
    {
      if t >= 4 * n {
        assert upTo[t] == Group(Permutations[n])[t - 4 * n] && res[t] == ls[t - 4 * n];
      } else {
        assert upTo[t] == OrientationsUpTo(n)[t] && res[t] == before[t];
      }
    }
  }

  /**
   * `calculate_potential_beacon_positions`: the scan turned in every
   * orientation, in the order the nested loops append them.
   */
  method PotentialPositions(beacons: seq<Vector>) returns (res: seq<seq<Vector>>)
    ensures |res| == 24
    ensures forall t :: 0 <= t < 24 ==> res[t] == TurnAll(Orientations()[t], beacons)
  {
    res := [];
    for n := 0 to 6
      invariant TurnedUpTo(res, n, beacons)
    {
      var permutation := Permutations[n];
      PermutationsArePermutations(n);
      var ls := GroupPositions(permutation, beacons);
      TurnedNext(res, ls, n, beacons);
      res := res + ls;
    }
  }

  // ---------------------------------------------------------------------------
  // Matching one orientation against a placed scanner
  // ---------------------------------------------------------------------------

  /** One append to `diffs`: the offset that puts candidate beacon j onto known beacon i. */
  datatype Entry = Entry(offset: Vector, i: nat, j: nat)

  /** The entries of known beacon i against the first m candidate beacons, in loop order. */
  function Row(known: seq<Vector>, cand: seq<Vector>, i: nat, m: nat): (r: seq<Entry>)
    requires i < |known| && m <= |cand|
    ensures |r| == m
  {
    if m == 0 then [] else Row(known, cand, i, m - 1) + [Entry(Sub(known[i], cand[m - 1]), i, m - 1)]
  }

  /** The entries of the first n known beacons against all candidate beacons, in loop order. */
  function Grid(known: seq<Vector>, cand: seq<Vector>, n: nat): seq<Entry>
    requires n <= |known|
  {
    if n == 0 then [] else Grid(known, cand, n - 1) + Row(known, cand, n - 1, |cand|)
  }

  /** `diffs[off]` after the entries es: the index pairs with that offset, in order. */
  function Bucket(es: seq<Entry>, off: Vector): seq<(nat, nat)>
  {
    if es == [] then []
    else
      var e := es[|es| - 1];
      Bucket(es[..|es| - 1], off) + (if e.offset == off then [(e.i, e.j)] else [])
  }

  /** The keys of `diffs` in insertion order: each offset where it first appears. */
  function Keys(es: seq<Entry>): seq<Vector>
  {
    if es == [] then []
    else
      var ks := Keys(es[..|es| - 1]);
      if es[|es| - 1].offset in ks then ks else ks + [es[|es| - 1].offset]
  }

  /** The first of the keys whose bucket holds twelve pairs or more. */
  function FirstFull(es: seq<Entry>, keys: seq<Vector>): Option<Vector>
  {
    if keys == [] then None
    else if |Bucket(es, keys[0])| >= 12 then Some(keys[0])
    else FirstFull(es, keys[1..])
  }

  /** The offset at which the candidate beacons are placed against the known ones, if any. */
  function Match(known: seq<Vector>, cand: seq<Vector>): Option<Vector>
  {
    var es := Grid(known, cand, |known|);
    FirstFull(es, Keys(es))
  }

  /** Appending one entry extends its offset's bucket and, for a new offset, the keys. */
  lemma AppendEntry(es: seq<Entry>, e: Entry)
    ensures Keys(es + [e]) == if e.offset in Keys(es) then Keys(es) else Keys(es) + [e.offset]
    ensures forall off :: Bucket(es + [e], off) == Bucket(es, off) + (if e.offset == off then [(e.i, e.j)] else [])
  {
    assert (es + [e])[..|es|] == es;
  }

  /** What `diffs` holds after the entries es: the keys in insertion order, each with its bucket. */
  ghost predicate Holds(diffs: map<Vector, seq<(nat, nat)>>, order: seq<Vector>, es: seq<Entry>)
  {
    order == Keys(es) &&
    (forall off :: off in diffs <==> off in order) &&
    (forall off :: off in diffs ==> diffs[off] == Bucket(es, off))
  }

  /** `diffs[off].append((i, j))` on a defaultdict, for one more entry. */
  method Append(diffs: map<Vector, seq<(nat, nat)>>, order: seq<Vector>, ghost es: seq<Entry>, e: Entry)
    returns (diffs': map<Vector, seq<(nat, nat)>>, order': seq<Vector>)
    requires Holds(diffs, order, es)
    ensures Holds(diffs', order', es + [e])
  {
    AppendEntry(es, e);
    if e.offset in diffs {
      diffs' := diffs[e.offset := diffs[e.offset] + [(e.i, e.j)]];
      order' := order;
    } else {
      BucketEmpty(es, e.offset);
      diffs' := diffs[e.offset := [(e.i, e.j)]];
      order' := order + [e.offset];
    }
  }

  /** The two loops over the known and the candidate beacons that fill `diffs`. */
  method FillDiffs(known: seq<Vector>, cand: seq<Vector>)
    returns (diffs: map<Vector, seq<(nat, nat)>>, order: seq<Vector>)
    ensures Holds(diffs, order, Grid(known, cand, |known|))
  {
    diffs, order := map[], [];
    for i := 0 to |known|
      invariant Holds(diffs, order, Grid(known, cand, i))
    {
      assert Grid(known, cand, i) + Row(known, cand, i, 0) == Grid(known, cand, i);
      for j := 0 to |cand|
        invariant Holds(diffs, order, Grid(known, cand, i) + Row(known, cand, i, j))
      {
        ghost var es := Grid(known, cand, i) + Row(known, cand, i, j);
        var e := Entry(Sub(known[i], cand[j]), i, j);
        assert es + [e] == Grid(known, cand, i) + Row(known, cand, i, j + 1);
        diffs, order := Append(diffs, order, es, e);
      }
    }
  }

  /** The scan of the keys of `diffs`, in insertion order, for one with twelve pairs or more. */
  method MatchOffset(known: seq<Vector>, cand: seq<Vector>) returns (r: Option<Vector>)
    ensures r == Match(known, cand)
  {
    var diffs, order := FillDiffs(known, cand);
    ghost var es := Grid(known, cand, |known|);
    for k := 0 to |order|
      invariant FirstFull(es, order) == FirstFull(es, order[k..])
    {
      assert order[k..][1..] == order[k + 1..];
      if |diffs[order[k]]| >= 12 {
        return Some(order[k]);
      }
    }
    return None;
  }

  /** An offset that is not a key has an empty bucket. */
  lemma {:induction false} BucketEmpty(es: seq<Entry>, off: Vector)
    requires off !in Keys(es)
    ensures Bucket(es, off) == []
  {
    if es != [] {
      BucketEmpty(es[..|es| - 1], off);
    }
  }

  /** Every pair in a bucket comes from an entry with that offset, and every such entry is in the bucket. */
  lemma {:induction false} BucketMembers(es: seq<Entry>, off: Vector)
    ensures forall q :: 0 <= q < |Bucket(es, off)| ==>
      exists k :: 0 <= k < |es| && es[k] == Entry(off, Bucket(es, off)[q].0, Bucket(es, off)[q].1)
    ensures forall k :: 0 <= k < |es| && es[k].offset == off ==> (es[k].i, es[k].j) in Bucket(es, off)
  {
    if es != [] {
      var init, e := es[..|es| - 1], es[|es| - 1];
      BucketMembers(init, off);
      var b := Bucket(es, off);
      assert b == Bucket(init, off) + (if e.offset == off then [(e.i, e.j)] else []);
      forall q | 0 <= q < |Bucket(es, off)|
        ensures exists k :: 0 <= k < |es| && es[k] == Entry(off, Bucket(es, off)[q].0, Bucket(es, off)[q].1)
      {
        if q < |Bucket(init, off)| {
          var k :| 0 <= k < |init| && init[k] == Entry(off, Bucket(init, off)[q].0, Bucket(init, off)[q].1);
          assert es[k] == init[k];
        } else {
          assert es[|es| - 1] == Entry(off, b[q].0, b[q].1);
        }
      }
      forall k | 0 <= k < |es| && es[k].offset == off ensures (es[k].i, es[k].j) in b {
        if k < |init| {
          assert es[k] == init[k];
        }
      }
      assert forall q :: 0 <= q < |Bucket(es, off)| ==>
        exists k :: 0 <= k < |es| && es[k] == Entry(off, Bucket(es, off)[q].0, Bucket(es, off)[q].1);
    } else {
      assert Bucket(es, off) == [];
    }
  }

  /** Pair (i, j) comes before pair (i', j') in the loop order. */
  predicate Earlier(a: (nat, nat), b: (nat, nat))
  {
    a.0 < b.0 || (a.0 == b.0 && a.1 < b.1)
  }

  /** The entries visit their index pairs in strictly increasing loop order. */
  predicate InLoopOrder(es: seq<Entry>)
  {
    forall k, l :: 0 <= k < l < |es| ==> Earlier((es[k].i, es[k].j), (es[l].i, es[l].j))
  }

  /** Every entry of the grid is the offset of its own index pair. */
  lemma {:induction false} GridShape(known: seq<Vector>, cand: seq<Vector>, n: nat)
    requires n <= |known|
    ensures forall k :: 0 <= k < |Grid(known, cand, n)| ==>
      var e := Grid(known, cand, n)[k];
      e.i < n && e.j < |cand| && e.offset == Sub(known[e.i], cand[e.j])
  {
    if n > 0 {
      GridShape(known, cand, n - 1);
      RowEntries(known, cand, n - 1, |cand|);
      var g, r := Grid(known, cand, n - 1), Row(known, cand, n - 1, |cand|);
      var gr: seq<Entry> := g + r;
      forall k | 0 <= k < |g + r| ensures gr[k].i < n && gr[k].j < |cand| && gr[k].offset == Sub(known[gr[k].i], cand[gr[k].j]) {
        if k < |g| {
          assert gr[k] == g[k];
        } else {
          assert gr[k] == r[k - |g|];
        }
      }
    }
  }

  /** The grid visits the index pairs in loop order. */
  lemma {:induction false} GridOrder(known: seq<Vector>, cand: seq<Vector>, n: nat)
    requires n <= |known|
    ensures InLoopOrder(Grid(known, cand, n))
  {
    if n > 0 {
      GridOrder(known, cand, n - 1);
      GridShape(known, cand, n - 1);
      RowEntries(known, cand, n - 1, |cand|);
      var g, r := Grid(known, cand, n - 1), Row(known, cand, n - 1, |cand|);
      var gr: seq<Entry> := g + r;
      forall k, l | 0 <= k < l < |g + r| ensures Earlier((gr[k].i, gr[k].j), (gr[l].i, gr[l].j)) {
        if l < |g| {
          assert gr[k] == g[k] && gr[l] == g[l];
        } else if k < |g| {
          assert gr[k] == g[k] && gr[l] == r[l - |g|];
        } else {
          assert gr[k] == r[k - |g|] && gr[l] == r[l - |g|];
        }
      }
    }
  }

  /** Every index pair has its entry in the grid. */
  lemma {:induction false} GridComplete(known: seq<Vector>, cand: seq<Vector>, n: nat, i: nat, j: nat)
    requires n <= |known| && i < n && j < |cand|
    ensures Entry(Sub(known[i], cand[j]), i, j) in Grid(known, cand, n)
  {
    var g, r := Grid(known, cand, n - 1), Row(known, cand, n - 1, |cand|);
    var gr: seq<Entry> := g + r;
    if i == n - 1 {
      RowEntries(known, cand, n - 1, |cand|);
      assert gr[|g| + j] == r[j];
    } else {
      GridComplete(known, cand, n - 1, i, j);
      var k :| 0 <= k < |g| && g[k] == Entry(Sub(known[i], cand[j]), i, j);
      assert gr[k] == g[k];
    }
  }

  lemma {:induction false} RowEntries(known: seq<Vector>, cand: seq<Vector>, i: nat, m: nat)
    requires i < |known| && m <= |cand|
    ensures InLoopOrder(Row(known, cand, i, m))
    ensures forall k :: 0 <= k < m ==> Row(known, cand, i, m)[k] == Entry(Sub(known[i], cand[k]), i, k)
  {
    if m > 0 {
      RowEntries(known, cand, i, m - 1);
    }
  }

  /** A bucket keeps the loop order of its entries, so it holds no pair twice. */
  lemma {:induction false} BucketInLoopOrder(es: seq<Entry>, off: Vector)
    requires InLoopOrder(es)
    ensures forall q, r :: 0 <= q < r < |Bucket(es, off)| ==> Earlier(Bucket(es, off)[q], Bucket(es, off)[r])
  {
    if es != [] {
      var init, e := es[..|es| - 1], es[|es| - 1];
      BucketInLoopOrder(init, off);
      BucketMembers(init, off);
      forall q | 0 <= q < |Bucket(init, off)| ensures Earlier(Bucket(init, off)[q], (e.i, e.j)) {
        var k :| 0 <= k < |init| && init[k] == Entry(off, Bucket(init, off)[q].0, Bucket(init, off)[q].1);
        assert es[k] == init[k];
      }
    }
  }

  /** Every key has a non-empty bucket, and the keys are distinct. */
  lemma {:induction false} KeysHaveBuckets(es: seq<Entry>)
    ensures forall off :: off in Keys(es) ==> |Bucket(es, off)| > 0
    ensures forall q, r :: 0 <= q < r < |Keys(es)| ==> Keys(es)[q] != Keys(es)[r]
  {
    if es != [] {
      KeysHaveBuckets(es[..|es| - 1]);
    }
  }

  /** The scan stops at the first key with twelve pairs or more, and reports none when no key has them. */
  lemma {:induction false} FirstFullSpec(es: seq<Entry>, keys: seq<Vector>)
    ensures FirstFull(es, keys).Some? ==>
      exists k :: 0 <= k < |keys| && keys[k] == FirstFull(es, keys).value && |Bucket(es, keys[k])| >= 12 &&
        forall l :: 0 <= l < k ==> |Bucket(es, keys[l])| < 12
    ensures FirstFull(es, keys).None? ==> forall k :: 0 <= k < |keys| ==> |Bucket(es, keys[k])| < 12
  {
    if keys != [] && |Bucket(es, keys[0])| < 12 {
      FirstFullSpec(es, keys[1..]);
      if FirstFull(es, keys).Some? {
        var k :| 0 <= k < |keys[1..]| && keys[1..][k] == FirstFull(es, keys).value && |Bucket(es, keys[1..][k])| >= 12 &&
          forall l :: 0 <= l < k ==> |Bucket(es, keys[1..][l])| < 12;
        assert keys[k + 1] == keys[1..][k];
        forall l | 0 <= l < k + 1 ensures |Bucket(es, keys[l])| < 12 {
          if l > 0 { assert keys[l] == keys[1..][l - 1]; }
        }
      } else {
        forall k | 0 <= k < |keys| ensures |Bucket(es, keys[k])| < 12 {
          if k > 0 { assert keys[k] == keys[1..][k - 1]; }
        }
      }
    }
  }

  /** The index pairs whose offset is off, each once, in loop order. */
  function Pairs(known: seq<Vector>, cand: seq<Vector>, off: Vector): seq<(nat, nat)>
  {
    Bucket(Grid(known, cand, |known|), off)
  }

  /**
   * `diffs[off]` holds exactly the pairs (i, j) with known[i] - cand[j] = off,
   * each once: moving candidate beacon j by off puts it on known beacon i.
   */
  lemma PairsSpec(known: seq<Vector>, cand: seq<Vector>, off: Vector)
    ensures forall q :: 0 <= q < |Pairs(known, cand, off)| ==>
      var (i, j) := Pairs(known, cand, off)[q];
      i < |known| && j < |cand| && Add(cand[j], off) == known[i]
    ensures forall i, j :: 0 <= i < |known| && 0 <= j < |cand| && Add(cand[j], off) == known[i] ==>
      (i, j) in Pairs(known, cand, off)
    ensures forall q, r :: 0 <= q < r < |Pairs(known, cand, off)| ==> Pairs(known, cand, off)[q] != Pairs(known, cand, off)[r]
  {
    PairsSound(known, cand, off);
    PairsComplete(known, cand, off);
    GridOrder(known, cand, |known|);
    BucketInLoopOrder(Grid(known, cand, |known|), off);
  }

  lemma PairsSound(known: seq<Vector>, cand: seq<Vector>, off: Vector)
    ensures forall q :: 0 <= q < |Pairs(known, cand, off)| ==>
      var (i, j) := Pairs(known, cand, off)[q];
      i < |known| && j < |cand| && Add(cand[j], off) == known[i]
  {
    var es := Grid(known, cand, |known|);
    var b := Pairs(known, cand, off);
    GridShape(known, cand, |known|);
    BucketMembers(es, off);
    forall q | 0 <= q < |b| ensures b[q].0 < |known| && b[q].1 < |cand| && Add(cand[b[q].1], off) == known[b[q].0] {
      var k :| 0 <= k < |es| && es[k] == Entry(off, b[q].0, b[q].1);
    }
  }

  lemma PairsComplete(known: seq<Vector>, cand: seq<Vector>, off: Vector)
    ensures forall i, j :: 0 <= i < |known| && 0 <= j < |cand| && Add(cand[j], off) == known[i] ==>
      (i, j) in Pairs(known, cand, off)
  {
    var es := Grid(known, cand, |known|);
    BucketMembers(es, off);
    forall i, j | 0 <= i < |known| && 0 <= j < |cand| && Add(cand[j], off) == known[i]
      ensures (i, j) in Pairs(known, cand, off)
    {
      GridComplete(known, cand, |known|, i, j);
      var k :| 0 <= k < |es| && es[k] == Entry(Sub(known[i], cand[j]), i, j);
    }
  }

  /**
   * The match is the first offset, in the order offsets first occur, that
   * twelve or more beacon pairs share; there is none exactly when every
   * offset is shared by fewer than twelve pairs.
   */
  lemma MatchSpec(known: seq<Vector>, cand: seq<Vector>)
    ensures Match(known, cand).Some? ==> |Pairs(known, cand, Match(known, cand).value)| >= 12
    ensures Match(known, cand).None? <==> forall off :: |Pairs(known, cand, off)| < 12
  {
    var es := Grid(known, cand, |known|);
    FirstFullSpec(es, Keys(es));
    KeysHaveBuckets(es);
    if Match(known, cand).None? {
      forall off ensures |Pairs(known, cand, off)| < 12 {
        if off !in Keys(es) {
          BucketEmpty(es, off);
        }
      }
    }
  }

  // ---------------------------------------------------------------------------
  // Placing the scanners
  // ---------------------------------------------------------------------------

  /** One entry of `found`: the scanner's index, its position, and its beacons in scanner 0's frame. */
  datatype Placement = Placement(axis: nat, position: Vector, beacons: seq<Vector>)

  /** `[add_vectors(y, off) for y in pts]`. */
  function Translate(pts: seq<Vector>, off: Vector): (r: seq<Vector>)
    ensures |r| == |pts|
  {
    seq(|pts|, j requires 0 <= j < |pts| => Add(pts[j], off))
  }

  /** `[f[0] for f in found]`. */
  function Axes(found: seq<Placement>): seq<nat>
  {
    seq(|found|, k requires 0 <= k < |found| => found[k].axis)
  }

  /** The scanners not placed yet. */
  ghost function Unplaced(n: nat, found: seq<Placement>): set<nat>
  {
    set a | 0 <= a < n && a !in Axes(found)
  }

  /**
   * pl was placed against prev with orientation t: no earlier orientation of
   * its scan matches prev's beacons, orientation t matches at pl's position,
   * and pl's beacons are that orientation moved by the position.
   */
  ghost predicate PlacedBy(prev: Placement, pl: Placement, scans: seq<seq<Vector>>, t: nat)
  {
    pl.axis < |scans| && t < 24 &&
    (forall u :: 0 <= u < t ==> Match(prev.beacons, TurnAll(Orientations()[u], scans[pl.axis])).None?) &&
    Match(prev.beacons, TurnAll(Orientations()[t], scans[pl.axis])) == Some(pl.position) &&
    pl.beacons == Translate(TurnAll(Orientations()[t], scans[pl.axis]), pl.position)
  }

  /**
   * What `found` holds: scanner 0 at the origin with its own beacons first,
   * each scanner at most once, and every later one placed against an
   * earlier one.
   */
  ghost predicate FoundValid(found: seq<Placement>, scans: seq<seq<Vector>>)
  {
    |found| >= 1 && |scans| >= 1 && found[0] == Placement(0, Vector(0, 0, 0), scans[0]) &&
    (forall k :: 0 <= k < |found| ==> found[k].axis < |scans|) &&
    (forall k, l :: 0 <= k < l < |found| ==> found[k].axis != found[l].axis) &&
    (forall k :: 1 <= k < |found| ==> PlacedEarlier(found, k, scans))
  }

  /** Entry k of `found` was placed against an entry before it. */
  ghost predicate PlacedEarlier(found: seq<Placement>, k: nat, scans: seq<seq<Vector>>)
    requires k < |found|
  {
    exists p, t :: 0 <= p < k && PlacedBy(found[p], found[k], scans, t)
  }

  /** Appending to `found` keeps the earlier entries placed. */
  lemma PlacedEarlierAppend(found: seq<Placement>, pl: Placement, k: nat, scans: seq<seq<Vector>>)
    requires k < |found| && PlacedEarlier(found, k, scans)
    ensures PlacedEarlier(found + [pl], k, scans)
  {
    var p, t :| 0 <= p < k && PlacedBy(found[p], found[k], scans, t);
    assert (found + [pl])[p] == found[p] && (found + [pl])[k] == found[k];
  }

  /** Appending a placement appends its scanner to the axes. */
  lemma AppendAxes(found: seq<Placement>, pl: Placement)
    ensures Axes(found + [pl]) == Axes(found) + [pl.axis]
  {
    var found' := found + [pl];
    forall k | 0 <= k < |found| ensures Axes(found')[k] == Axes(found)[k] {
      assert found'[k] == found[k];
    }
  }

  /** Appending a placement of an unplaced scanner leaves one fewer unplaced. */
  lemma AppendUnplaced(n: nat, found: seq<Placement>, pl: Placement)
    requires pl.axis < n && pl.axis !in Axes(found)
    ensures Unplaced(n, found + [pl]) == Unplaced(n, found) - {pl.axis}
    ensures pl.axis in Unplaced(n, found)
  {
    AppendAxes(found, pl);
    forall a ensures a in Unplaced(n, found + [pl]) <==> a in Unplaced(n, found) - {pl.axis} {
      assert a in Axes(found + [pl]) <==> a in Axes(found) || a == pl.axis;
    }
  }

  /** Appending a scanner placed against an entry keeps `found` valid. */
  lemma AppendPlacement(found: seq<Placement>, pl: Placement, p: nat, t: nat, scans: seq<seq<Vector>>)
    requires FoundValid(found, scans) && p < |found|
    requires pl.axis !in Axes(found) && PlacedBy(found[p], pl, scans, t)
    ensures FoundValid(found + [pl], scans)
  {
    var found' := found + [pl];
    AppendAxes(found, pl);
    forall k, l | 0 <= k < l < |found'| ensures found'[k].axis != found'[l].axis {
      if l == |found| {
        assert found[k].axis == Axes(found)[k];
      } else {
        assert found'[k] == found[k] && found'[l] == found[l];
      }
    }
    forall k | 1 <= k < |found'| ensures PlacedEarlier(found', k, scans) {
      if k == |found| {
        assert found'[p] == found[p] && found'[k] == pl;
      } else {
        PlacedEarlierAppend(found, pl, k, scans);
      }
    }
  }

  /**
   * The loop over the orientations of one scan against one entry of
   * `found`: the first candidate list with an offset shared by twelve pairs,
   * and that offset; none when no candidate list has one.
   */
  method FirstMatch(known: seq<Vector>, candidates: seq<seq<Vector>>) returns (r: Option<(nat, Vector)>)
    ensures r.Some? ==> r.value.0 < |candidates| && Match(known, candidates[r.value.0]) == Some(r.value.1)
    ensures r.Some? ==> forall u :: 0 <= u < r.value.0 ==> Match(known, candidates[u]).None?
    ensures r.None? <==> forall u :: 0 <= u < |candidates| ==> Match(known, candidates[u]).None?
  {
    for t := 0 to |candidates|
      invariant forall u :: 0 <= u < t ==> Match(known, candidates[u]).None?
    {
      var m := MatchOffset(known, candidates[t]);
      if m.Some? {
        return Some((t, m.value));
      }
    }
    return None;
  }

  /** Placing one scan against one entry of `found` at its first matching orientation. */
  method TryPlace(prev: Placement, scans: seq<seq<Vector>>, axis: nat) returns (r: Option<(Placement, nat)>)
    requires axis < |scans|
    ensures r.Some? ==> r.value.0.axis == axis && PlacedBy(prev, r.value.0, scans, r.value.1)
    ensures r.None? <==> forall u :: 0 <= u < 24 ==> Match(prev.beacons, TurnAll(Orientations()[u], scans[axis])).None?
  {
    var candidates := PotentialPositions(scans[axis]);
    var m := FirstMatch(prev.beacons, candidates);
    if m.Some? {
      var (t, off) := m.value;
      forall u | 0 <= u < t ensures Match(prev.beacons, TurnAll(Orientations()[u], scans[axis])).None? {
        assert candidates[u] == TurnAll(Orientations()[u], scans[axis]);
      }
      assert candidates[t] == TurnAll(Orientations()[t], scans[axis]);
      return Some((Placement(axis, off, Translate(candidates[t], off)), t));
    }
    forall u | 0 <= u < 24 ensures Match(prev.beacons, TurnAll(Orientations()[u], scans[axis])).None? {
      assert candidates[u] == TurnAll(Orientations()[u], scans[axis]);
    }
    return None;
  }

  /** One step of the loop over the scanners: appending a scanner placed against entry idx. */
  lemma ExtendFound(found: seq<Placement>, cur: seq<Placement>, pl: Placement, idx: nat, t: nat, scans: seq<seq<Vector>>)
    requires FoundValid(cur, scans) && |cur| >= |found| && cur[..|found|] == found && idx < |found|
    requires pl.axis !in Axes(cur) && PlacedBy(found[idx], pl, scans, t)
    ensures FoundValid(cur + [pl], scans) && (cur + [pl])[..|found|] == found
    ensures Unplaced(|scans|, cur + [pl]) == Unplaced(|scans|, cur) - {pl.axis}
    ensures pl.axis in Unplaced(|scans|, cur)
  {
    assert cur[idx] == found[idx];
    AppendPlacement(cur, pl, idx, t, scans);
    AppendUnplaced(|scans|, cur, pl);
    assert (cur + [pl])[..|found|] == cur[..|found|];
  }

  /** The loop over all scanners for one entry of `found`, placing each unplaced one that matches it. */
  method PlaceAgainst(found: seq<Placement>, idx: nat, scans: seq<seq<Vector>>) returns (found': seq<Placement>)
    requires FoundValid(found, scans) && idx < |found|
    ensures FoundValid(found', scans)
    ensures |found'| >= |found| && found'[..|found|] == found
    ensures |Unplaced(|scans|, found')| + (|found'| - |found|) == |Unplaced(|scans|, found)|
  {
    found' := found;
    for axis := 0 to |scans|
      invariant FoundValid(found', scans)
      invariant |found'| >= |found| && found'[..|found|] == found
      invariant |Unplaced(|scans|, found')| + (|found'| - |found|) == |Unplaced(|scans|, found)|
    {
      if axis !in Axes(found') {
        var m := TryPlace(found[idx], scans, axis);
        if m.Some? {
          var (pl, t) := m.value;
          ExtendFound(found, found', pl, idx, t, scans);
          found' := found' + [pl];
        }
      }
    }
  }

  /**
   * `process_scanners`: scanner 0 is placed at the origin, then every entry
   * of `found`, including the ones appended on the way, is matched against
   * the scanners not placed yet.
   */
  method ProcessScanners(scans: seq<seq<Vector>>) returns (r: Result<seq<Placement>>)
    ensures scans == [] <==> r.Err?
    ensures r.Err? ==> r.error == IndexError
    ensures r.Ok? ==> FoundValid(r.value, scans)
  {
    if scans == [] {
      return Err(IndexError);
    }
    var found := [Placement(0, Vector(0, 0, 0), scans[0])];
    var idx := 0;
    while idx < |found|
      invariant FoundValid(found, scans)
      decreases |Unplaced(|scans|, found)|, |found| - idx
    {
      found := PlaceAgainst(found, idx, scans);
      idx := idx + 1;
    }
    return Ok(found);
  }

  /**
   * ps lists twelve or more distinct index pairs (i, j) with a[i] == b[j]:
   * beacons the two scans have in common.
   */
  predicate SharesTwelve(a: seq<Vector>, b: seq<Vector>, ps: seq<(nat, nat)>)
  {
    |ps| >= 12 &&
    (forall q, r :: 0 <= q < r < |ps| ==> ps[q] != ps[r]) &&
    (forall q :: 0 <= q < |ps| ==> ps[q].0 < |a| && ps[q].1 < |b| && a[ps[q].0] == b[ps[q].1])
  }

  /** A scanner placed against prev shares twelve or more beacons with it, at the matched position. */
  lemma PlacedByShares(prev: Placement, pl: Placement, scans: seq<seq<Vector>>, t: nat)
    requires PlacedBy(prev, pl, scans, t)
    ensures SharesTwelve(prev.beacons, pl.beacons, Pairs(prev.beacons, TurnAll(Orientations()[t], scans[pl.axis]), pl.position))
  {
    var cand := TurnAll(Orientations()[t], scans[pl.axis]);
    MatchSpec(prev.beacons, cand);
    PairsSpec(prev.beacons, cand, pl.position);
  }

  /** Every scanner after the first shares twelve or more beacons with an earlier one. */
  lemma PlacedShares(found: seq<Placement>, scans: seq<seq<Vector>>, k: nat)
    requires FoundValid(found, scans) && 1 <= k < |found|
    ensures exists p, t :: (0 <= p < k && 0 <= t < 24 &&
      SharesTwelve(found[p].beacons, found[k].beacons,
        Pairs(found[p].beacons, TurnAll(Orientations()[t], scans[found[k].axis]), found[k].position)))
  {
    assert PlacedEarlier(found, k, scans);
    var p, t :| 0 <= p < k && PlacedBy(found[p], found[k], scans, t);
    PlacedByShares(found[p], found[k], scans, t);
  }
}
