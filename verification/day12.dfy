/**
 * Passage pathing: counting the paths through a cave system from "start"
 * to "end". Big caves (names with an upper-case letter) may be entered any
 * number of times; small caves at most once or, in the second mode, one
 * small cave other than "start" and "end" twice.
 */
module Day12Caves {
  import opened Common

  /** Neighbours by cave name, as built by `read_adjacency_list`. */
  type Adjacency = map<string, seq<string>>

  const Start: string := "start"
  const End: string := "end"

  /** `name.lower() == name` on ASCII names: no upper-case letter. */
  predicate IsSmall(name: string)
  {
    forall i :: 0 <= i < |name| ==> !('A' <= name[i] <= 'Z')
  }

  /** The neighbours of a cave; a cave without an entry has none (the table is a `defaultdict(list)`). */
  function Nbrs(adj: Adjacency, pos: string): seq<string>
  {
    if pos in adj then adj[pos] else []
  }

  /** A queued path: its last cave, the small caves on it, and the small cave it entered twice, if any. */
  datatype State = State(pos: string, small: set<string>, twice: Option<string>)

  const Initial: State := State(Start, {Start}, None)

  /** What `find_paths` queues when the path of st moves on to its neighbour a (None: nothing). */
  function Step(st: State, a: string, smallOnlyOnce: bool): Option<State>
  {
    if a !in st.small then
      Some(State(a, if IsSmall(a) then st.small + {a} else st.small, st.twice))
    else if st.twice.None? && a != Start && a != End && !smallOnlyOnce then
      Some(State(a, st.small, Some(a)))
    else
      None
  }

  /** The states queued for the neighbours nbrs, in order. */
  function Children(nbrs: seq<string>, st: State, smallOnlyOnce: bool): (r: seq<State>)
    ensures forall c :: c in r ==> c.pos in nbrs && Step(st, c.pos, smallOnlyOnce) == Some(c)
    ensures |r| <= |nbrs|
  {
    if nbrs == [] then []
    else
      var a := nbrs[|nbrs| - 1];
      Children(nbrs[..|nbrs| - 1], st, smallOnlyOnce)
        + (match Step(st, a, smallOnlyOnce) case Some(c) => [c] case None => [])
  }

  lemma {:induction false} ChildrenHas(nbrs: seq<string>, st: State, smallOnlyOnce: bool, a: string)
    requires a in nbrs && Step(st, a, smallOnlyOnce).Some?
    ensures Step(st, a, smallOnlyOnce).value in Children(nbrs, st, smallOnlyOnce)
  {
    var last := nbrs[|nbrs| - 1];
    if a != last {
      assert a in nbrs[..|nbrs| - 1] by {
        var i :| 0 <= i < |nbrs| && nbrs[i] == a;
        assert nbrs[..|nbrs| - 1][i] == a;
      }
      ChildrenHas(nbrs[..|nbrs| - 1], st, smallOnlyOnce, a);
    }
  }

  // ---------------------------------------------------------------------------
  // Why the search ends: a potential that every step lowers
  // ---------------------------------------------------------------------------

  /** The small caves named as a neighbour somewhere in the table. */
  ghost function SmallCaves(adj: Adjacency): set<string>
  {
    set k, i | k in adj && 0 <= i < |adj[k]| && IsSmall(adj[k][i]) :: adj[k][i]
  }

  /** No two big caves are neighbours; otherwise there are infinitely many paths. */
  ghost predicate NoBigPairs(adj: Adjacency)
  {
    forall k, a :: k in adj && a in adj[k] ==> IsSmall(k) || IsSmall(a)
  }

  /** Twice the small caves not yet on the path, plus 2 while no cave was entered twice, plus 1 in a small cave. */
  ghost function Potential(caves: set<string>, st: State): nat
  {
    2 * |caves - st.small| + (if st.twice.None? then 2 else 0) + (if IsSmall(st.pos) then 1 else 0)
  }

  lemma StepDecreases(adj: Adjacency, st: State, a: string, smallOnlyOnce: bool)
    requires NoBigPairs(adj) && a in Nbrs(adj, st.pos) && Step(st, a, smallOnlyOnce).Some?
    ensures Potential(SmallCaves(adj), Step(st, a, smallOnlyOnce).value) < Potential(SmallCaves(adj), st)
  {
    var caves := SmallCaves(adj);
    if a !in st.small && IsSmall(a) {
      var i :| 0 <= i < |adj[st.pos]| && adj[st.pos][i] == a;
      assert a in caves;
      var rest := (caves - st.small) - {a};
      assert caves - (st.small + {a}) == rest;
      assert caves - st.small == rest + {a};
    }
  }

  lemma ChildrenDecrease(adj: Adjacency, st: State, smallOnlyOnce: bool)
    requires NoBigPairs(adj)
    ensures forall c :: c in Children(Nbrs(adj, st.pos), st, smallOnlyOnce) ==>
      Potential(SmallCaves(adj), c) < Potential(SmallCaves(adj), st)
  {
    forall c | c in Children(Nbrs(adj, st.pos), st, smallOnlyOnce)
      ensures Potential(SmallCaves(adj), c) < Potential(SmallCaves(adj), st)
    {
      StepDecreases(adj, st, c.pos, smallOnlyOnce);
    }
  }

  // ---------------------------------------------------------------------------
  // The paths a queued state leads to
  // ---------------------------------------------------------------------------

  function Prefixed(a: string, ps: seq<seq<string>>): (r: seq<seq<string>>)
    ensures |r| == |ps|
  {
    seq(|ps|, i requires 0 <= i < |ps| => [a] + ps[i])
  }

  /**
   * The ways to finish the path of st: the caves it goes on to, up to and
   * including "end", one entry per path `find_paths` counts.
   */
  ghost function Tails(adj: Adjacency, smallOnlyOnce: bool, st: State): seq<seq<string>>
    requires NoBigPairs(adj)
    decreases Potential(SmallCaves(adj), st), 1
  {
    if st.pos == End then [[]]
    else
      ChildrenDecrease(adj, st, smallOnlyOnce);
      Through(adj, smallOnlyOnce, Potential(SmallCaves(adj), st), Children(Nbrs(adj, st.pos), st, smallOnlyOnce))
  }

  /** The tails through each of the states cs in turn; `bound` is above their potentials. */
  ghost function Through(adj: Adjacency, smallOnlyOnce: bool, bound: nat, cs: seq<State>): seq<seq<string>>
    requires NoBigPairs(adj)
    requires forall c :: c in cs ==> Potential(SmallCaves(adj), c) < bound
    decreases bound, 0, |cs|
  {
    if cs == [] then []
    else Prefixed(cs[0].pos, Tails(adj, smallOnlyOnce, cs[0])) + Through(adj, smallOnlyOnce, bound, cs[1..])
  }

  /** The number of states in the search tree below st, st included. */
  ghost function Size(adj: Adjacency, smallOnlyOnce: bool, st: State): nat
    requires NoBigPairs(adj)
    decreases Potential(SmallCaves(adj), st), 1
  {
    if st.pos == End then 1
    else
      ChildrenDecrease(adj, st, smallOnlyOnce);
      1 + SizeAll(adj, smallOnlyOnce, Potential(SmallCaves(adj), st), Children(Nbrs(adj, st.pos), st, smallOnlyOnce))
  }

  ghost function SizeAll(adj: Adjacency, smallOnlyOnce: bool, bound: nat, cs: seq<State>): nat
    requires NoBigPairs(adj)
    requires forall c :: c in cs ==> Potential(SmallCaves(adj), c) < bound
    decreases bound, 0, |cs|
  {
    if cs == [] then 0 else Size(adj, smallOnlyOnce, cs[0]) + SizeAll(adj, smallOnlyOnce, bound, cs[1..])
  }

  /** The paths still to be counted for a queue. */
  ghost function TailCount(adj: Adjacency, smallOnlyOnce: bool, qs: seq<State>): nat
    requires NoBigPairs(adj)
  {
    if qs == [] then 0 else |Tails(adj, smallOnlyOnce, qs[0])| + TailCount(adj, smallOnlyOnce, qs[1..])
  }

  /** The states still to be visited for a queue. */
  ghost function SizeSum(adj: Adjacency, smallOnlyOnce: bool, qs: seq<State>): nat
    requires NoBigPairs(adj)
  {
    if qs == [] then 0 else Size(adj, smallOnlyOnce, qs[0]) + SizeSum(adj, smallOnlyOnce, qs[1..])
  }

  lemma {:induction false} QueueAppend(adj: Adjacency, smallOnlyOnce: bool, a: seq<State>, b: seq<State>)
    requires NoBigPairs(adj)
    ensures TailCount(adj, smallOnlyOnce, a + b) == TailCount(adj, smallOnlyOnce, a) + TailCount(adj, smallOnlyOnce, b)
    ensures SizeSum(adj, smallOnlyOnce, a + b) == SizeSum(adj, smallOnlyOnce, a) + SizeSum(adj, smallOnlyOnce, b)
    decreases |a|
  {
    if a == [] {
      assert a + b == b;
    } else {
      assert (a + b)[1..] == a[1..] + b;
      QueueAppend(adj, smallOnlyOnce, a[1..], b);
    }
  }

  lemma {:induction false} ThroughCount(adj: Adjacency, smallOnlyOnce: bool, bound: nat, cs: seq<State>)
    requires NoBigPairs(adj)
    requires forall c :: c in cs ==> Potential(SmallCaves(adj), c) < bound
    ensures |Through(adj, smallOnlyOnce, bound, cs)| == TailCount(adj, smallOnlyOnce, cs)
    ensures SizeAll(adj, smallOnlyOnce, bound, cs) == SizeSum(adj, smallOnlyOnce, cs)
    decreases |cs|
  {
    if cs != [] {
      ThroughCount(adj, smallOnlyOnce, bound, cs[1..]);
      assert Through(adj, smallOnlyOnce, bound, cs)
        == Prefixed(cs[0].pos, Tails(adj, smallOnlyOnce, cs[0])) + Through(adj, smallOnlyOnce, bound, cs[1..]);
      assert SizeAll(adj, smallOnlyOnce, bound, cs)
        == Size(adj, smallOnlyOnce, cs[0]) + SizeAll(adj, smallOnlyOnce, bound, cs[1..]);
    }
  }

  /** Visiting a state that is not at "end" replaces it in the queue by its children: one state fewer, the same paths. */
  lemma Expand(adj: Adjacency, smallOnlyOnce: bool, st: State, rest: seq<State>)
    requires NoBigPairs(adj) && st.pos != End
    ensures var kids := Children(Nbrs(adj, st.pos), st, smallOnlyOnce);
      && TailCount(adj, smallOnlyOnce, [st] + rest) == TailCount(adj, smallOnlyOnce, rest + kids)
      && SizeSum(adj, smallOnlyOnce, [st] + rest) == SizeSum(adj, smallOnlyOnce, rest + kids) + 1
  {
    var kids := Children(Nbrs(adj, st.pos), st, smallOnlyOnce);
    ChildrenDecrease(adj, st, smallOnlyOnce);
    ThroughCount(adj, smallOnlyOnce, Potential(SmallCaves(adj), st), kids);
    QueueAppend(adj, smallOnlyOnce, rest, kids);
    assert ([st] + rest)[1..] == rest;
  }

  /**
   * `find_paths`: a breadth-first search over partial paths from "start";
   * a path that reaches "end" is counted and goes no further. Each
   * neighbour not yet on the path is queued (a small one is recorded);
   * when small caves may not only be entered once, one small cave other
   * than "start" and "end" may be entered a second time.
   */
  method FindPaths(adj: Adjacency, smallOnlyOnce: bool) returns (numPaths: nat)
    requires NoBigPairs(adj)
    ensures numPaths == |Tails(adj, smallOnlyOnce, Initial)|
  {
    var queue := [Initial];
    numPaths := 0;
    while queue != []
      invariant numPaths + TailCount(adj, smallOnlyOnce, queue) == |Tails(adj, smallOnlyOnce, Initial)|
      decreases SizeSum(adj, smallOnlyOnce, queue)
    {
      var st := queue[0];
      ghost var before := queue;
      queue := queue[1..];
      assert before == [st] + queue;
      if st.pos == End {
        numPaths := numPaths + 1;
      } else {
        ghost var rest := queue;
        queue := QueueNeighbours(queue, st, Nbrs(adj, st.pos), smallOnlyOnce);
        Expand(adj, smallOnlyOnce, st, rest);
      }
    }
  }

  // ---------------------------------------------------------------------------
  // The paths counted are exactly the valid paths
  // ---------------------------------------------------------------------------

  /**
   * A walk along the table from "start": consecutive caves are neighbours,
   * "start" is not entered again, and nothing follows "end".
   */
  ghost predicate Walk(adj: Adjacency, p: seq<string>)
  {
    && p != [] && p[0] == Start
    && (forall i :: 0 < i < |p| ==> p[i] != Start)
    && (forall i :: 0 <= i < |p| - 1 ==> p[i] != End && p[i + 1] in Nbrs(adj, p[i]))
  }

  /**
   * Each small cave on p at most once or, when small caves may not only be
   * entered once, at most twice and only one of them twice.
   */
  ghost predicate SmallRule(smallOnlyOnce: bool, p: seq<string>)
  {
    && (forall c :: IsSmall(c) ==> multiset(p)[c] <= (if smallOnlyOnce then 1 else 2))
    && (forall c, d :: IsSmall(c) && IsSmall(d) && multiset(p)[c] == 2 && multiset(p)[d] == 2 ==> c == d)
  }

  /** A path through the caves: a walk from "start" that reaches "end" and keeps the small-cave rule. */
  ghost predicate ValidPath(adj: Adjacency, smallOnlyOnce: bool, p: seq<string>)
  {
    Walk(adj, p) && p[|p| - 1] == End && SmallRule(smallOnlyOnce, p)
  }

  ghost function SmallOn(p: seq<string>): set<string>
  {
    set c | c in p && IsSmall(c)
  }

  /** The queued state st describes the walk q: its last cave, its small caves, and the small cave entered twice. */
  ghost predicate Records(adj: Adjacency, smallOnlyOnce: bool, q: seq<string>, st: State)
  {
    && Walk(adj, q) && q[|q| - 1] == st.pos
    && st.small == SmallOn(q)
    && match st.twice
       case None => forall c :: IsSmall(c) ==> multiset(q)[c] <= 1
       case Some(d) =>
         && !smallOnlyOnce && IsSmall(d) && multiset(q)[d] == 2
         && forall c :: IsSmall(c) && c != d ==> multiset(q)[c] <= 1
  }

  lemma StartIsSmall()
    ensures IsSmall(Start) && IsSmall(End)
  {
  }

  lemma RecordsInitial(adj: Adjacency, smallOnlyOnce: bool)
    ensures Records(adj, smallOnlyOnce, [Start], Initial)
  {
    StartIsSmall();
    assert SmallOn([Start]) == {Start};
  }

  /** Queuing the neighbour a extends the walk by a. */
  lemma RecordsStep(adj: Adjacency, smallOnlyOnce: bool, q: seq<string>, st: State, a: string)
    requires Records(adj, smallOnlyOnce, q, st) && st.pos != End
    requires a in Nbrs(adj, st.pos) && Step(st, a, smallOnlyOnce).Some?
    ensures Records(adj, smallOnlyOnce, q + [a], Step(st, a, smallOnlyOnce).value)
  {
    var p := q + [a];
    StartIsSmall();
    assert q[0] == Start;
    assert a != Start;
    forall i | 0 <= i < |p| - 1
      ensures p[i] != End && p[i + 1] in Nbrs(adj, p[i])
    {
      if i < |q| - 1 {
        assert p[i] == q[i] && p[i + 1] == q[i + 1];
      }
    }
    assert SmallOn(p) == SmallOn(q) + (if IsSmall(a) then {a} else {});
    assert multiset(p) == multiset(q) + multiset{a};
  }

  /** A walk whose state is at "end" is a path through the caves. */
  lemma RecordsEnd(adj: Adjacency, smallOnlyOnce: bool, q: seq<string>, st: State)
    requires Records(adj, smallOnlyOnce, q, st) && st.pos == End
    ensures ValidPath(adj, smallOnlyOnce, q)
  {
  }

  /** A walk that a valid path continues is at a cave other than "end", and its next cave is queued. */
  lemma RecordsCanStep(adj: Adjacency, smallOnlyOnce: bool, q: seq<string>, st: State, t: seq<string>)
    requires Records(adj, smallOnlyOnce, q, st) && t != []
    requires ValidPath(adj, smallOnlyOnce, q + t)
    ensures st.pos != End && t[0] in Nbrs(adj, st.pos) && Step(st, t[0], smallOnlyOnce).Some?
  {
    var p := q + t;
    var n := |q|;
    var a := t[0];
    assert p[n - 1] == st.pos && p[n] == a;
    if a in st.small {
      var j :| 0 <= j < n && q[j] == a;
      assert p[j] == a;
      assert multiset(p) == multiset(q) + multiset(t);
      assert a in multiset(t);
      assert multiset(p)[a] >= 2;
    }
  }

  lemma ConsAssoc<T>(q: seq<T>, a: T, u: seq<T>)
    ensures q + ([a] + u) == (q + [a]) + u
  {
  }

  lemma ConsSplit<T>(u: seq<T>)
    requires u != []
    ensures [u[0]] + u[1..] == u
  {
  }

  lemma ShiftHead<T>(q: seq<T>, t: seq<T>)
    requires t != []
    ensures q + t == (q + [t[0]]) + t[1..]
  {
    assert t == [t[0]] + t[1..];
  }

  lemma {:induction false} ThroughMember(adj: Adjacency, smallOnlyOnce: bool, bound: nat, cs: seq<State>, t: seq<string>)
    requires NoBigPairs(adj)
    requires forall c :: c in cs ==> Potential(SmallCaves(adj), c) < bound
    requires t in Through(adj, smallOnlyOnce, bound, cs)
    ensures exists c, u :: c in cs && u in Tails(adj, smallOnlyOnce, c) && t == [c.pos] + u
    decreases |cs|
  {
    var first := Prefixed(cs[0].pos, Tails(adj, smallOnlyOnce, cs[0]));
    if t in first {
      var i :| 0 <= i < |first| && first[i] == t;
      assert Tails(adj, smallOnlyOnce, cs[0])[i] in Tails(adj, smallOnlyOnce, cs[0]);
    } else {
      ThroughMember(adj, smallOnlyOnce, bound, cs[1..], t);
      var c, u :| c in cs[1..] && u in Tails(adj, smallOnlyOnce, c) && t == [c.pos] + u;
      assert c in cs;
    }
  }

  lemma {:induction false} ThroughHas(adj: Adjacency, smallOnlyOnce: bool, bound: nat, cs: seq<State>, c: State, u: seq<string>)
    requires NoBigPairs(adj)
    requires forall c :: c in cs ==> Potential(SmallCaves(adj), c) < bound
    requires c in cs && u in Tails(adj, smallOnlyOnce, c)
    ensures [c.pos] + u in Through(adj, smallOnlyOnce, bound, cs)
    decreases |cs|
  {
    if c == cs[0] {
      var i :| 0 <= i < |Tails(adj, smallOnlyOnce, c)| && Tails(adj, smallOnlyOnce, c)[i] == u;
      assert Prefixed(c.pos, Tails(adj, smallOnlyOnce, c))[i] == [c.pos] + u;
    } else {
      assert c in cs[1..];
      ThroughHas(adj, smallOnlyOnce, bound, cs[1..], c, u);
    }
  }

  /** Soundness: every tail of a walk's state completes it to a path through the caves. */
  lemma {:induction false} TailsSound(adj: Adjacency, smallOnlyOnce: bool, q: seq<string>, st: State, t: seq<string>)
    requires NoBigPairs(adj) && Records(adj, smallOnlyOnce, q, st)
    requires t in Tails(adj, smallOnlyOnce, st)
    ensures ValidPath(adj, smallOnlyOnce, q + t)
    decreases Potential(SmallCaves(adj), st)
  {
    if st.pos == End {
      assert t == [] && q + t == q;
      RecordsEnd(adj, smallOnlyOnce, q, st);
    } else {
      var kids := Children(Nbrs(adj, st.pos), st, smallOnlyOnce);
      ChildrenDecrease(adj, st, smallOnlyOnce);
      ThroughMember(adj, smallOnlyOnce, Potential(SmallCaves(adj), st), kids, t);
      var c, u :| c in kids && u in Tails(adj, smallOnlyOnce, c) && t == [c.pos] + u;
      RecordsStep(adj, smallOnlyOnce, q, st, c.pos);
      TailsSound(adj, smallOnlyOnce, q + [c.pos], c, u);
      ConsAssoc(q, c.pos, u);
    }
  }

  /** Completeness: every path through the caves that continues a walk is a tail of the walk's state. */
  lemma {:induction false} TailsComplete(adj: Adjacency, smallOnlyOnce: bool, q: seq<string>, st: State, t: seq<string>)
    requires NoBigPairs(adj) && Records(adj, smallOnlyOnce, q, st)
    requires ValidPath(adj, smallOnlyOnce, q + t)
    ensures t in Tails(adj, smallOnlyOnce, st)
    decreases |t|
  {
    if t == [] {
      assert q + t == q;
    } else {
      RecordsCanStep(adj, smallOnlyOnce, q, st, t);
      var a, u := t[0], t[1..];
      var c := Step(st, a, smallOnlyOnce).value;
      var kids := Children(Nbrs(adj, st.pos), st, smallOnlyOnce);
      ChildrenHas(Nbrs(adj, st.pos), st, smallOnlyOnce, a);
      RecordsStep(adj, smallOnlyOnce, q, st, a);
      ShiftHead(q, t);
      TailsComplete(adj, smallOnlyOnce, q + [a], c, u);
      ChildrenDecrease(adj, st, smallOnlyOnce);
      ThroughHas(adj, smallOnlyOnce, Potential(SmallCaves(adj), st), kids, c, u);
      ConsSplit(t);
    }
  }

  /**
   * The paths `find_paths` counts from "start" are exactly the paths
   * through the caves: from "start" to "end" along the table, keeping the
   * small-cave rule of the mode.
   */
  lemma CountedPaths(adj: Adjacency, smallOnlyOnce: bool, t: seq<string>)
    requires NoBigPairs(adj)
    ensures t in Tails(adj, smallOnlyOnce, Initial) <==> ValidPath(adj, smallOnlyOnce, [Start] + t)
  {
    RecordsInitial(adj, smallOnlyOnce);
    if t in Tails(adj, smallOnlyOnce, Initial) {
      TailsSound(adj, smallOnlyOnce, [Start], Initial, t);
    }
    if ValidPath(adj, smallOnlyOnce, [Start] + t) {
      TailsComplete(adj, smallOnlyOnce, [Start], Initial, t);
    }
  }

  lemma ChildrenSnoc(nbrs: seq<string>, k: nat, st: State, smallOnlyOnce: bool)
    requires k < |nbrs|
    ensures Children(nbrs[..k + 1], st, smallOnlyOnce)
      == Children(nbrs[..k], st, smallOnlyOnce) + (match Step(st, nbrs[k], smallOnlyOnce) case Some(c) => [c] case None => [])
  {
    assert nbrs[..k + 1][..k] == nbrs[..k];
  }

  lemma AppendAssoc<T>(a: seq<T>, b: seq<T>, c: seq<T>)
    ensures (a + b) + c == a + (b + c)
  {
  }

  /** The inner loop of `find_paths`: the states for the neighbours of st, appended in order. */
  method QueueNeighbours(queue: seq<State>, st: State, nbrs: seq<string>, smallOnlyOnce: bool) returns (r: seq<State>)
    ensures r == queue + Children(nbrs, st, smallOnlyOnce)
  {
    r := queue;
    for k := 0 to |nbrs|
      invariant r == queue + Children(nbrs[..k], st, smallOnlyOnce)
    {
      var adjacent := nbrs[k];
      var more: seq<State> := [];
      if adjacent !in st.small {
        var newSmall := st.small;
        if IsSmall(adjacent) {
          newSmall := newSmall + {adjacent};
        }
        more := [State(adjacent, newSmall, st.twice)];
      } else if st.twice.None? && adjacent != Start && adjacent != End && !smallOnlyOnce {
        more := [State(adjacent, st.small, Some(adjacent))];
      }
      ChildrenSnoc(nbrs, k, st, smallOnlyOnce);
      AppendAssoc(queue, Children(nbrs[..k], st, smallOnlyOnce), more);
      r := r + more;
    }
    assert nbrs[..|nbrs|] == nbrs;
  }

  // ---------------------------------------------------------------------------
  // Each path is counted once
  // ---------------------------------------------------------------------------

  predicate Distinct<T(==)>(s: seq<T>)
  {
    forall i, j :: 0 <= i < j < |s| ==> s[i] != s[j]
  }

  /** No cave is listed twice among the neighbours of a cave (each line of the input names a different pair). */
  predicate NoRepeatedNeighbours(adj: Adjacency)
  {
    forall k :: k in adj ==> Distinct(adj[k])
  }

  /** The states cs are at different caves. */
  predicate DistinctPos(cs: seq<State>)
  {
    forall i, j :: 0 <= i < j < |cs| ==> cs[i].pos != cs[j].pos
  }

  lemma {:induction false} ChildrenDistinct(nbrs: seq<string>, st: State, smallOnlyOnce: bool)
    requires Distinct(nbrs)
    ensures DistinctPos(Children(nbrs, st, smallOnlyOnce))
  {
    if nbrs != [] {
      var init := nbrs[..|nbrs| - 1];
      var a := nbrs[|nbrs| - 1];
      ChildrenDistinct(init, st, smallOnlyOnce);
      var r0 := Children(init, st, smallOnlyOnce);
      forall i | 0 <= i < |init|
        ensures init[i] != a
      {
        assert init[i] == nbrs[i];
      }
      forall i | 0 <= i < |r0|
        ensures r0[i].pos != a
      {
        assert r0[i] in r0;
      }
      var more := match Step(st, a, smallOnlyOnce) case Some(c) => [c] case None => [];
      var r := Children(nbrs, st, smallOnlyOnce);
      assert r == r0 + more;
      forall i, j | 0 <= i < j < |r|
        ensures r[i].pos != r[j].pos
      {
        if j >= |r0| {
          assert r[j] in more && r[i] == r0[i];
        } else {
          assert r[i] == r0[i] && r[j] == r0[j];
        }
      }
    }
  }

  lemma {:induction false} PrefixedDistinct(a: string, ps: seq<seq<string>>)
    requires Distinct(ps)
    ensures Distinct(Prefixed(a, ps))
  {
    var r := Prefixed(a, ps);
    forall i, j | 0 <= i < j < |r|
      ensures r[i] != r[j]
    {
      assert r[i][1..] == ps[i] && r[j][1..] == ps[j];
    }
  }

  lemma {:induction false} DistinctConcat<T>(a: seq<T>, b: seq<T>)
    requires Distinct(a) && Distinct(b)
    requires forall x :: x in a ==> x !in b
    ensures Distinct(a + b)
  {
    var ab := a + b;
    forall i, j | 0 <= i < j < |ab|
      ensures ab[i] != ab[j]
    {
      if i < |a| && |a| <= j {
        assert ab[i] in a && ab[j] == b[j - |a|];
      } else if |a| <= i {
        assert ab[i] == b[i - |a|] && ab[j] == b[j - |a|];
      }
    }
  }

  lemma {:induction false} ThroughDistinct(adj: Adjacency, smallOnlyOnce: bool, bound: nat, cs: seq<State>)
    requires NoBigPairs(adj)
    requires forall c :: c in cs ==> Potential(SmallCaves(adj), c) < bound
    requires forall c :: c in cs ==> Distinct(Tails(adj, smallOnlyOnce, c))
    requires DistinctPos(cs)
    ensures Distinct(Through(adj, smallOnlyOnce, bound, cs))
    decreases |cs|
  {
    if cs != [] {
      var head := Prefixed(cs[0].pos, Tails(adj, smallOnlyOnce, cs[0]));
      var rest := Through(adj, smallOnlyOnce, bound, cs[1..]);
      assert cs[0] in cs;
      PrefixedDistinct(cs[0].pos, Tails(adj, smallOnlyOnce, cs[0]));
      ThroughDistinct(adj, smallOnlyOnce, bound, cs[1..]);
      forall j | 0 <= j < |cs| - 1
        ensures cs[1..][j].pos != cs[0].pos
      {
        assert cs[1..][j] == cs[j + 1];
      }
      forall y | y in rest
        ensures y != [] && y[0] != cs[0].pos
      {
        ThroughMember(adj, smallOnlyOnce, bound, cs[1..], y);
        var c, u :| c in cs[1..] && u in Tails(adj, smallOnlyOnce, c) && y == [c.pos] + u;
      }
      forall x | x in head
        ensures x !in rest
      {
        var i :| 0 <= i < |head| && head[i] == x;
        assert x[0] == cs[0].pos;
      }
      DistinctConcat(head, rest);
    }
  }

  lemma {:induction false} TailsDistinct(adj: Adjacency, smallOnlyOnce: bool, st: State)
    requires NoBigPairs(adj) && NoRepeatedNeighbours(adj)
    ensures Distinct(Tails(adj, smallOnlyOnce, st))
    decreases Potential(SmallCaves(adj), st)
  {
    if st.pos != End {
      var kids := Children(Nbrs(adj, st.pos), st, smallOnlyOnce);
      ChildrenDecrease(adj, st, smallOnlyOnce);
      forall c | c in kids
        ensures Distinct(Tails(adj, smallOnlyOnce, c))
      {
        TailsDistinct(adj, smallOnlyOnce, c);
      }
      ChildrenDistinct(Nbrs(adj, st.pos), st, smallOnlyOnce);
      ThroughDistinct(adj, smallOnlyOnce, Potential(SmallCaves(adj), st), kids);
    }
  }

  lemma {:induction false} DistinctCard<T>(s: seq<T>)
    requires Distinct(s)
    ensures |set x | x in s| == |s|
  {
    if s != [] {
      var init := s[..|s| - 1];
      var last := s[|s| - 1];
      assert Distinct(init) by {
        forall i, j | 0 <= i < j < |init|
          ensures init[i] != init[j]
        {
          assert init[i] == s[i] && init[j] == s[j];
        }
      }
      DistinctCard(init);
      forall i | 0 <= i < |init|
        ensures init[i] != last
      {
        assert init[i] == s[i];
      }
      assert s == init + [last];
      assert (set x | x in s) == (set x | x in init) + {last};
    }
  }

  /**
   * When no neighbour is listed twice, `find_paths` counts each path through
   * the caves once: the count is the number of distinct paths.
   */
  lemma CountIsNumberOfPaths(adj: Adjacency, smallOnlyOnce: bool)
    requires NoBigPairs(adj) && NoRepeatedNeighbours(adj)
    ensures |set t | t in Tails(adj, smallOnlyOnce, Initial)| == |Tails(adj, smallOnlyOnce, Initial)|
  {
    TailsDistinct(adj, smallOnlyOnce, Initial);
    DistinctCard(Tails(adj, smallOnlyOnce, Initial));
  }

  // ---------------------------------------------------------------------------
  // The documented examples
  // ---------------------------------------------------------------------------

  /** A state with a single child has as many tails as the child. */
  lemma OnlyChild(adj: Adjacency, smallOnlyOnce: bool, st: State, c: State)
    requires NoBigPairs(adj) && st.pos != End
    requires Children(Nbrs(adj, st.pos), st, smallOnlyOnce) == [c]
    ensures |Tails(adj, smallOnlyOnce, st)| == |Tails(adj, smallOnlyOnce, c)|
  {
    ChildrenDecrease(adj, st, smallOnlyOnce);
    var bound := Potential(SmallCaves(adj), st);
    assert c in [c];
    assert Tails(adj, smallOnlyOnce, st) == Through(adj, smallOnlyOnce, bound, [c]);
    assert [c][1..] == [];
    assert Through(adj, smallOnlyOnce, bound, [c])
      == Prefixed(c.pos, Tails(adj, smallOnlyOnce, c)) + Through(adj, smallOnlyOnce, bound, []);
  }

  lemma NamesDiffer()
    ensures Start != End && Start != "A" && End != "A"
  {
    assert Start[0] != End[0] && Start[0] != "A"[0] && End[0] != "A"[0];
  }

  /** `find_paths({"start":["end"],"end":["start"]})` counts one path, in either mode. */
  lemma DirectExample(adj: Adjacency, smallOnlyOnce: bool)
    requires adj == map[Start := [End], End := [Start]]
    ensures NoBigPairs(adj) && |Tails(adj, smallOnlyOnce, Initial)| == 1
  {
    StartIsSmall();
    NamesDiffer();
    var atEnd := State(End, {Start, End}, None);
    assert {Start} + {End} == {Start, End};
    assert Step(Initial, End, smallOnlyOnce) == Some(atEnd);
    assert [End][..0] == [];
    assert Children(Nbrs(adj, Start), Initial, smallOnlyOnce) == [atEnd];
    OnlyChild(adj, smallOnlyOnce, Initial, atEnd);
  }

  lemma BigCaveSteps(smallOnlyOnce: bool)
    ensures Children(["A"], Initial, smallOnlyOnce) == [State("A", {Start}, None)]
    ensures Children([Start, End], State("A", {Start}, None), smallOnlyOnce) == [State(End, {Start, End}, None)]
  {
    StartIsSmall();
    NamesDiffer();
    assert !IsSmall("A") by {
      assert 'A' <= "A"[0] <= 'Z';
    }
    var inA := State("A", {Start}, None);
    assert {Start} + {End} == {Start, End};
    assert Step(Initial, "A", smallOnlyOnce) == Some(inA);
    assert ["A"][..0] == [];
    assert Step(inA, Start, smallOnlyOnce) == None;
    assert Step(inA, End, smallOnlyOnce) == Some(State(End, {Start, End}, None));
    assert [Start, End][..1] == [Start] && [Start][..0] == [];
  }

  /**
   * `find_paths({"start":["A"], "A":["start","end"], "b":["A"], "end":["A"]})`
   * counts one path, start-A-end, in either mode: "start" is not entered
   * again and "b" cannot be reached.
   */
  lemma BigCaveExample(adj: Adjacency, smallOnlyOnce: bool)
    requires adj == map[Start := ["A"], "A" := [Start, End], "b" := ["A"], End := ["A"]]
    ensures NoBigPairs(adj) && |Tails(adj, smallOnlyOnce, Initial)| == 1
  {
    StartIsSmall();
    NamesDiffer();
    assert IsSmall("b");
    BigCaveSteps(smallOnlyOnce);
    var inA := State("A", {Start}, None);
    var atEnd := State(End, {Start, End}, None);
    assert Nbrs(adj, Start) == ["A"] && Nbrs(adj, "A") == [Start, End];
    OnlyChild(adj, smallOnlyOnce, inA, atEnd);
    OnlyChild(adj, smallOnlyOnce, Initial, inA);
  }
}
