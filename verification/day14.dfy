/**
 * Extended polymerization: every step inserts, between each two adjacent
 * elements of a polymer, the element its pair insertion rule names. The
 * polymer itself grows exponentially, so it is tracked by the number of
 * occurrences of each adjacent pair; the answer is the count of the most
 * common element minus that of the least common one.
 */
module Day14Polymer {
  import opened Common

  type Pair = (char, char)
  type Rules = map<Pair, char>

  // ---------------------------------------------------------------------------
  // Counters: a dict of counts, its entries in insertion order
  // ---------------------------------------------------------------------------

  /** A `Counter`: its entries in insertion order. */
  type Counter<K> = seq<(K, nat)>

  /** `counter[k]`: the count of k, 0 when k has no entry. */
  function Get<K(==)>(c: Counter<K>, k: K): nat
  {
    if c == [] then 0 else if c[0].0 == k then c[0].1 else Get(c[1..], k)
  }

  /** `counter[k] += n`: raises the entry of k, or appends one when k has none. */
  function Add<K(==)>(c: Counter<K>, k: K, n: nat): (r: Counter<K>)
    ensures |r| >= 1
  {
    if c == [] then [(k, n)]
    else if c[0].0 == k then [(k, c[0].1 + n)] + c[1..]
    else [c[0]] + Add(c[1..], k, n)
  }

  function Keys<K>(c: Counter<K>): set<K>
  {
    set i | 0 <= i < |c| :: c[i].0
  }

  /** Each key has one entry. */
  predicate Keyed<K(==)>(c: Counter<K>)
  {
    forall i, j :: 0 <= i < j < |c| ==> c[i].0 != c[j].0
  }

  predicate Positive<K>(c: Counter<K>)
  {
    forall i :: 0 <= i < |c| ==> c[i].1 > 0
  }

  /** The counts weighted by w and added up. */
  function Weighted<K>(c: Counter<K>, w: K -> nat): nat
  {
    if c == [] then 0 else c[0].1 * w(c[0].0) + Weighted(c[1..], w)
  }

  /** The weight that counts one key. */
  function Ind<K(==)>(k: K): K -> nat
  {
    q => if q == k then 1 else 0
  }

  /** The weight that counts everything once. */
  function One<K>(): K -> nat
  {
    q => 1
  }

  lemma {:induction false} AddGet<K>(c: Counter<K>, k: K, n: nat, q: K)
    ensures Get(Add(c, k, n), q) == Get(c, q) + (if q == k then n else 0)
    decreases |c|
  {
    if c != [] && c[0].0 != k {
      assert Add(c, k, n)[1..] == Add(c[1..], k, n);
      AddGet(c[1..], k, n, q);
    }
  }

  lemma Distribute(a: nat, b: nat, m: nat)
    ensures (a + b) * m == a * m + b * m
  {
  }

  lemma Factor(m: nat, a: nat, b: nat)
    ensures m * (a + b) == m * a + m * b
  {
  }

  lemma {:induction false} AddWeighted<K>(c: Counter<K>, k: K, n: nat, w: K -> nat)
    ensures Weighted(Add(c, k, n), w) == Weighted(c, w) + n * w(k)
    decreases |c|
  {
    if c == [] {
      assert Add(c, k, n)[1..] == [];
    } else if c[0].0 == k {
      assert Add(c, k, n)[1..] == c[1..];
      Distribute(c[0].1, n, w(k));
    } else {
      assert Add(c, k, n)[1..] == Add(c[1..], k, n);
      AddWeighted(c[1..], k, n, w);
    }
  }

  lemma ConsFacts<K>(x: (K, nat), c: Counter<K>)
    ensures Keys([x] + c) == {x.0} + Keys(c)
    ensures Keyed([x] + c) <==> x.0 !in Keys(c) && Keyed(c)
    ensures Positive([x] + c) <==> x.1 > 0 && Positive(c)
  {
    var r := [x] + c;
    assert r[0] == x;
    assert forall i :: 0 <= i < |c| ==> r[i + 1] == c[i];
    assert forall i :: 0 < i < |r| ==> r[i] == c[i - 1];
    if x.0 !in Keys(c) && Keyed(c) {
      ConsKeyed(x, c);
    }
    if Keyed(r) {
      forall i | 0 <= i < |c|
        ensures c[i].0 != x.0
      {
        assert r[i + 1] == c[i];
      }
      forall i, j | 0 <= i < j < |c|
        ensures c[i].0 != c[j].0
      {
        assert r[i + 1] == c[i] && r[j + 1] == c[j];
      }
    }
  }

  lemma ConsKeyed<K>(x: (K, nat), c: Counter<K>)
    requires x.0 !in Keys(c) && Keyed(c)
    ensures Keyed([x] + c)
  {
    var r := [x] + c;
    forall i, j | 0 <= i < j < |r|
      ensures r[i].0 != r[j].0
    {
      assert r[j] == c[j - 1];
      if i == 0 {
        assert c[j - 1].0 in Keys(c);
      } else {
        assert r[i] == c[i - 1];
      }
    }
  }

  /** The facts about a counter that come from its first entry and the rest. */
  lemma Uncons<K>(c: Counter<K>)
    requires c != []
    ensures Keys(c) == {c[0].0} + Keys(c[1..])
    ensures Keyed(c) <==> c[0].0 !in Keys(c[1..]) && Keyed(c[1..])
    ensures Positive(c) <==> c[0].1 > 0 && Positive(c[1..])
  {
    assert c == [c[0]] + c[1..];
    ConsFacts(c[0], c[1..]);
  }

  lemma {:induction false} AddKeys<K>(c: Counter<K>, k: K, n: nat)
    ensures Keys(Add(c, k, n)) == Keys(c) + {k}
    ensures Keyed(c) ==> Keyed(Add(c, k, n))
    ensures Positive(c) && n > 0 ==> Positive(Add(c, k, n))
    decreases |c|
  {
    if c != [] {
      Uncons(c);
      if c[0].0 == k {
        ConsFacts((k, c[0].1 + n), c[1..]);
      } else {
        AddKeys(c[1..], k, n);
        ConsFacts(c[0], Add(c[1..], k, n));
      }
    }
  }

  /** In a counter with one entry per key, the entry of a key holds its count. */
  lemma {:induction false} GetEntry<K>(c: Counter<K>, j: nat)
    requires Keyed(c) && j < |c|
    ensures Get(c, c[j].0) == c[j].1
    decreases j
  {
    if j > 0 {
      assert c[1..][j - 1] == c[j];
      Uncons(c);
      GetEntry(c[1..], j - 1);
    }
  }

  /** With positive counts, a key has an entry exactly when counting it gives more than 0. */
  lemma {:induction false} KeyIffCounted<K>(c: Counter<K>, q: K)
    requires Positive(c)
    ensures q in Keys(c) <==> Weighted(c, Ind(q)) > 0
    decreases |c|
  {
    if c != [] {
      Uncons(c);
      KeyIffCounted(c[1..], q);
    }
  }

  // ---------------------------------------------------------------------------
  // The polymer the counters stand for
  // ---------------------------------------------------------------------------

  /** The weights of the adjacent pairs of s, added up. */
  function PathWeight(s: string, w: Pair -> nat): nat
  {
    if |s| < 2 then 0 else w((s[0], s[1])) + PathWeight(s[1..], w)
  }

  /** Every adjacent pair of s has a rule. */
  predicate Covered(s: string, rules: Rules)
  {
    forall i :: 0 <= i < |s| - 1 ==> (s[i], s[i + 1]) in rules
  }

  /** One step of the polymer: the element of its rule is inserted into each adjacent pair. */
  function Expand(s: string, rules: Rules): (r: string)
    requires Covered(s, rules)
    ensures |s| > 0 ==> |r| > 0 && r[0] == s[0] && r[|r| - 1] == s[|s| - 1]
    ensures |r| == if |s| == 0 then 0 else 2 * |s| - 1
  {
    if |s| < 2 then s else [s[0], rules[(s[0], s[1])]] + Expand(s[1..], rules)
  }

  /** The polymer after n steps, or the KeyError of a step that meets a pair without a rule. */
  function Grow(s: string, rules: Rules, n: nat): Result<string>
  {
    if n == 0 then Ok(s)
    else
      match Grow(s, rules, n - 1)
      case Err(e) => Err(e)
      case Ok(t) => if Covered(t, rules) then Ok(Expand(t, rules)) else Err(KeyError)
  }

  /** The weight of pair p spread over the two pairs its rule makes of it. */
  function Split(rules: Rules, w: Pair -> nat): Pair -> nat
  {
    p => SplitWeight(rules, w, p)
  }

  function SplitWeight(rules: Rules, w: Pair -> nat, p: Pair): nat
  {
    if p in rules then w((p.0, rules[p])) + w((rules[p], p.1)) else 0
  }

  /** A step replaces each adjacent pair by the two pairs its rule makes of it. */
  lemma {:induction false} ExpandWeight(s: string, rules: Rules, w: Pair -> nat)
    requires Covered(s, rules)
    ensures PathWeight(Expand(s, rules), w) == PathWeight(s, Split(rules, w))
    decreases |s|
  {
    if |s| >= 2 {
      var m := rules[(s[0], s[1])];
      var e := Expand(s[1..], rules);
      assert Covered(s[1..], rules) by {
        assert forall i :: 0 <= i < |s| - 1 ==> s[1..][i] == s[i + 1];
      }
      ExpandWeight(s[1..], rules, w);
      var r := [s[0], m] + e;
      assert r[1..] == [m] + e;
      assert ([m] + e)[1..] == e;
      assert e[0] == s[1];
    }
  }

  /** The counter c stands for the polymer t: every weight of its counts is that of t's adjacent pairs. */
  ghost predicate Represents(c: Counter<Pair>, t: string)
  {
    forall w :: Weighted(c, w) == PathWeight(t, w)
  }

  // ---------------------------------------------------------------------------
  // breakdown_structure
  // ---------------------------------------------------------------------------

  /** The pairs AC and CB that pair AB becomes under the rule AB -> C, each n more times. */
  function Insertion(acc: Counter<Pair>, p: Pair, n: nat, rules: Rules): Counter<Pair>
    requires p in rules
  {
    var m := rules[p];
    Add(Add(acc, (p.0, m), n), (m, p.1), n)
  }

  /** The new counts for the entries c, added to acc in order; a pair without a rule is the KeyError. */
  function BreakdownFrom(acc: Counter<Pair>, c: Counter<Pair>, rules: Rules): Result<Counter<Pair>>
    decreases |c|
  {
    if c == [] then Ok(acc)
    else if c[0].0 !in rules then Err(KeyError)
    else BreakdownFrom(Insertion(acc, c[0].0, c[0].1, rules), c[1..], rules)
  }

  function Breakdown(c: Counter<Pair>, rules: Rules): Result<Counter<Pair>>
  {
    BreakdownFrom([], c, rules)
  }

  /** `breakdown_structure`: a fresh counter filled entry by entry. */
  method BreakdownStructure(c: Counter<Pair>, rules: Rules) returns (r: Result<Counter<Pair>>)
    ensures r == Breakdown(c, rules)
  {
    var acc: Counter<Pair> := [];
    for k := 0 to |c|
      invariant BreakdownFrom(acc, c[k..], rules) == Breakdown(c, rules)
    {
      assert c[k..][0] == c[k] && c[k..][1..] == c[k + 1..];
      var (p, n) := c[k];
      if p !in rules {
        return Err(KeyError);
      }
      var m := rules[p];
      acc := Add(acc, (p.0, m), n);
      acc := Add(acc, (m, p.1), n);
    }
    assert c[|c|..] == [];
    return Ok(acc);
  }

  /** The step succeeds exactly when every pair counted has a rule; otherwise it is the KeyError. */
  lemma {:induction false} BreakdownOk(acc: Counter<Pair>, c: Counter<Pair>, rules: Rules)
    ensures BreakdownFrom(acc, c, rules).Ok? <==> Keys(c) <= rules.Keys
    ensures BreakdownFrom(acc, c, rules).Err? ==> BreakdownFrom(acc, c, rules).error == KeyError
    decreases |c|
  {
    if c != [] {
      Uncons(c);
      if c[0].0 in rules {
        BreakdownOk(Insertion(acc, c[0].0, c[0].1, rules), c[1..], rules);
      }
    }
  }

  /**
   * Each pair AB with rule C hands its count to AC and to CB: every weight of
   * the new counts is that of the old counts spread by the rules.
   */
  lemma {:induction false} BreakdownWeighted(acc: Counter<Pair>, c: Counter<Pair>, rules: Rules, w: Pair -> nat)
    requires BreakdownFrom(acc, c, rules).Ok?
    ensures Weighted(BreakdownFrom(acc, c, rules).value, w) == Weighted(acc, w) + Weighted(c, Split(rules, w))
    decreases |c|
  {
    if c != [] {
      var (p, n) := c[0];
      var m := rules[p];
      var spread := Split(rules, w);
      var next := Insertion(acc, p, n, rules);
      assert BreakdownFrom(acc, c, rules) == BreakdownFrom(next, c[1..], rules);
      BreakdownWeighted(next, c[1..], rules, w);
      AddWeighted(acc, (p.0, m), n, w);
      AddWeighted(Add(acc, (p.0, m), n), (m, p.1), n, w);
      assert Weighted(next, w) == Weighted(acc, w) + n * w((p.0, m)) + n * w((m, p.1));
      assert spread(p) == w((p.0, m)) + w((m, p.1));
      Factor(n, w((p.0, m)), w((m, p.1)));
      assert Weighted(c, spread) == n * spread(p) + Weighted(c[1..], spread);
    }
  }

  lemma {:induction false} BreakdownShape(acc: Counter<Pair>, c: Counter<Pair>, rules: Rules)
    requires BreakdownFrom(acc, c, rules).Ok?
    ensures Keyed(acc) ==> Keyed(BreakdownFrom(acc, c, rules).value)
    ensures Positive(acc) && Positive(c) ==> Positive(BreakdownFrom(acc, c, rules).value)
    decreases |c|
  {
    if c != [] {
      var (p, n) := c[0];
      var m := rules[p];
      AddKeys(acc, (p.0, m), n);
      AddKeys(Add(acc, (p.0, m), n), (m, p.1), n);
      Uncons(c);
      BreakdownShape(Insertion(acc, p, n, rules), c[1..], rules);
    }
  }

  lemma {:induction false} GetWeighted<K>(c: Counter<K>, q: K)
    requires Keyed(c)
    ensures Get(c, q) == Weighted(c, Ind(q))
    decreases |c|
  {
    if c != [] {
      Uncons(c);
      GetWeighted(c[1..], q);
      if c[0].0 == q {
        NotCounted(c[1..], q);
      }
    }
  }

  lemma {:induction false} NotCounted<K>(c: Counter<K>, q: K)
    requires q !in Keys(c)
    ensures Weighted(c, Ind(q)) == 0
    decreases |c|
  {
    if c != [] {
      Uncons(c);
      NotCounted(c[1..], q);
    }
  }

  lemma {:induction false} SplitOne(c: Counter<Pair>, rules: Rules)
    requires Keys(c) <= rules.Keys
    ensures Weighted(c, Split(rules, One())) == 2 * Weighted(c, One())
    decreases |c|
  {
    if c != [] {
      Uncons(c);
      SplitOne(c[1..], rules);
    }
  }

  /**
   * `breakdown_structure` on a counter with one entry per key: the new count
   * of a pair is what the pairs that produce it hand over, and the total
   * number of pairs doubles.
   */
  lemma BreakdownCounts(c: Counter<Pair>, rules: Rules, q: Pair)
    requires Keys(c) <= rules.Keys
    ensures Breakdown(c, rules).Ok?
    ensures Get(Breakdown(c, rules).value, q) == Weighted(c, Split(rules, Ind(q)))
    ensures Weighted(Breakdown(c, rules).value, One()) == 2 * Weighted(c, One())
  {
    BreakdownOk([], c, rules);
    BreakdownWeighted([], c, rules, Ind(q));
    BreakdownWeighted([], c, rules, One());
    BreakdownShape([], c, rules);
    GetWeighted(Breakdown(c, rules).value, q);
    SplitOne(c, rules);
  }

  // ---------------------------------------------------------------------------
  // The initial counter of part_1 and part_2
  // ---------------------------------------------------------------------------

  /** The adjacent pairs of s counted into acc, left to right. */
  function PairsFrom(acc: Counter<Pair>, s: string): Counter<Pair>
    decreases |s|
  {
    if |s| < 2 then acc else PairsFrom(Add(acc, (s[0], s[1]), 1), s[1..])
  }

  function PairCounts(s: string): Counter<Pair>
  {
    PairsFrom([], s)
  }

  /** The loop of `part_1` and `part_2` that counts the adjacent pairs of the template. */
  method InitialCounter(template: string) returns (c: Counter<Pair>)
    ensures c == PairCounts(template)
  {
    c := [];
    var i := 0;
    while i < |template| - 1
      invariant 0 <= i <= |template|
      invariant PairsFrom(c, template[i..]) == PairCounts(template)
    {
      assert template[i..][0] == template[i] && template[i..][1] == template[i + 1];
      assert template[i..][1..] == template[i + 1..];
      c := Add(c, (template[i], template[i + 1]), 1);
      i := i + 1;
    }
  }

  lemma {:induction false} PairsWeighted(acc: Counter<Pair>, s: string, w: Pair -> nat)
    ensures Weighted(PairsFrom(acc, s), w) == Weighted(acc, w) + PathWeight(s, w)
    ensures Keyed(acc) ==> Keyed(PairsFrom(acc, s))
    ensures Positive(acc) ==> Positive(PairsFrom(acc, s))
    decreases |s|
  {
    if |s| >= 2 {
      AddWeighted(acc, (s[0], s[1]), 1, w);
      AddKeys(acc, (s[0], s[1]), 1);
      PairsWeighted(Add(acc, (s[0], s[1]), 1), s[1..], w);
    }
  }

  lemma PairCountsRepresent(s: string)
    ensures Represents(PairCounts(s), s) && Positive(PairCounts(s)) && Keyed(PairCounts(s))
  {
    forall w
      ensures Weighted(PairCounts(s), w) == PathWeight(s, w)
    {
      PairsWeighted([], s, w);
    }
    PairsWeighted([], s, One());
  }

  lemma {:induction false} PathCount(s: string)
    ensures PathWeight(s, One()) == if |s| == 0 then 0 else |s| - 1
    decreases |s|
  {
    if |s| >= 2 {
      PathCount(s[1..]);
    }
  }

  /**
   * The initial counter holds each adjacent pair of the template once per
   * occurrence, and len - 1 pairs in all.
   */
  lemma InitialCounts(s: string, q: Pair)
    ensures Get(PairCounts(s), q) == PathWeight(s, Ind(q))
    ensures Weighted(PairCounts(s), One()) == if |s| == 0 then 0 else |s| - 1
  {
    PairCountsRepresent(s);
    GetWeighted(PairCounts(s), q);
    PathCount(s);
  }

  // ---------------------------------------------------------------------------
  // The steps
  // ---------------------------------------------------------------------------

  /** The counter after n steps. */
  function Steps(c: Counter<Pair>, rules: Rules, n: nat): Result<Counter<Pair>>
  {
    if n == 0 then Ok(c)
    else
      match Steps(c, rules, n - 1)
      case Err(e) => Err(e)
      case Ok(d) => Breakdown(d, rules)
  }

  /** The pair counted at position i of s. */
  lemma {:induction false} PathHasPair(s: string, i: nat)
    requires i < |s| - 1
    ensures PathWeight(s, Ind((s[i], s[i + 1]))) > 0
    decreases i
  {
    if i > 0 {
      assert s[1..][i - 1] == s[i] && s[1..][i] == s[i + 1];
      PathHasPair(s[1..], i - 1);
    }
  }

  /** A pair counted in s is adjacent somewhere in s. */
  lemma {:induction false} PathPairIn(s: string, q: Pair) returns (i: nat)
    requires PathWeight(s, Ind(q)) > 0
    ensures i < |s| - 1 && (s[i], s[i + 1]) == q
    decreases |s|
  {
    if (s[0], s[1]) == q {
      i := 0;
    } else {
      var j := PathPairIn(s[1..], q);
      i := j + 1;
      assert s[1..][j] == s[i] && s[1..][j + 1] == s[i + 1];
    }
  }

  /** A counter with positive counts that stands for t has a rule for each key exactly when t is covered. */
  lemma CoveredIffRuled(c: Counter<Pair>, t: string, rules: Rules)
    requires Represents(c, t) && Positive(c)
    ensures Keys(c) <= rules.Keys <==> Covered(t, rules)
  {
    if Keys(c) <= rules.Keys {
      forall i | 0 <= i < |t| - 1
        ensures (t[i], t[i + 1]) in rules
      {
        var q := (t[i], t[i + 1]);
        PathHasPair(t, i);
        assert Weighted(c, Ind(q)) == PathWeight(t, Ind(q));
        KeyIffCounted(c, q);
      }
    }
    if Covered(t, rules) {
      forall q | q in Keys(c)
        ensures q in rules
      {
        KeyIffCounted(c, q);
        assert Weighted(c, Ind(q)) == PathWeight(t, Ind(q));
        var i := PathPairIn(t, q);
      }
    }
  }

  /** One step of the counter stands for one step of the polymer. */
  lemma StepRepresents(c: Counter<Pair>, t: string, rules: Rules)
    requires Represents(c, t) && Positive(c) && Covered(t, rules)
    ensures Breakdown(c, rules).Ok?
    ensures Represents(Breakdown(c, rules).value, Expand(t, rules)) && Positive(Breakdown(c, rules).value)
  {
    CoveredIffRuled(c, t, rules);
    BreakdownOk([], c, rules);
    forall w
      ensures Weighted(Breakdown(c, rules).value, w) == PathWeight(Expand(t, rules), w)
    {
      BreakdownWeighted([], c, rules, w);
      assert Weighted(c, Split(rules, w)) == PathWeight(t, Split(rules, w));
      ExpandWeight(t, rules, w);
    }
    BreakdownShape([], c, rules);
  }

  /**
   * After n steps the pair counter stands for the polymer grown n times, and
   * the counting meets a pair without a rule exactly when the growth does.
   */
  lemma {:induction false} StepsRepresent(s: string, rules: Rules, n: nat)
    ensures Steps(PairCounts(s), rules, n).Ok? <==> Grow(s, rules, n).Ok?
    ensures Steps(PairCounts(s), rules, n).Err? ==> Steps(PairCounts(s), rules, n).error == KeyError
    ensures Grow(s, rules, n).Ok? ==>
      && Represents(Steps(PairCounts(s), rules, n).value, Grow(s, rules, n).value)
      && Positive(Steps(PairCounts(s), rules, n).value)
      && (|s| > 0 ==>
            |Grow(s, rules, n).value| > 0 && Grow(s, rules, n).value[|Grow(s, rules, n).value| - 1] == s[|s| - 1])
  {
    if n == 0 {
      PairCountsRepresent(s);
    } else {
      StepsRepresent(s, rules, n - 1);
      var prev := Steps(PairCounts(s), rules, n - 1);
      if prev.Ok? {
        var c := prev.value;
        var t := Grow(s, rules, n - 1).value;
        CoveredIffRuled(c, t, rules);
        BreakdownOk([], c, rules);
        if Covered(t, rules) {
          StepRepresents(c, t, rules);
        }
      }
    }
  }

  // ---------------------------------------------------------------------------
  // get_puzzel_answer
  // ---------------------------------------------------------------------------

  /** The weight that counts the pairs starting with x. */
  function FirstIs(x: char): Pair -> nat
  {
    (p: Pair) => if p.0 == x then 1 else 0
  }

  /** The first elements of the pairs c counted into acc. */
  function CharsFrom(acc: Counter<char>, c: Counter<Pair>): Counter<char>
    decreases |c|
  {
    if c == [] then acc else CharsFrom(Add(acc, c[0].0.0, c[0].1), c[1..])
  }

  /** The element counts: first elements of the pairs, and the last element of the template once more. */
  function CharCounts(c: Counter<Pair>, template: string): Result<Counter<char>>
  {
    if template == [] then Err(IndexError)
    else Ok(Add(CharsFrom([], c), template[|template| - 1], 1))
  }

  function Values<K>(c: Counter<K>): seq<nat>
  {
    seq(|c|, i requires 0 <= i < |c| => c[i].1)
  }

  function SeqMax(s: seq<nat>): (m: nat)
    requires s != []
    ensures m in s && forall x :: x in s ==> x <= m
  {
    if |s| == 1 then s[0]
    else
      var m := SeqMax(s[1..]);
      assert forall x :: x in s[1..] ==> x in s;
      assert forall x :: x in s ==> x == s[0] || x in s[1..];
      if s[0] >= m then s[0] else m
  }

  function SeqMin(s: seq<nat>): (m: nat)
    requires s != []
    ensures m in s && forall x :: x in s ==> m <= x
  {
    if |s| == 1 then s[0]
    else
      var m := SeqMin(s[1..]);
      assert forall x :: x in s[1..] ==> x in s;
      assert forall x :: x in s ==> x == s[0] || x in s[1..];
      if s[0] <= m then s[0] else m
  }

  /** The answer: the largest element count minus the smallest; an empty template is the IndexError. */
  function PuzzleAnswer(c: Counter<Pair>, template: string): Result<int>
  {
    match CharCounts(c, template)
    case Err(e) => Err(e)
    case Ok(counts) => Ok(SeqMax(Values(counts)) - SeqMin(Values(counts)))
  }

  /** `get_puzzel_answer`: the element counter is filled in a loop, then max minus min of its values. */
  method GetPuzzleAnswer(c: Counter<Pair>, template: string) returns (r: Result<int>)
    ensures r == PuzzleAnswer(c, template)
  {
    var counts: Counter<char> := [];
    for k := 0 to |c|
      invariant CharsFrom(counts, c[k..]) == CharsFrom([], c)
    {
      assert c[k..][0] == c[k] && c[k..][1..] == c[k + 1..];
      counts := Add(counts, c[k].0.0, c[k].1);
    }
    assert c[|c|..] == [];
    if template == [] {
      return Err(IndexError);
    }
    counts := Add(counts, template[|template| - 1], 1);
    var values := Values(counts);
    return Ok(SeqMax(values) - SeqMin(values));
  }

  lemma {:induction false} CharsCounts(acc: Counter<char>, c: Counter<Pair>, x: char)
    ensures Get(CharsFrom(acc, c), x) == Get(acc, x) + Weighted(c, FirstIs(x))
    decreases |c|
  {
    if c != [] {
      AddGet(acc, c[0].0.0, c[0].1, x);
      CharsCounts(Add(acc, c[0].0.0, c[0].1), c[1..], x);
    }
  }

  lemma {:induction false} CharsKeys(acc: Counter<char>, c: Counter<Pair>)
    ensures Keys(CharsFrom(acc, c)) == Keys(acc) + set k | k in Keys(c) :: k.0
    ensures Keyed(acc) ==> Keyed(CharsFrom(acc, c))
    decreases |c|
  {
    if c != [] {
      AddKeys(acc, c[0].0.0, c[0].1);
      CharsKeys(Add(acc, c[0].0.0, c[0].1), c[1..]);
      Uncons(c);
    }
  }

  /** The first elements of the adjacent pairs of t are its elements but the last. */
  lemma {:induction false} PathFirsts(t: string, x: char)
    requires t != []
    ensures PathWeight(t, FirstIs(x)) + (if t[|t| - 1] == x then 1 else 0) == multiset(t)[x]
    decreases |t|
  {
    if |t| >= 2 {
      PathFirsts(t[1..], x);
      assert t == [t[0]] + t[1..];
      assert t[1..][|t[1..]| - 1] == t[|t| - 1];
    }
  }

  /** The elements of t are the first elements of its adjacent pairs and its last element. */
  lemma PathFirstKeys(c: Counter<Pair>, t: string)
    requires Represents(c, t) && Positive(c) && t != []
    ensures (set k | k in Keys(c) :: k.0) + {t[|t| - 1]} == set x | x in t
  {
    forall x | x in t
      ensures x in (set k | k in Keys(c) :: k.0) + {t[|t| - 1]}
    {
      var i :| 0 <= i < |t| && t[i] == x;
      if i < |t| - 1 {
        var q := (t[i], t[i + 1]);
        PathHasPair(t, i);
        assert Weighted(c, Ind(q)) == PathWeight(t, Ind(q));
        KeyIffCounted(c, q);
      }
    }
    forall k | k in Keys(c)
      ensures k.0 in t
    {
      KeyIffCounted(c, k);
      assert Weighted(c, Ind(k)) == PathWeight(t, Ind(k));
      var i := PathPairIn(t, k);
    }
  }

  /** x is among the most common (hi) or least common (lo) elements of t, by occurrences. */
  predicate MostCommon(t: string, x: char)
  {
    x in t && forall z :: z in t ==> multiset(t)[z] <= multiset(t)[x]
  }

  predicate LeastCommon(t: string, x: char)
  {
    x in t && forall z :: z in t ==> multiset(t)[x] <= multiset(t)[z]
  }

  /**
   * For a counter that stands for polymer t whose last element is the
   * template's, the answer is the occurrences of the most common element of
   * t minus those of the least common one.
   */
  lemma AnswerMeaning(c: Counter<Pair>, t: string, template: string)
    requires Represents(c, t) && Positive(c) && t != [] && template != []
    requires t[|t| - 1] == template[|template| - 1]
    ensures PuzzleAnswer(c, template).Ok?
    ensures exists hi, lo ::
      MostCommon(t, hi) && LeastCommon(t, lo) && PuzzleAnswer(c, template).value == multiset(t)[hi] - multiset(t)[lo]
  {
    var counts := Add(CharsFrom([], c), t[|t| - 1], 1);
    CountsTally(c, t, counts);
    TallySpread(counts, t);
  }

  /** counts holds, for each element of t, its number of occurrences, once. */
  ghost predicate Tally(counts: Counter<char>, t: string)
  {
    && Keyed(counts)
    && Keys(counts) == (set x | x in t)
    && forall j :: 0 <= j < |counts| ==> counts[j].1 == multiset(t)[counts[j].0]
  }

  lemma CountsTally(c: Counter<Pair>, t: string, counts: Counter<char>)
    requires Represents(c, t) && Positive(c) && t != []
    requires counts == Add(CharsFrom([], c), t[|t| - 1], 1)
    ensures Tally(counts, t)
  {
    var last := t[|t| - 1];
    CharsKeys([], c);
    AddKeys(CharsFrom([], c), last, 1);
    PathFirstKeys(c, t);
    forall j | 0 <= j < |counts|
      ensures counts[j].1 == multiset(t)[counts[j].0]
    {
      var x := counts[j].0;
      GetEntry(counts, j);
      AddGet(CharsFrom([], c), last, 1, x);
      CharsCounts([], c, x);
      assert Weighted(c, FirstIs(x)) == PathWeight(t, FirstIs(x));
      PathFirsts(t, x);
    }
  }

  lemma TallySpread(counts: Counter<char>, t: string)
    requires Tally(counts, t) && counts != []
    ensures exists hi, lo ::
      MostCommon(t, hi) && LeastCommon(t, lo)
      && SeqMax(Values(counts)) - SeqMin(Values(counts)) == multiset(t)[hi] - multiset(t)[lo]
  {
    var vs := Values(counts);
    var hi :| 0 <= hi < |counts| && vs[hi] == SeqMax(vs);
    var lo :| 0 <= lo < |counts| && vs[lo] == SeqMin(vs);
    assert counts[hi].0 in Keys(counts) && counts[lo].0 in Keys(counts);
    assert vs[hi] == counts[hi].1 == multiset(t)[counts[hi].0];
    assert vs[lo] == counts[lo].1 == multiset(t)[counts[lo].0];
    forall z | z in t
      ensures multiset(t)[counts[lo].0] <= multiset(t)[z] <= multiset(t)[counts[hi].0]
    {
      assert z in Keys(counts);
      var j :| 0 <= j < |counts| && counts[j].0 == z;
      assert vs[j] in vs && vs[j] == counts[j].1 == multiset(t)[z];
      assert SeqMin(vs) <= vs[j] <= SeqMax(vs);
    }
    assert MostCommon(t, counts[hi].0) && LeastCommon(t, counts[lo].0);
  }

  // ---------------------------------------------------------------------------
  // part_1 and part_2
  // ---------------------------------------------------------------------------

  /** The answer after n steps of the counter. */
  function PolymerAnswer(template: string, rules: Rules, n: nat): Result<int>
  {
    match Steps(PairCounts(template), rules, n)
    case Err(e) => Err(e)
    case Ok(c) => PuzzleAnswer(c, template)
  }

  /** `part_1` (10 steps) and `part_2` (40 steps) without the file reading and printing. */
  method Polymerize(template: string, rules: Rules, n: nat) returns (r: Result<int>)
    ensures r == PolymerAnswer(template, rules, n)
  {
    var c := InitialCounter(template);
    for k := 0 to n
      invariant Steps(PairCounts(template), rules, k) == Ok(c)
    {
      var next := BreakdownStructure(c, rules);
      if next.Err? {
        StepsErrStays(template, rules, k + 1, n);
        return Err(next.error);
      }
      c := next.value;
    }
    r := GetPuzzleAnswer(c, template);
  }

  lemma {:induction false} StepsErrStays(template: string, rules: Rules, k: nat, n: nat)
    requires k <= n && Steps(PairCounts(template), rules, k).Err?
    ensures Steps(PairCounts(template), rules, n) == Steps(PairCounts(template), rules, k)
    decreases n - k
  {
    if k < n {
      StepsErrStays(template, rules, k, n - 1);
    }
  }

  /**
   * What `part_1` and `part_2` print: an empty template is the IndexError and
   * a step that meets a pair without a rule is the KeyError.
   */
  lemma PolymerMeaning(template: string, rules: Rules, n: nat)
    ensures template == [] ==> PolymerAnswer(template, rules, n) == Err(IndexError)
    ensures template != [] && Grow(template, rules, n).Err? ==> PolymerAnswer(template, rules, n) == Err(KeyError)
  {
    StepsRepresent(template, rules, n);
    if template == [] {
      EmptyGrows(rules, n);
    }
  }

  /** When the polymer grows n times into t, the answer is the spread of t's element counts. */
  lemma PolymerGrown(template: string, rules: Rules, n: nat, t: string)
    requires template != [] && Grow(template, rules, n) == Ok(t)
    ensures exists hi, lo ::
      MostCommon(t, hi) && LeastCommon(t, lo) && PolymerAnswer(template, rules, n) == Ok(multiset(t)[hi] - multiset(t)[lo])
  {
    StepsRepresent(template, rules, n);
    var c := Steps(PairCounts(template), rules, n).value;
    AnswerMeaning(c, t, template);
    assert PolymerAnswer(template, rules, n) == PuzzleAnswer(c, template);
    var hi, lo :| MostCommon(t, hi) && LeastCommon(t, lo)
      && PuzzleAnswer(c, template).value == multiset(t)[hi] - multiset(t)[lo];
    assert PolymerAnswer(template, rules, n) == Ok(multiset(t)[hi] - multiset(t)[lo]);
  }

  lemma {:induction false} EmptyGrows(rules: Rules, n: nat)
    ensures Grow([], rules, n) == Ok([])
  {
    if n > 0 {
      EmptyGrows(rules, n - 1);
    }
  }

  // ---------------------------------------------------------------------------
  // The documented examples
  // ---------------------------------------------------------------------------

  /** Counting a key that has no entry appends one. */
  lemma {:induction false} AddNew<K>(c: Counter<K>, k: K, n: nat)
    requires forall i :: 0 <= i < |c| ==> c[i].0 != k
    ensures Add(c, k, n) == c + [(k, n)]
    decreases |c|
  {
    if c != [] {
      assert forall i :: 0 <= i < |c| - 1 ==> c[1..][i] == c[i + 1];
      AddNew(c[1..], k, n);
      assert c == [c[0]] + c[1..];
    }
  }

  /** Counting a key that has the last entry raises that entry. */
  lemma {:induction false} AddOld<K>(c: Counter<K>, x: (K, nat), n: nat)
    requires forall i :: 0 <= i < |c| ==> c[i].0 != x.0
    ensures Add(c + [x], x.0, n) == c + [(x.0, x.1 + n)]
    decreases |c|
  {
    if c != [] {
      assert forall i :: 0 <= i < |c| - 1 ==> c[1..][i] == c[i + 1];
      AddOld(c[1..], x, n);
      assert (c + [x])[0] == c[0] && (c + [x])[1..] == c[1..] + [x];
      assert c == [c[0]] + c[1..];
    }
  }

  /** `breakdown_structure(Counter(AB = 1), {"AB":"C"})` is `Counter({'AC': 1, 'CB': 1})`. */
  lemma BreakdownExample(c: Counter<Pair>, rules: Rules)
    requires c == [(('A', 'B'), 1)] && rules == map[('A', 'B') := 'C']
    ensures Breakdown(c, rules) == Ok([(('A', 'C'), 1), (('C', 'B'), 1)])
  {
    var ac := [(('A', 'C'), 1)];
    assert Add([], ('A', 'C'), 1) == ac;
    AddNew(ac, ('C', 'B'), 1);
    assert Insertion([], ('A', 'B'), 1, rules) == ac + [(('C', 'B'), 1)];
    assert c[0] == (('A', 'B'), 1) && c[1..] == [];
    var both := ac + [(('C', 'B'), 1)];
    assert both == [(('A', 'C'), 1), (('C', 'B'), 1)];
    assert BreakdownFrom([], c, rules) == BreakdownFrom(both, [], rules) == Ok(both);
  }

  /** `breakdown_structure(Counter(AB = 1, BC = 4), {"AB":"C", "BC":"A"})` is `Counter({'AC': 5, 'BA': 4, 'CB': 1})`. */
  lemma BreakdownTwoRulesExample(c: Counter<Pair>, rules: Rules)
    requires c == [(('A', 'B'), 1), (('B', 'C'), 4)] && rules == map[('A', 'B') := 'C', ('B', 'C') := 'A']
    ensures Breakdown(c, rules) == Ok([(('A', 'C'), 5), (('C', 'B'), 1), (('B', 'A'), 4)])
  {
    var ac := [(('A', 'C'), 1)];
    var first := ac + [(('C', 'B'), 1)];
    assert Add([], ('A', 'C'), 1) == ac;
    AddNew(ac, ('C', 'B'), 1);
    assert Insertion([], ('A', 'B'), 1, rules) == first;
    AddNew(first, ('B', 'A'), 4);
    var second := first + [(('B', 'A'), 4)];
    assert second[0] == (('A', 'C'), 1);
    assert Add(second, ('A', 'C'), 4) == [(('A', 'C'), 5)] + second[1..];
    var last := [(('A', 'C'), 5), (('C', 'B'), 1), (('B', 'A'), 4)];
    assert Insertion(first, ('B', 'C'), 4, rules) == last;
    assert c[0] == (('A', 'B'), 1) && c[1..] == [(('B', 'C'), 4)] && c[1..][1..] == [];
    assert BreakdownFrom([], c, rules) == BreakdownFrom(first, c[1..], rules);
    assert BreakdownFrom(first, c[1..], rules) == BreakdownFrom(last, [], rules);
  }

  /** `get_puzzel_answer(Counter({'AC': 5, 'BA': 4, 'CB': 1}), "ABC")` is 3. */
  lemma PuzzleAnswerExample(c: Counter<Pair>, template: string)
    requires c == [(('A', 'C'), 5), (('B', 'A'), 4), (('C', 'B'), 1)] && template == "ABC"
    ensures PuzzleAnswer(c, template) == Ok(3)
  {
    var a := [('A', 5)];
    var ab := a + [('B', 4)];
    var abc := ab + [('C', 1)];
    assert Add([], 'A', 5) == a;
    AddNew(a, 'B', 4);
    AddNew(ab, 'C', 1);
    assert CharsFrom([], c) == abc by {
      var c1, c2 := c[1..], c[1..][1..];
      assert c1 == [(('B', 'A'), 4), (('C', 'B'), 1)] && c2 == [(('C', 'B'), 1)] && c2[1..] == [];
      assert CharsFrom([], c) == CharsFrom(a, c1);
      assert CharsFrom(a, c1) == CharsFrom(ab, c2);
      assert CharsFrom(ab, c2) == CharsFrom(abc, []);
    }
    AddOld(ab, ('C', 1), 1);
    var counts := ab + [('C', 2)];
    assert CharCounts(c, template) == Ok(counts);
    assert Values(counts) == [5, 4, 2];
    assert [5, 4, 2][1..] == [4, 2] && [4, 2][1..] == [2];
    assert SeqMax([5, 4, 2]) == 5 && SeqMin([5, 4, 2]) == 2;
  }
}
