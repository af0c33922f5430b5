/**
 * Seven-segment search: deduce from the ten scrambled patterns of one
 * display which wire drives which segment, then decode the output patterns
 * through the seven-segment table.
 */
module Day8Segments {
  import opened Common
  import opened Decimal

  /** A pattern: the wires lit for one digit, in any order. */
  type Pattern = string

  /** Scrambled wire to segment. */
  type Mapping = map<char, char>

  /*
   * find_mapping, stage by stage. Each stage is the value its loop leaves
   * behind, stated as a fold over the patterns seen so far.
   */

  /** The last pattern with n wires; none when there is no such pattern. */
  function LastOfLength(reference: seq<Pattern>, n: nat): (r: Option<Pattern>)
    ensures r.Some? ==> |r.value| == n && r.value in reference
    ensures r.None? ==> forall k :: 0 <= k < |reference| ==> |reference[k]| != n
  {
    if reference == [] then None
    else if |reference[|reference| - 1]| == n then Some(reference[|reference| - 1])
    else LastOfLength(reference[..|reference| - 1], n)
  }

  /** A six-wire pattern that holds exactly one wire of the pair. */
  predicate SplitsPair(digit: Pattern, pair: Pattern)
    requires |pair| == 2
  {
    |digit| == 6 && ((pair[0] in digit) != (pair[1] in digit))
  }

  /** Whether the first wire of the pair is lit in the last pattern that splits the pair. */
  function LastSplit(reference: seq<Pattern>, pair: Pattern): (r: Option<bool>)
    requires |pair| == 2
    ensures r.Some? ==> pair[0] != pair[1]
  {
    if reference == [] then None
    else if SplitsPair(reference[|reference| - 1], pair) then Some(pair[0] in reference[|reference| - 1])
    else LastSplit(reference[..|reference| - 1], pair)
  }

  /** The wire of the pair found in the splitting pattern gets `hit`, the other `miss`. */
  function ApplySplit(m: Mapping, pair: Pattern, split: Option<bool>, hit: char, miss: char): Mapping
    requires |pair| == 2
  {
    match split
    case None => m
    case Some(first) => if first then m[pair[0] := hit][pair[1] := miss] else m[pair[1] := hit][pair[0] := miss]
  }

  /** The wires of a pattern, in order, without those listed in `drop`. */
  function Without(s: string, drop: set<char>): (r: string)
    ensures forall k :: 0 <= k < |r| ==> r[k] in s && r[k] !in drop
  {
    if s == [] then []
    else Without(s[..|s| - 1], drop) + (if s[|s| - 1] in drop then [] else [s[|s| - 1]])
  }

  /** The wires of a string, as a set. */
  function Wires(s: string): set<char>
  {
    set k | 0 <= k < |s| :: s[k]
  }

  /** Every wire of a three-wire pattern that is not one of the pair. */
  function ThreeWireExtras(reference: seq<Pattern>, pair: Pattern): set<char>
  {
    if reference == [] then {}
    else
      var last := reference[|reference| - 1];
      ThreeWireExtras(reference[..|reference| - 1], pair)
        + (if |last| == 3 then Wires(last) - Wires(pair) else {})
  }

  /** The mapping with every wire of `keys` sent to v. */
  function Assign(m: Mapping, keys: set<char>, v: char): Mapping
  {
    map k | k in m.Keys + keys :: if k in keys then v else m[k]
  }

  const Segments: string := "abcdefg"

  /** `find_mapping`: every stage and the assertion or name error that ends it. */
  function FindMappingSpec(reference: seq<Pattern>): Result<Mapping>
  {
    match LastOfLength(reference, 2)
    case None => Err(NameError)
    case Some(cf) =>
      var m2 := ApplySplit(map[], cf, LastSplit(reference, cf), 'f', 'c');
      if |m2| != 2 then Err(AssertionError)
      else
        var m3 := Assign(m2, ThreeWireExtras(reference, cf), 'a');
        if |m3| != 3 then Err(AssertionError)
        else FromFour(reference, cf, m3)
  }

  /** The stages from the four-wire pattern on. */
  function FromFour(reference: seq<Pattern>, cf: Pattern, m3: Mapping): Result<Mapping>
  {
    match LastOfLength(reference, 4)
    case None => Err(NameError)
    case Some(four) =>
      var bd := Without(four, Wires(cf));
      if |bd| != 2 then Err(AssertionError)
      else
        var m5 := ApplySplit(m3, bd, LastSplit(reference, bd), 'b', 'd');
        if |m5| != 5 then Err(AssertionError)
        else FromNine(reference, m5)
  }

  /** The last stages: the two unassigned segments, told apart by the six-wire patterns. */
  function FromNine(reference: seq<Pattern>, m5: Mapping): Result<Mapping>
  {
    var eg := Without(Segments, m5.Keys);
    if |eg| != 2 then Err(AssertionError)
    else
      var m7 := ApplySplit(m5, eg, LastSplit(reference, eg), 'g', 'e');
      if |m7| != 7 then Err(AssertionError) else Ok(m7)
  }

  /** The search loops of stages one and four: the last pattern with n wires. */
  method FindLast(reference: seq<Pattern>, n: nat) returns (found: Option<Pattern>)
    ensures found == LastOfLength(reference, n)
  {
    found := None;
    for i := 0 to |reference|
      invariant found == LastOfLength(reference[..i], n)
    {
      assert reference[..i + 1][..i] == reference[..i];
      if |reference[i]| == n {
        found := Some(reference[i]);
      }
    }
    assert reference[..|reference|] == reference;
  }

  /** Resolving a pair again overwrites the same two wires. */
  lemma {:induction false} SplitOverwrites(m: Mapping, pair: Pattern, split: Option<bool>, first: bool, hit: char, miss: char)
    requires |pair| == 2 && pair[0] != pair[1]
    ensures ApplySplit(ApplySplit(m, pair, split, hit, miss), pair, Some(first), hit, miss)
      == ApplySplit(m, pair, Some(first), hit, miss)
  {
  }

  /** The loops of stages two, five and seven: the pair is resolved by every pattern that splits it. */
  method Resolve(reference: seq<Pattern>, base: Mapping, pair: Pattern, hit: char, miss: char)
    returns (result: Mapping)
    requires |pair| == 2
    ensures result == ApplySplit(base, pair, LastSplit(reference, pair), hit, miss)
  {
    result := base;
    for i := 0 to |reference|
      invariant result == ApplySplit(base, pair, LastSplit(reference[..i], pair), hit, miss)
    {
      assert reference[..i + 1][..i] == reference[..i];
      var digit := reference[i];
      if |digit| == 6 && ((pair[0] in digit) != (pair[1] in digit)) {
        SplitOverwrites(base, pair, LastSplit(reference[..i], pair), pair[0] in digit, hit, miss);
        if pair[0] in digit {
          result := result[pair[0] := hit];
          result := result[pair[1] := miss];
        } else {
          result := result[pair[1] := hit];
          result := result[pair[0] := miss];
        }
      }
    }
    assert reference[..|reference|] == reference;
  }

  /** Assigning one more wire to the same value. */
  lemma {:induction false} AssignOneMore(m: Mapping, keys: set<char>, v: char, x: char)
    ensures Assign(m, keys, v)[x := v] == Assign(m, keys + {x}, v)
  {
  }

  lemma {:induction false} WiresSnoc(s: string, j: nat)
    requires j < |s|
    ensures Wires(s[..j + 1]) == Wires(s[..j]) + {s[j]}
  {
    assert s[..j + 1] == s[..j] + [s[j]];
  }

  /** A character of a string is one of its wires. */
  lemma {:induction false} InWires(s: string, c: char)
    ensures c in s <==> c in Wires(s)
  {
    if c in s {
      var k :| 0 <= k < |s| && s[k] == c;
    }
  }

  /** The inner loop of stage three over one three-wire pattern. */
  method MarkDigit(current: Mapping, ghost base: Mapping, ghost before: set<char>, digit: Pattern, pair: Pattern)
    returns (result: Mapping)
    requires current == Assign(base, before, 'a')
    ensures result == Assign(base, before + (Wires(digit) - Wires(pair)), 'a')
  {
    result := current;
    for j := 0 to |digit|
      invariant result == Assign(base, before + (Wires(digit[..j]) - Wires(pair)), 'a')
    {
      WiresSnoc(digit, j);
      InWires(pair, digit[j]);
      ghost var seen := before + (Wires(digit[..j]) - Wires(pair));
      if digit[j] !in pair {
        AssignOneMore(base, seen, 'a', digit[j]);
        result := result[digit[j] := 'a'];
        assert before + (Wires(digit[..j + 1]) - Wires(pair)) == seen + {digit[j]};
      } else {
        assert before + (Wires(digit[..j + 1]) - Wires(pair)) == seen;
      }
    }
    assert digit[..|digit|] == digit;
  }

  /** The loop of stage three: every wire of a three-wire pattern outside the pair gets 'a'. */
  method MarkTop(reference: seq<Pattern>, base: Mapping, pair: Pattern) returns (result: Mapping)
    ensures result == Assign(base, ThreeWireExtras(reference, pair), 'a')
  {
    result := base;
    assert result == Assign(base, {}, 'a');
    for i := 0 to |reference|
      invariant result == Assign(base, ThreeWireExtras(reference[..i], pair), 'a')
    {
      assert reference[..i + 1][..i] == reference[..i];
      var digit := reference[i];
      if |digit| == 3 {
        result := MarkDigit(result, base, ThreeWireExtras(reference[..i], pair), digit, pair);
      }
    }
    assert reference[..|reference|] == reference;
  }

  /** The filter loops of stages four and six: the wires of s not in `drop`, in order. */
  method Filter(s: string, drop: set<char>) returns (kept: string)
    ensures kept == Without(s, drop)
  {
    kept := "";
    for j := 0 to |s|
      invariant kept == Without(s[..j], drop)
    {
      assert s[..j + 1][..j] == s[..j];
      if s[j] !in drop {
        kept := kept + [s[j]];
      }
    }
    assert s[..|s|] == s;
  }

  /** `find_mapping`, stage by stage as the source runs it. */
  method FindMapping(reference: seq<Pattern>) returns (r: Result<Mapping>)
    ensures r == FindMappingSpec(reference)
  {
    var cfOption := FindLast(reference, 2);
    if cfOption.None? {
      return Err(NameError);
    }
    var cf := cfOption.value;
    var result := Resolve(reference, map[], cf, 'f', 'c');
    if |result| != 2 {
      return Err(AssertionError);
    }
    result := MarkTop(reference, result, cf);
    if |result| != 3 {
      return Err(AssertionError);
    }
    var fourOption := FindLast(reference, 4);
    if fourOption.None? {
      return Err(NameError);
    }
    var bd := Filter(fourOption.value, Wires(cf));
    if |bd| != 2 {
      return Err(AssertionError);
    }
    result := Resolve(reference, result, bd, 'b', 'd');
    if |result| != 5 {
      return Err(AssertionError);
    }
    var eg := Filter(Segments, result.Keys);
    if |eg| != 2 {
      return Err(AssertionError);
    }
    result := Resolve(reference, result, eg, 'g', 'e');
    if |result| != 7 {
      return Err(AssertionError);
    }
    r := Ok(result);
  }

  /*
   * The shape of a mapping that passes every assertion.
   */

  /** Resolving a pair of two new wires adds both, and the two values. */
  lemma {:induction false} SplitFresh(m: Mapping, pair: Pattern, first: bool, hit: char, miss: char)
    requires |pair| == 2 && pair[0] != pair[1] && pair[0] !in m && pair[1] !in m
    ensures var r := ApplySplit(m, pair, Some(first), hit, miss);
      |r| == |m| + 2
      && r.Values == m.Values + {hit, miss}
      && forall k :: k in m ==> k in r && r[k] == m[k]
  {
    var r := ApplySplit(m, pair, Some(first), hit, miss);
    assert r.Keys == m.Keys + {pair[0], pair[1]};
    assert |r| == |r.Keys| && |m| == |m.Keys|;
    assert m.Keys * {pair[0], pair[1]} == {};
    assert m - {pair[0], pair[1]} == m;
    SplitValues(m, pair, first, hit, miss);
  }

  lemma {:induction false} SplitValues(m: Mapping, pair: Pattern, first: bool, hit: char, miss: char)
    requires |pair| == 2 && pair[0] != pair[1]
    ensures ApplySplit(m, pair, Some(first), hit, miss).Values
      == (m - {pair[0], pair[1]}).Values + {hit, miss}
  {
    var r := ApplySplit(m, pair, Some(first), hit, miss);
    var rest := m - {pair[0], pair[1]};
    forall v | v in r.Values
      ensures v in rest.Values + {hit, miss}
    {
      var k :| k in r && r[k] == v;
      if k != pair[0] && k != pair[1] {
        assert k in rest && rest[k] == v;
      }
    }
    forall v | v in rest.Values + {hit, miss}
      ensures v in r.Values
    {
      if v in rest.Values {
        var k :| k in rest && rest[k] == v;
        assert k in r && r[k] == v;
      } else if v == hit {
        var k := if first then pair[0] else pair[1];
        assert k in r && r[k] == v;
      } else {
        var k := if first then pair[1] else pair[0];
        assert k in r && r[k] == v;
      }
    }
  }

  /** Resolving a pair that reuses a wire adds at most one entry. */
  lemma {:induction false} SplitStale(m: Mapping, pair: Pattern, split: Option<bool>, hit: char, miss: char)
    requires |pair| == 2 && (pair[0] in m || pair[1] in m)
    ensures |ApplySplit(m, pair, split, hit, miss)| <= |m| + 1
  {
    if split.Some? {
      var r := ApplySplit(m, pair, split, hit, miss);
      assert r.Keys == m.Keys + {pair[0], pair[1]};
      if pair[0] in m {
        assert m.Keys + {pair[0], pair[1]} == m.Keys + {pair[1]};
      } else {
        assert m.Keys + {pair[0], pair[1]} == m.Keys + {pair[0]};
      }
    }
  }

  /** Assigning new wires adds them, and v as a value when there are any. */
  lemma {:induction false} AssignFresh(m: Mapping, keys: set<char>, v: char)
    requires forall k :: k in keys ==> k !in m
    ensures var r := Assign(m, keys, v);
      r.Keys == m.Keys + keys
      && |r| == |m| + |keys|
      && r.Values == m.Values + (if keys == {} then {} else {v})
      && forall k :: k in m ==> k in r && r[k] == m[k]
  {
    var r := Assign(m, keys, v);
    assert r.Keys == m.Keys + keys;
    assert |r| == |r.Keys| && |m| == |m.Keys|;
    assert m.Keys * keys == {};
    assert |m.Keys + keys| == |m.Keys| + |keys|;
    AssignValues(m, keys, v);
  }

  lemma {:induction false} AssignValues(m: Mapping, keys: set<char>, v: char)
    requires forall k :: k in keys ==> k !in m
    ensures Assign(m, keys, v).Values == m.Values + (if keys == {} then {} else {v})
  {
    var r := Assign(m, keys, v);
    forall u | u in r.Values
      ensures u in m.Values + (if keys == {} then {} else {v})
    {
      var k :| k in r && r[k] == u;
      if k !in keys {
        assert k in m && m[k] == u;
      }
    }
    forall u | u in m.Values + (if keys == {} then {} else {v})
      ensures u in r.Values
    {
      if u in m.Values {
        var k :| k in m && m[k] == u;
        assert k in r && r[k] == u;
      } else {
        var k :| k in keys;
        assert k in r && r[k] == u;
      }
    }
  }

  /** The wires marked 'a' are never wires of the pair. */
  lemma {:induction false} ExtrasOutsidePair(reference: seq<Pattern>, pair: Pattern)
    ensures ThreeWireExtras(reference, pair) * Wires(pair) == {}
  {
    if reference != [] {
      ExtrasOutsidePair(reference[..|reference| - 1], pair);
    }
  }

  /** The first two stages: the two-wire pattern's wires get 'c' and 'f'. */
  lemma {:induction false} StageTwo(reference: seq<Pattern>, cf: Pattern)
    requires |cf| == 2
    requires |ApplySplit(map[], cf, LastSplit(reference, cf), 'f', 'c')| == 2
    ensures LastSplit(reference, cf).Some?
    ensures var m2 := ApplySplit(map[], cf, LastSplit(reference, cf), 'f', 'c');
      m2.Keys == {cf[0], cf[1]} && m2.Values == {'f', 'c'}
  {
    var split := LastSplit(reference, cf);
    if split.Some? {
      SplitFresh(map[], cf, split.value, 'f', 'c');
    }
  }

  /** Stage three passes its assertion only with exactly one extra wire, which gets 'a'. */
  lemma {:induction false} StageThree(m2: Mapping, extras: set<char>)
    requires forall k :: k in extras ==> k !in m2
    requires |m2| == 2 && |Assign(m2, extras, 'a')| == 3
    ensures |extras| == 1
    ensures var m3 := Assign(m2, extras, 'a');
      m3.Values == m2.Values + {'a'}
      && (forall k :: k in m2 ==> k in m3 && m3[k] == m2[k])
      && forall x :: x in extras ==> x in m3 && m3[x] == 'a'
  {
    AssignFresh(m2, extras, 'a');
  }

  /** A later stage passes its assertion only by resolving two new wires. */
  lemma {:induction false} LaterStage(m: Mapping, pair: Pattern, split: Option<bool>, hit: char, miss: char)
    requires |pair| == 2 && (split.Some? ==> pair[0] != pair[1])
    requires |ApplySplit(m, pair, split, hit, miss)| == |m| + 2
    ensures split.Some? && pair[0] !in m && pair[1] !in m
    ensures var r := ApplySplit(m, pair, split, hit, miss);
      r.Values == m.Values + {hit, miss}
      && forall k :: k in m ==> k in r && r[k] == m[k]
  {
    if pair[0] in m || pair[1] in m {
      SplitStale(m, pair, split, hit, miss);
    }
    SplitFresh(m, pair, split.value, hit, miss);
  }

  /** The last stages: a passing mapping adds 'g' and 'e' to five assigned wires. */
  lemma {:induction false} NineShape(reference: seq<Pattern>, m5: Mapping, m: Mapping)
    requires |m5| == 5 && FromNine(reference, m5) == Ok(m)
    ensures |m| == 7
    ensures m.Values == m5.Values + {'g', 'e'}
    ensures forall k :: k in m5 ==> k in m && m[k] == m5[k]
  {
    var eg := Without(Segments, m5.Keys);
    LaterStage(m5, eg, LastSplit(reference, eg), 'g', 'e');
  }

  /** From the four-wire pattern on: 'b' and 'd' go to two new wires, then 'g' and 'e'. */
  lemma {:induction false} FourShape(reference: seq<Pattern>, cf: Pattern, m3: Mapping, m: Mapping)
    requires |m3| == 3 && FromFour(reference, cf, m3) == Ok(m)
    ensures |m| == 7
    ensures m.Values == m3.Values + {'b', 'd', 'g', 'e'}
    ensures forall k :: k in m3 ==> k in m && m[k] == m3[k]
  {
    var bd := Without(LastOfLength(reference, 4).value, Wires(cf));
    LaterStage(m3, bd, LastSplit(reference, bd), 'b', 'd');
    var m5 := ApplySplit(m3, bd, LastSplit(reference, bd), 'b', 'd');
    NineShape(reference, m5, m);
  }

  /**
   * A mapping that passes every assertion sends seven wires onto the seven
   * segments, each segment once; the wires of the two-wire pattern go to
   * 'c' and 'f' as the splitting six-wire pattern says, and the one extra
   * wire of the three-wire patterns goes to 'a'.
   */
  lemma {:induction false} MappingShape(reference: seq<Pattern>, m: Mapping)
    requires FindMappingSpec(reference) == Ok(m)
    ensures |m| == 7 && m.Values == {'a', 'b', 'c', 'd', 'e', 'f', 'g'}
    ensures var cf := LastOfLength(reference, 2).value;
      LastSplit(reference, cf).Some?
      && cf[0] in m && m[cf[0]] == (if LastSplit(reference, cf).value then 'f' else 'c')
      && cf[1] in m && m[cf[1]] == (if LastSplit(reference, cf).value then 'c' else 'f')
    ensures var cf := LastOfLength(reference, 2).value;
      |ThreeWireExtras(reference, cf)| == 1
      && forall x :: x in ThreeWireExtras(reference, cf) ==> x in m && m[x] == 'a'
  {
    var cf := LastOfLength(reference, 2).value;
    var m2 := ApplySplit(map[], cf, LastSplit(reference, cf), 'f', 'c');
    var m3 := Assign(m2, ThreeWireExtras(reference, cf), 'a');
    assert |m2| == 2 && |m3| == 3 && FromFour(reference, cf, m3) == Ok(m);
    StagesShape(reference, cf, m);
  }

  /** The shape of the result, given the two-wire pattern and the stages that follow it. */
  lemma {:induction false} StagesShape(reference: seq<Pattern>, cf: Pattern, m: Mapping)
    requires |cf| == 2
    requires var m2 := ApplySplit(map[], cf, LastSplit(reference, cf), 'f', 'c');
      var m3 := Assign(m2, ThreeWireExtras(reference, cf), 'a');
      |m2| == 2 && |m3| == 3 && FromFour(reference, cf, m3) == Ok(m)
    ensures |m| == 7 && m.Values == {'a', 'b', 'c', 'd', 'e', 'f', 'g'}
    ensures LastSplit(reference, cf).Some?
      && cf[0] in m && m[cf[0]] == (if LastSplit(reference, cf).value then 'f' else 'c')
      && cf[1] in m && m[cf[1]] == (if LastSplit(reference, cf).value then 'c' else 'f')
    ensures |ThreeWireExtras(reference, cf)| == 1
      && forall x :: x in ThreeWireExtras(reference, cf) ==> x in m && m[x] == 'a'
  {
    var split := LastSplit(reference, cf);
    var m2 := ApplySplit(map[], cf, split, 'f', 'c');
    var extras := ThreeWireExtras(reference, cf);
    StageTwo(reference, cf);
    ExtrasOutsidePair(reference, cf);
    FourShape(reference, cf, Assign(m2, extras, 'a'), m);
    StagesFrom(cf, split.value, m2, extras, Assign(m2, extras, 'a'), m);
  }

  /** Stages two and three, and what the later stages keep of them. */
  lemma {:induction false} StagesFrom(cf: Pattern, first: bool, m2: Mapping, extras: set<char>, m3: Mapping, m: Mapping)
    requires |cf| == 2 && cf[0] != cf[1]
    requires m2 == ApplySplit(map[], cf, Some(first), 'f', 'c') && m2.Keys == {cf[0], cf[1]} && m2.Values == {'f', 'c'}
    requires extras * Wires(cf) == {}
    requires m3 == Assign(m2, extras, 'a') && |m3| == 3
    requires |m| == 7 && m.Values == m3.Values + {'b', 'd', 'g', 'e'}
    requires forall k :: k in m3 ==> k in m && m[k] == m3[k]
    ensures m.Values == {'a', 'b', 'c', 'd', 'e', 'f', 'g'}
    ensures cf[0] in m && m[cf[0]] == (if first then 'f' else 'c')
    ensures cf[1] in m && m[cf[1]] == (if first then 'c' else 'f')
    ensures |extras| == 1 && forall x :: x in extras ==> x in m && m[x] == 'a'
  {
    forall k | k in extras
      ensures k !in m2
    {
      assert cf[0] in Wires(cf) && cf[1] in Wires(cf);
    }
    StageThree(m2, extras);
  }

  /*
   * decode: each pattern is translated wire by wire, its segments sorted,
   * and the sorted segments looked up in the seven-segment table; the
   * digits read together are the number.
   */

  /** The character codes of a string, which is what sorting a string orders by. */
  function Ords(s: string): (r: seq<int>)
    ensures |r| == |s|
  {
    seq(|s|, k requires 0 <= k < |s| => s[k] as int)
  }

  /** The seven-segment table, keyed by the codes of each digit's sorted segments. */
  const Table: map<seq<int>, char> := map[
    Ords("abcefg") := '0', Ords("cf") := '1', Ords("acdeg") := '2', Ords("acdfg") := '3',
    Ords("bcdf") := '4', Ords("abdfg") := '5', Ords("abdefg") := '6', Ords("acf") := '7',
    Ords("abcdefg") := '8', Ords("abcdfg") := '9']

  /** Every wire of the pattern is in the mapping. */
  predicate Mapped(p: Pattern, m: Mapping)
  {
    forall k :: 0 <= k < |p| ==> p[k] in m
  }

  /** The pattern translated wire by wire. */
  function Translated(p: Pattern, m: Mapping): (r: string)
    requires Mapped(p, m)
    ensures |r| == |p|
  {
    seq(|p|, k requires 0 <= k < |p| && p[k] in m => m[p[k]])
  }

  /** One digit: a wire the mapping lacks, or segments not in the table, raise a KeyError. */
  function DigitOf(p: Pattern, m: Mapping): Result<char>
  {
    if !Mapped(p, m) then Err(KeyError)
    else
      var key := SortAscending(Ords(Translated(p, m)));
      if key in Table then Ok(Table[key]) else Err(KeyError)
  }

  /** The digit characters of all patterns, or the KeyError of the first that fails. */
  function DigitsOf(encoded: seq<Pattern>, m: Mapping): (r: Result<string>)
    ensures r.Ok? ==> |r.value| == |encoded|
  {
    if forall k :: 0 <= k < |encoded| ==> DigitOf(encoded[k], m).Ok? then
      Ok(seq(|encoded|, k requires 0 <= k < |encoded| && DigitOf(encoded[k], m).Ok? => DigitOf(encoded[k], m).value))
    else Err(KeyError)
  }

  /** `decode`: the digits read as a decimal number; no patterns at all is a ValueError. */
  function DecodeSpec(encoded: seq<Pattern>, m: Mapping): Result<int>
  {
    match DigitsOf(encoded, m)
    case Err(e) => Err(e)
    case Ok(digits) => ParseInt(digits)
  }

  /** The digits collected one by one are the digits of the patterns. */
  lemma {:induction false} DigitsCollected(encoded: seq<Pattern>, m: Mapping, digits: string)
    requires |digits| == |encoded|
    requires forall k :: 0 <= k < |encoded| ==> DigitOf(encoded[k], m) == Ok(digits[k])
    ensures DigitsOf(encoded, m) == Ok(digits)
  {
    assert forall k :: 0 <= k < |encoded| ==> DigitOf(encoded[k], m).Ok?;
    var collected := seq(|encoded|, k requires 0 <= k < |encoded| && DigitOf(encoded[k], m).Ok? => DigitOf(encoded[k], m).value);
    assert collected == digits;
  }

  /** The inner loop of `decode`: one pattern translated segment by segment. */
  method TranslatePattern(digit: Pattern, mapping: Mapping) returns (decoded: Option<string>)
    ensures decoded.Some? <==> Mapped(digit, mapping)
    ensures decoded.Some? ==> decoded.value == Translated(digit, mapping)
  {
    var segments := "";
    for j := 0 to |digit|
      invariant Mapped(digit[..j], mapping)
      invariant segments == Translated(digit[..j], mapping)
    {
      if digit[j] !in mapping {
        return None;
      }
      segments := segments + [mapping[digit[j]]];
    }
    assert digit[..|digit|] == digit;
    decoded := Some(segments);
  }

  /** `decode` as the source runs it: two nested loops, then `int`. */
  method Decode(encoded: seq<Pattern>, mapping: Mapping) returns (r: Result<int>)
    ensures r == DecodeSpec(encoded, mapping)
  {
    var result := "";
    for i := 0 to |encoded|
      invariant |result| == i
      invariant forall k :: 0 <= k < i ==> DigitOf(encoded[k], mapping) == Ok(result[k])
    {
      var decoded := TranslatePattern(encoded[i], mapping);
      if decoded.None? {
        assert DigitOf(encoded[i], mapping).Err?;
        return Err(KeyError);
      }
      var key := SortAscending(Ords(decoded.value));
      if key !in Table {
        assert DigitOf(encoded[i], mapping).Err?;
        return Err(KeyError);
      }
      result := result + [Table[key]];
    }
    DigitsCollected(encoded, mapping, result);
    r := ParseInt(result);
  }

  /** The table with its keys spelled out as codes. */
  lemma {:induction false} TableCodes()
    ensures Table == map[
      [97, 98, 99, 101, 102, 103] := '0', [99, 102] := '1', [97, 99, 100, 101, 103] := '2',
      [97, 99, 100, 102, 103] := '3', [98, 99, 100, 102] := '4', [97, 98, 100, 102, 103] := '5',
      [97, 98, 100, 101, 102, 103] := '6', [97, 99, 102] := '7',
      [97, 98, 99, 100, 101, 102, 103] := '8', [97, 98, 99, 100, 102, 103] := '9']
  {
    assert Ords("abcefg") == [97, 98, 99, 101, 102, 103];
    assert Ords("cf") == [99, 102];
    assert Ords("acdeg") == [97, 99, 100, 101, 103];
    assert Ords("acdfg") == [97, 99, 100, 102, 103];
    assert Ords("bcdf") == [98, 99, 100, 102];
    assert Ords("abdfg") == [97, 98, 100, 102, 103];
    assert Ords("abdefg") == [97, 98, 100, 101, 102, 103];
    assert Ords("acf") == [97, 99, 102];
    assert Ords("abcdefg") == [97, 98, 99, 100, 101, 102, 103];
    assert Ords("abcdfg") == [97, 98, 99, 100, 102, 103];
  }

  /** The table's keys are the codes of sorted strings. */
  lemma {:induction false} TableSorted()
    ensures forall key :: key in Table ==> Sorted(key)
  {
    TableCodes();
  }

  /** The table's values are decimal digits, and each of the four easy lengths belongs to one digit. */
  lemma {:induction false} TableLengths()
    ensures forall key :: key in Table ==> IsDigit(Table[key])
    ensures forall key :: key in Table ==>
      (|key| == 2 <==> Table[key] == '1') && (|key| == 3 <==> Table[key] == '7')
      && (|key| == 4 <==> Table[key] == '4') && (|key| == 7 <==> Table[key] == '8')
  {
  }

  /** Translating and taking codes distributes over concatenation. */
  lemma {:induction false} CodesConcat(a: Pattern, b: Pattern, m: Mapping)
    requires Mapped(a, m) && Mapped(b, m)
    ensures Mapped(a + b, m)
    ensures Ords(Translated(a + b, m)) == Ords(Translated(a, m)) + Ords(Translated(b, m))
  {
  }

  /** Taking one wire out of a pattern takes its code out of the translated codes. */
  lemma {:induction false} CodesRemove(q: Pattern, i: nat, m: Mapping)
    requires i < |q| && Mapped(q, m)
    ensures multiset(q[..i] + q[i + 1..]) == multiset(q) - multiset{q[i]}
    ensures Mapped(q[..i] + q[i + 1..], m)
    ensures multiset(Ords(Translated(q, m)))
      == multiset(Ords(Translated(q[..i] + q[i + 1..], m))) + multiset{m[q[i]] as int}
  {
    var a, b := q[..i], q[i + 1..];
    assert q == a + [q[i]] + b;
    CodesConcat(a, b, m);
    CodesConcat(a + [q[i]], b, m);
    CodesConcat(a, [q[i]], m);
    var ta, tb := Ords(Translated(a, m)), Ords(Translated(b, m));
    assert Ords(Translated([q[i]], m)) == [m[q[i]] as int];
    assert Ords(Translated(q, m)) == ta + [m[q[i]] as int] + tb;
  }

  /** Patterns with the same wires, in whatever order, translate to the same codes in some order. */
  lemma {:induction false} CodesPermute(p: Pattern, q: Pattern, m: Mapping)
    requires multiset(p) == multiset(q) && Mapped(p, m)
    ensures Mapped(q, m)
    ensures multiset(Ords(Translated(p, m))) == multiset(Ords(Translated(q, m)))
  {
    forall k | 0 <= k < |q|
      ensures q[k] in m
    {
      assert q[k] in multiset(p);
    }
    if p != [] {
      var n := |p| - 1;
      assert p[n] in multiset(q);
      var i :| 0 <= i < |q| && q[i] == p[n];
      CodesRemove(p, n, m);
      CodesRemove(q, i, m);
      assert p[..n] + p[n + 1..] == p[..n];
      CodesPermute(p[..n], q[..i] + q[i + 1..], m);
    }
  }

  /** Decoding ignores the order of the wires within a pattern. */
  lemma {:induction false} DigitIgnoresOrder(p: Pattern, q: Pattern, m: Mapping)
    requires multiset(p) == multiset(q)
    ensures DigitOf(p, m) == DigitOf(q, m)
  {
    if Mapped(p, m) {
      CodesPermute(p, q, m);
      SortedUnique(SortAscending(Ords(Translated(p, m))), SortAscending(Ords(Translated(q, m))));
    } else if Mapped(q, m) {
      CodesPermute(q, p, m);
    }
  }

  /**
   * Round trip for one digit: the segments of a digit, wired through w and
   * shown in any order, decode through a mapping that undoes w to the digit
   * itself.
   */
  lemma {:induction false} DigitRoundTrip(segments: string, w: Mapping, m: Mapping, shown: Pattern)
    requires Ords(segments) in Table
    requires Mapped(segments, w)
    requires forall k :: 0 <= k < |segments| ==> w[segments[k]] in m && m[w[segments[k]]] == segments[k]
    requires multiset(shown) == multiset(Translated(segments, w))
    ensures DigitOf(shown, m) == Ok(Table[Ords(segments)])
  {
    var wired := Translated(segments, w);
    assert Mapped(wired, m);
    assert Translated(wired, m) == segments;
    TableSorted();
    SortedUnique(SortAscending(Ords(segments)), Ords(segments));
    DigitIgnoresOrder(shown, wired, m);
  }

  /** Every decoded digit is a decimal digit. */
  lemma {:induction false} DigitsAreDecimal(encoded: seq<Pattern>, m: Mapping)
    requires DigitsOf(encoded, m).Ok?
    ensures AllDigits(DigitsOf(encoded, m).value)
  {
    var digits := DigitsOf(encoded, m).value;
    TableLengths();
    forall k | 0 <= k < |digits|
      ensures IsDigit(digits[k])
    {
      assert DigitOf(encoded[k], m).Ok?;
    }
  }

  /** `int` on the decoded digits: no patterns is a ValueError, otherwise the decimal value. */
  lemma {:induction false} DecodeValue(encoded: seq<Pattern>, m: Mapping)
    requires DigitsOf(encoded, m).Ok?
    ensures var digits := DigitsOf(encoded, m).value;
      AllDigits(digits)
      && DecodeSpec(encoded, m) == if encoded == [] then Err(ValueError) else Ok(Value(digits))
  {
    var digits := DigitsOf(encoded, m).value;
    DigitsAreDecimal(encoded, m);
    if encoded != [] {
      ParseDigits(digits);
    }
  }

  /**
   * Round trip for a whole display: digits wired through w, each shown in
   * any order, decode to the number they spell.
   */
  lemma {:induction false} DecodeRoundTrip(digits: seq<string>, w: Mapping, m: Mapping, shown: seq<Pattern>)
    requires |shown| == |digits|
    requires forall i :: 0 <= i < |digits| ==>
      (Ords(digits[i]) in Table && Mapped(digits[i], w)
       && multiset(shown[i]) == multiset(Translated(digits[i], w)))
    requires forall c :: c in w ==> w[c] in m && m[w[c]] == c
    ensures DigitsOf(shown, m) == Ok(seq(|digits|, i requires 0 <= i < |digits| && Ords(digits[i]) in Table => Table[Ords(digits[i])]))
  {
    var expected := seq(|digits|, i requires 0 <= i < |digits| && Ords(digits[i]) in Table => Table[Ords(digits[i])]);
    forall i | 0 <= i < |shown|
      ensures DigitOf(shown[i], m) == Ok(expected[i])
    {
      DigitRoundTrip(digits[i], w, m, shown[i]);
    }
    DigitsCollected(shown, m, expected);
  }

  /** The four easy lengths: a pattern that decodes at all decodes by its length alone. */
  lemma {:induction false} EasyByLength(p: Pattern, m: Mapping)
    requires DigitOf(p, m).Ok?
    ensures var d := DigitOf(p, m).value;
      (|p| == 2 <==> d == '1') && (|p| == 3 <==> d == '7')
      && (|p| == 4 <==> d == '4') && (|p| == 7 <==> d == '8')
  {
    TableLengths();
  }

  /** The table entries the `decode` examples look up. */
  lemma {:induction false} LookupOne()
    ensures [99, 102] in Table && Table[[99, 102]] == '1'
  {
    TableCodes();
  }

  lemma {:induction false} LookupSeven()
    ensures [97, 99, 102] in Table && Table[[97, 99, 102]] == '7'
  {
    TableCodes();
  }

  lemma {:induction false} LookupFour()
    ensures [98, 99, 100, 102] in Table && Table[[98, 99, 100, 102]] == '4'
  {
    TableCodes();
  }

  /** A pattern whose translated codes are a permutation of a table key decodes to that key's digit. */
  lemma {:induction false} DigitFromCodes(p: Pattern, m: Mapping, codes: seq<int>, key: seq<int>)
    requires |codes| == |p|
    requires forall k :: 0 <= k < |p| ==> p[k] in m && m[p[k]] as int == codes[k]
    requires Sorted(key) && multiset(codes) == multiset(key) && key in Table
    ensures DigitOf(p, m) == Ok(Table[key])
  {
    assert Ords(Translated(p, m)) == codes;
    SortedUnique(SortAscending(codes), key);
  }

  lemma {:induction false} ExampleCf(m: Mapping)
    requires m == map['a' := 'a', 'c' := 'c', 'f' := 'f']
    ensures DigitOf("cf", m) == Ok('1')
  {
    LookupOne();
    DigitFromCodes("cf", m, [99, 102], [99, 102]);
  }

  lemma {:induction false} ExampleFc(m: Mapping)
    requires m == map['a' := 'a', 'c' := 'c', 'f' := 'f']
    ensures DigitOf("fc", m) == Ok('1')
  {
    LookupOne();
    DigitFromCodes("fc", m, [102, 99], [99, 102]);
  }

  lemma {:induction false} ExampleAcf(m: Mapping)
    requires m == map['a' := 'a', 'c' := 'c', 'f' := 'f']
    ensures DigitOf("acf", m) == Ok('7')
  {
    LookupSeven();
    DigitFromCodes("acf", m, [97, 99, 102], [97, 99, 102]);
  }

  /** Three patterns whose digits are known. */
  lemma {:induction false} DigitsOfThree(p0: Pattern, p1: Pattern, p2: Pattern, m: Mapping, d0: char, d1: char, d2: char)
    requires DigitOf(p0, m) == Ok(d0) && DigitOf(p1, m) == Ok(d1) && DigitOf(p2, m) == Ok(d2)
    ensures DigitsOf([p0, p1, p2], m) == Ok([d0, d1, d2])
  {
    var ps, ds := [p0, p1, p2], [d0, d1, d2];
    forall k | 0 <= k < 3
      ensures DigitOf(ps[k], m) == Ok(ds[k])
    {
      assert ps[k] == (if k == 0 then p0 else if k == 1 then p1 else p2);
      assert ds[k] == (if k == 0 then d0 else if k == 1 then d1 else d2);
    }
    DigitsCollected([p0, p1, p2], m, [d0, d1, d2]);
  }

  /** `int` on the digit strings of the `decode` examples. */
  lemma {:induction false} ParseExamples()
    ensures ParseInt("117") == Ok(117) && ParseInt("417") == Ok(417)
  {
    assert "117"[..2] == "11" && "11"[..1] == "1" && "1"[..0] == "";
    assert "417"[..2] == "41" && "41"[..1] == "4" && "4"[..0] == "";
  }

  /** The first `decode` example. */
  lemma {:induction false} FirstDecodeExample(m: Mapping)
    requires m == map['a' := 'a', 'c' := 'c', 'f' := 'f']
    ensures DecodeSpec(["cf", "fc", "acf"], m) == Ok(117)
  {
    ExampleCf(m);
    ExampleFc(m);
    ExampleAcf(m);
    DigitsOfThree("cf", "fc", "acf", m, '1', '1', '7');
    ParseExamples();
  }

  lemma {:induction false} ExampleCb(m: Mapping)
    requires m == map['a' := 'a', 'c' := 'c', 'b' := 'f']
    ensures DigitOf("cb", m) == Ok('1')
  {
    LookupOne();
    DigitFromCodes("cb", m, [99, 102], [99, 102]);
  }

  lemma {:induction false} ExampleBc(m: Mapping)
    requires 'b' in m && 'c' in m && m['b'] == 'f' && m['c'] == 'c'
    ensures DigitOf("bc", m) == Ok('1')
  {
    LookupOne();
    DigitFromCodes("bc", m, [102, 99], [99, 102]);
  }

  lemma {:induction false} ExampleAcb(m: Mapping)
    requires 'a' in m && 'b' in m && 'c' in m && m['a'] == 'a' && m['b'] == 'f' && m['c'] == 'c'
    ensures DigitOf("acb", m) == Ok('7')
  {
    LookupSeven();
    DigitFromCodes("acb", m, [97, 99, 102], [97, 99, 102]);
  }

  lemma {:induction false} ExampleFcdb(m: Mapping)
    requires m == map['a' := 'a', 'b' := 'f', 'c' := 'c', 'd' := 'd', 'f' := 'b']
    ensures DigitOf("fcdb", m) == Ok('4')
  {
    LookupFour();
    DigitFromCodes("fcdb", m, [98, 99, 100, 102], [98, 99, 100, 102]);
  }

  /** The second `decode` example: wire b drives segment f. */
  lemma {:induction false} SecondDecodeExample(m: Mapping)
    requires m == map['a' := 'a', 'c' := 'c', 'b' := 'f']
    ensures DecodeSpec(["cb", "bc", "acb"], m) == Ok(117)
  {
    ExampleCb(m);
    ExampleBc(m);
    ExampleAcb(m);
    DigitsOfThree("cb", "bc", "acb", m, '1', '1', '7');
    ParseExamples();
  }

  /** The third `decode` example: wires b and f swapped. */
  lemma {:induction false} ThirdDecodeExample(m: Mapping)
    requires m == map['a' := 'a', 'b' := 'f', 'c' := 'c', 'd' := 'd', 'f' := 'b']
    ensures DecodeSpec(["fcdb", "bc", "acb"], m) == Ok(417)
  {
    ExampleFcdb(m);
    ExampleBc(m);
    ExampleAcb(m);
    DigitsOfThree("fcdb", "bc", "acb", m, '4', '1', '7');
    ParseExamples();
  }

  /*
   * Part one: the patterns whose length alone gives the digit away.
   */

  /** A pattern of 2, 3, 4 or 7 wires. */
  predicate IsEasy(p: Pattern)
  {
    |p| == 2 || |p| == 3 || |p| == 4 || |p| == 7
  }

  /** The easy patterns among the outputs of one display. */
  function EasyCount(outputs: seq<Pattern>): nat
  {
    if outputs == [] then 0
    else EasyCount(outputs[..|outputs| - 1]) + (if IsEasy(outputs[|outputs| - 1]) then 1 else 0)
  }

  /** The easy patterns over all displays. */
  function EasyTotal(lines: seq<seq<Pattern>>): nat
  {
    if lines == [] then 0 else EasyTotal(lines[..|lines| - 1]) + EasyCount(lines[|lines| - 1])
  }

  /** The positions of the easy patterns. */
  function EasyPositions(outputs: seq<Pattern>): set<nat>
  {
    set k: nat | k < |outputs| && IsEasy(outputs[k])
  }

  /** The count is the number of positions holding an easy pattern. */
  lemma {:induction false} EasyCountPositions(outputs: seq<Pattern>)
    ensures EasyCount(outputs) == |EasyPositions(outputs)|
  {
    if outputs != [] {
      var n := |outputs| - 1;
      EasyCountPositions(outputs[..n]);
      assert EasyPositions(outputs)
        == EasyPositions(outputs[..n]) + (if IsEasy(outputs[n]) then {n} else {});
    }
  }

  /** When every output decodes, the easy patterns are exactly the ones, fours, sevens and eights. */
  lemma {:induction false} EasyAreOneFourSevenEight(outputs: seq<Pattern>, m: Mapping)
    requires DigitsOf(outputs, m).Ok?
    ensures var digits := DigitsOf(outputs, m).value;
      EasyPositions(outputs)
        == set k: nat | k < |digits| && (digits[k] == '1' || digits[k] == '4' || digits[k] == '7' || digits[k] == '8')
  {
    var digits := DigitsOf(outputs, m).value;
    forall k: nat | k < |outputs|
      ensures IsEasy(outputs[k]) <==> (digits[k] == '1' || digits[k] == '4' || digits[k] == '7' || digits[k] == '8')
    {
      assert DigitOf(outputs[k], m).Ok?;
      EasyByLength(outputs[k], m);
    }
  }

  /** `part_1`'s nested loops over the displays and their output patterns. */
  method CountEasyDigits(lines: seq<seq<Pattern>>) returns (counter: nat)
    ensures counter == EasyTotal(lines)
  {
    counter := 0;
    for i := 0 to |lines|
      invariant counter == EasyTotal(lines[..i])
    {
      assert lines[..i + 1][..i] == lines[..i];
      var outputs := lines[i];
      ghost var before := counter;
      for j := 0 to |outputs|
        invariant counter == before + EasyCount(outputs[..j])
      {
        assert outputs[..j + 1][..j] == outputs[..j];
        if |outputs[j]| == 2 || |outputs[j]| == 3 || |outputs[j]| == 4 || |outputs[j]| == 7 {
          counter := counter + 1;
        }
      }
      assert outputs[..|outputs|] == outputs;
    }
    assert lines[..|lines|] == lines;
  }
}
