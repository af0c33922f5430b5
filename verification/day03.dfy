/**
 * Binary diagnostic: rows of digits read as base-2 numerals, the most common
 * bit of every column, its complement, and the oxygen / CO2 filters that keep
 * narrowing the rows by one column per round.
 */
module Day3Diagnostic {
  import opened Common

  type Row = seq<int>

  /**
   * The sum of c * 2^i over the digits c of the reversed row, i.e. the row read
   * as a base-2 numeral with the first digit most significant. Digits other
   * than 0 and 1 are not rejected: they are weighted like any other.
   */
  function IntListToBin(s: Row): int
  {
    if s == [] then 0 else s[0] * Pow(2, |s| - 1) + IntListToBin(s[1..])
  }

  /** Appending a digit shifts the value left by one place (Horner's rule). */
  lemma {:induction false} IntListToBinAppend(s: Row, c: int)
    ensures IntListToBin(s + [c]) == 2 * IntListToBin(s) + c
  {
    if s == [] {
      assert [] + [c] == [c];
    } else {
      assert (s + [c])[1..] == s[1..] + [c];
      IntListToBinAppend(s[1..], c);
      assert Pow(2, |s|) == 2 * Pow(2, |s| - 1);
      assert s[0] * Pow(2, |s|) == 2 * (s[0] * Pow(2, |s| - 1));
    }
  }

  predicate IsBinary(s: Row)
  {
    forall i :: 0 <= i < |s| ==> s[i] == 0 || s[i] == 1
  }

  /** A row of n binary digits denotes a value in [0, 2^n). */
  lemma {:induction false} BinaryBounds(s: Row)
    requires IsBinary(s)
    ensures 0 <= IntListToBin(s) < Pow(2, |s|)
  {
    if s != [] {
      BinaryBounds(s[1..]);
      assert Pow(2, |s|) == 2 * Pow(2, |s| - 1);
      PowPositive(2, |s| - 1);
    }
  }

  /** The epsilon row: every digit replaced by `not digit` read as 0 or 1. */
  function Complement(s: Row): (r: Row)
    ensures |r| == |s| && IsBinary(r)
    ensures forall i :: 0 <= i < |s| ==> (r[i] == 1 <==> s[i] == 0)
  {
    seq(|s|, i requires 0 <= i < |s| => if s[i] == 0 then 1 else 0)
  }

  /** Gamma and epsilon are complementary: together they fill every bit once. */
  lemma {:induction false} ComplementSum(s: Row)
    requires IsBinary(s)
    ensures IntListToBin(s) + IntListToBin(Complement(s)) == Pow(2, |s|) - 1
  {
    if s != [] {
      assert Complement(s)[1..] == Complement(s[1..]);
      ComplementSum(s[1..]);
      assert Pow(2, |s|) == 2 * Pow(2, |s| - 1);
      var p := Pow(2, |s| - 1);
      assert s[0] * p + Complement(s)[0] * p == p;
    }
  }

  lemma ExampleIntListToBin()
    ensures IntListToBin([0]) == 0
    ensures IntListToBin([0, 1]) == 1
    ensures IntListToBin([1, 0, 1, 0, 1, 0, 1]) == 85
    ensures IntListToBin([2, 5, 7]) == 25
    ensures IntListToBin([]) == 0
  {
    assert Pow(2, 6) == 64 && Pow(2, 4) == 16 && Pow(2, 2) == 4;
    var s := [1, 0, 1, 0, 1, 0, 1];
    assert s[1..][1..][1..][1..][1..][1..][1..] == [];
  }

  /** The length zip leaves: the shortest row. */
  function MinWidth(rows: seq<Row>): (w: nat)
    requires rows != []
    ensures forall k :: 0 <= k < |rows| ==> w <= |rows[k]|
    ensures exists k :: 0 <= k < |rows| && w == |rows[k]|
  {
    if |rows| == 1 then |rows[0]|
    else
      var w := MinWidth(rows[..|rows| - 1]);
      if |rows[|rows| - 1]| < w then |rows[|rows| - 1]| else w
  }

  /** The longest row. */
  function MaxWidth(rows: seq<Row>): (w: nat)
    ensures forall k :: 0 <= k < |rows| ==> |rows[k]| <= w
    ensures rows != [] ==> exists k :: 0 <= k < |rows| && w == |rows[k]|
  {
    if rows == [] then 0
    else
      var w := MaxWidth(rows[..|rows| - 1]);
      if |rows[|rows| - 1]| > w then |rows[|rows| - 1]| else w
  }

  /** The column total at position i. */
  function ColumnSum(rows: seq<Row>, i: nat): int
    requires forall k :: 0 <= k < |rows| ==> i < |rows[k]|
  {
    if rows == [] then 0 else ColumnSum(rows[..|rows| - 1], i) + rows[|rows| - 1][i]
  }

  /** 1 when the ones are at least half of n rows, so a tie gives 1. */
  function MajorityBit(ones: int, n: nat): int
  {
    if 2 * ones >= n then 1 else 0
  }

  /** Column totals of two rows, truncated to the shorter one like zip. */
  function AddColumns(a: Row, b: Row): (r: Row)
    ensures |r| == if |a| < |b| then |a| else |b|
    ensures forall i :: 0 <= i < |r| ==> r[i] == a[i] + b[i]
  {
    var n := if |a| < |b| then |a| else |b|;
    seq(n, i requires 0 <= i < n => a[i] + b[i])
  }

  /** counter holds the column totals of the rows, over the columns every row has. */
  ghost predicate ColumnTotals(rows: seq<Row>, counter: Row)
    requires rows != []
  {
    |counter| == MinWidth(rows) && forall i :: 0 <= i < |counter| ==> counter[i] == ColumnSum(rows, i)
  }

  lemma ColumnTotalsStep(rows: seq<Row>, n: nat, counter: Row)
    requires 1 <= n < |rows| && ColumnTotals(rows[..n], counter)
    ensures ColumnTotals(rows[..n + 1], AddColumns(counter, rows[n]))
  {
    assert rows[..n + 1][..n] == rows[..n];
  }

  /**
   * Adds the rows column by column, counting them, then keeps per column
   * whether the total reaches half the count. An empty input is the
   * StopIteration of the first `next`.
   */
  method MostCommonBits(rows: seq<Row>) returns (r: Result<Row>)
    ensures rows == [] ==> r == Err(StopIteration)
    ensures rows != [] ==> r.Ok? && |r.value| == MinWidth(rows)
    ensures rows != [] ==> forall i :: 0 <= i < |r.value| ==>
      r.value[i] == MajorityBit(ColumnSum(rows, i), |rows|)
  {
    if rows == [] {
      return Err(StopIteration);
    }
    var counter := rows[0];
    var numLines := 1;
    assert rows[..1] == [rows[0]];
    assert forall i :: 0 <= i < |counter| ==> counter[i] == ColumnSum(rows[..1], i) by {
      assert rows[..1][..0] == [];
    }
    while numLines < |rows|
      invariant 1 <= numLines <= |rows|
      invariant ColumnTotals(rows[..numLines], counter)
    {
      var element := rows[numLines];
      ColumnTotalsStep(rows, numLines, counter);
      counter := AddColumns(counter, element);
      numLines := numLines + 1;
    }
    assert rows[..numLines] == rows;
    r := Ok(seq(|counter|, i requires 0 <= i < |counter| => MajorityBit(counter[i], numLines)));
  }

  predicate BinaryRows(rows: seq<Row>)
  {
    forall k :: 0 <= k < |rows| ==> IsBinary(rows[k])
  }

  /**
   * One filter round: the rows whose digit at pos equals the criteria bit
   * (keepEqual, oxygen) or differs from it (CO2), in their original order.
   */
  function Select(rows: seq<Row>, pos: nat, criteria: int, keepEqual: bool): seq<Row>
    requires forall k :: 0 <= k < |rows| ==> pos < |rows[k]|
  {
    if rows == [] then []
    else
      var init := rows[..|rows| - 1];
      var last := rows[|rows| - 1];
      assert rows == init + [last];
      var rest := Select(init, pos, criteria, keepEqual);
      if (last[pos] == criteria) == keepEqual then rest + [last] else rest
  }

  /** A round keeps exactly the matching rows, each no more often than the input has it. */
  lemma {:induction false} SelectKeeps(rows: seq<Row>, pos: nat, criteria: int, keepEqual: bool)
    requires forall k :: 0 <= k < |rows| ==> pos < |rows[k]|
    ensures forall x :: x in Select(rows, pos, criteria, keepEqual) <==> x in rows && ((x[pos] == criteria) == keepEqual)
    ensures multiset(Select(rows, pos, criteria, keepEqual)) <= multiset(rows)
  {
    if rows != [] {
      var init := rows[..|rows| - 1];
      assert rows == init + [rows[|rows| - 1]];
      SelectKeeps(init, pos, criteria, keepEqual);
    }
  }

  /** A round filters each part of the list on its own and keeps their order: the list comprehension's order. */
  lemma {:induction false} SelectAppend(a: seq<Row>, b: seq<Row>, pos: nat, criteria: int, keepEqual: bool)
    requires forall k :: 0 <= k < |a| ==> pos < |a[k]|
    requires forall k :: 0 <= k < |b| ==> pos < |b[k]|
    ensures Select(a + b, pos, criteria, keepEqual) == Select(a, pos, criteria, keepEqual) + Select(b, pos, criteria, keepEqual)
    decreases |b|
  {
    if b == [] {
      assert a + b == a;
    } else {
      var init, last := b[..|b| - 1], b[|b| - 1];
      assert (a + b)[..|a + b| - 1] == a + init && (a + b)[|a + b| - 1] == last;
      SelectAppend(a, init, pos, criteria, keepEqual);
      var sa, si := Select(a, pos, criteria, keepEqual), Select(init, pos, criteria, keepEqual);
      var tail := if (last[pos] == criteria) == keepEqual then [last] else [];
      assert Select(b, pos, criteria, keepEqual) == si + tail;
      assert Select(a + b, pos, criteria, keepEqual) == (sa + si) + tail;
      assert (sa + si) + tail == sa + (si + tail);
    }
  }

  /** Every copy of a matching row is kept: a kept row occurs as often as in the input, the others not at all. */
  lemma {:induction false} SelectCounts(rows: seq<Row>, pos: nat, criteria: int, keepEqual: bool, x: Row)
    requires forall k :: 0 <= k < |rows| ==> pos < |rows[k]|
    ensures multiset(Select(rows, pos, criteria, keepEqual))[x] ==
      if x in rows && (x[pos] == criteria) == keepEqual then multiset(rows)[x] else 0
  {
    if rows != [] {
      var init := rows[..|rows| - 1];
      var last := rows[|rows| - 1];
      assert rows == init + [last];
      SelectCounts(init, pos, criteria, keepEqual, x);
      if x in rows && x !in init {
        assert x == last;
      }
    }
  }

  /** A single row is kept exactly when it matches. */
  lemma SelectSingle(x: Row, pos: nat, criteria: int, keepEqual: bool)
    requires pos < |x|
    ensures Select([x], pos, criteria, keepEqual) == if (x[pos] == criteria) == keepEqual then [x] else []
  {
    assert [x][..0] == [];
  }

  /** On binary rows, the oxygen selection of bit 1 keeps exactly the ones of the column. */
  lemma {:induction false} SelectCountsOnes(rows: seq<Row>, pos: nat)
    requires forall k :: 0 <= k < |rows| ==> pos < |rows[k]|
    requires BinaryRows(rows)
    ensures |Select(rows, pos, 1, true)| == ColumnSum(rows, pos)
    ensures |Select(rows, pos, 0, true)| == |rows| - ColumnSum(rows, pos)
  {
    if rows != [] {
      SelectCountsOnes(rows[..|rows| - 1], pos);
    }
  }

  /** The two filters split the rows: what one keeps the other drops. */
  lemma {:induction false} SelectPartitions(rows: seq<Row>, pos: nat, criteria: int)
    requires forall k :: 0 <= k < |rows| ==> pos < |rows[k]|
    ensures |Select(rows, pos, criteria, true)| + |Select(rows, pos, criteria, false)| == |rows|
  {
    if rows != [] {
      SelectPartitions(rows[..|rows| - 1], pos, criteria);
    }
  }

  /**
   * With at least one binary row, keeping the rows that match the majority bit
   * keeps at least one row.
   */
  lemma MajoritySelectionNonEmpty(rows: seq<Row>, pos: nat)
    requires rows != [] && BinaryRows(rows)
    requires forall k :: 0 <= k < |rows| ==> pos < |rows[k]|
    ensures Select(rows, pos, MajorityBit(ColumnSum(rows, pos), |rows|), true) != []
  {
    SelectCountsOnes(rows, pos);
  }

  ghost predicate NoDuplicates(rows: seq<Row>)
  {
    forall x :: multiset(rows)[x] <= 1
  }

  predicate SameWidth(rows: seq<Row>, w: nat)
  {
    forall k :: 0 <= k < |rows| ==> |rows[k]| == w
  }

  /** All rows share their first n digits. */
  predicate Agree(rows: seq<Row>, n: nat)
  {
    forall a, b :: a in rows && b in rows ==> n <= |a| && n <= |b| && a[..n] == b[..n]
  }

  /** Two different rows of the same width cannot agree on every digit. */
  lemma DistinctRowsDisagree(rows: seq<Row>, w: nat)
    requires |rows| > 1 && NoDuplicates(rows) && SameWidth(rows, w)
    ensures !Agree(rows, w)
  {
    assert rows == [rows[0], rows[1]] + rows[2..];
    assert multiset(rows)[rows[0]] >= 1 + (if rows[0] == rows[1] then 1 else 0);
    assert rows[0][..w] == rows[0] && rows[1][..w] == rows[1];
  }

  /**
   * An oxygen round on binary rows of one width that agree on their first pos
   * digits keeps a non-empty set of such rows, now agreeing on pos + 1 digits.
   */
  lemma OxygenRound(rows: seq<Row>, pos: nat, w: nat)
    requires rows != [] && pos < w
    requires BinaryRows(rows) && NoDuplicates(rows) && SameWidth(rows, w) && Agree(rows, pos)
    ensures var kept := Select(rows, pos, MajorityBit(ColumnSum(rows, pos), |rows|), true);
      kept != [] && BinaryRows(kept) && NoDuplicates(kept) && SameWidth(kept, w) && Agree(kept, pos + 1)
  {
    var criteria := MajorityBit(ColumnSum(rows, pos), |rows|);
    var kept := Select(rows, pos, criteria, true);
    SelectKeeps(rows, pos, criteria, true);
    MajoritySelectionNonEmpty(rows, pos);
    forall k | 0 <= k < |kept|
      ensures IsBinary(kept[k]) && |kept[k]| == w
    {
      assert kept[k] in rows;
    }
    forall x
      ensures multiset(kept)[x] <= 1
    {
      assert multiset(kept)[x] <= multiset(rows)[x];
    }
    forall a, b | a in kept && b in kept
      ensures pos + 1 <= |a| && pos + 1 <= |b| && a[..pos + 1] == b[..pos + 1]
    {
      assert a in rows && b in rows;
      assert a[..pos + 1] == a[..pos] + [a[pos]];
      assert b[..pos + 1] == b[..pos] + [b[pos]];
    }
  }

  /** A round never widens the rows. */
  lemma SelectWidth(rows: seq<Row>, pos: nat, criteria: int, keepEqual: bool)
    requires forall k :: 0 <= k < |rows| ==> pos < |rows[k]|
    ensures MaxWidth(Select(rows, pos, criteria, keepEqual)) <= MaxWidth(rows)
  {
    var kept := Select(rows, pos, criteria, keepEqual);
    SelectKeeps(rows, pos, criteria, keepEqual);
    if kept != [] {
      var k :| 0 <= k < |kept| && MaxWidth(kept) == |kept[k]|;
      assert kept[k] in rows;
    }
  }

  /**
   * The rounds of part_2 from column `counter` on: while more than one row
   * is left, keep the rows whose digit agrees (keepMajority) or disagrees
   * with the most common bit of the column; the first row left is the
   * rating. No row left, or a column past the shortest row, is an IndexError.
   */
  ghost function RatingRounds(rows: seq<Row>, keepMajority: bool, counter: nat): Result<Row>
    decreases MaxWidth(rows) - counter
  {
    if |rows| <= 1 then (if rows == [] then Err(IndexError) else Ok(rows[0]))
    else if counter >= MinWidth(rows) then Err(IndexError)
    else
      var criteria := MajorityBit(ColumnSum(rows, counter), |rows|);
      SelectWidth(rows, counter, criteria, keepMajority);
      RatingRounds(Select(rows, counter, criteria, keepMajority), keepMajority, counter + 1)
  }

  /** The bit a round keeps at column i: the most common one (oxygen, ties to 1) or the other one (CO2, ties to 0). */
  function KeptBit(shared: seq<Row>, i: nat, keepMajority: bool): (b: int)
    requires forall k :: 0 <= k < |shared| ==> i < |shared[k]|
    ensures b == 0 || b == 1
  {
    var m := MajorityBit(ColumnSum(shared, i), |shared|);
    if keepMajority then m else 1 - m
  }

  /** The rows that begin with `prefix`, in input order. */
  ghost function Sharing(rows: seq<Row>, prefix: Row): seq<Row>
  {
    if rows == [] then []
    else
      var init, last := rows[..|rows| - 1], rows[|rows| - 1];
      assert rows == init + [last];
      Sharing(init, prefix) + Only(last, prefix)
  }

  /** [x] when x begins with the prefix, [] otherwise. */
  function Only(x: Row, prefix: Row): seq<Row>
  {
    if |prefix| <= |x| && x[..|prefix|] == prefix then [x] else []
  }

  /** The round at column |p| on one row that begins with p. */
  lemma SelectOnly(x: Row, p: Row, criteria: int, keepMajority: bool)
    requires |p| < |x| && (criteria == 0 || criteria == 1) && (keepMajority || IsBinary(x))
    ensures forall k :: 0 <= k < |Only(x, p)| ==> |p| < |Only(x, p)[k]|
    ensures Select(Only(x, p), |p|, criteria, keepMajority) == Only(x, p + [if keepMajority then criteria else 1 - criteria])
  {
    var b := if keepMajority then criteria else 1 - criteria;
    assert x[..|p| + 1] == x[..|p|] + [x[|p|]];
    if x[..|p|] == p {
      SelectSingle(x, |p|, criteria, keepMajority);
    } else {
      assert Select([], |p|, criteria, keepMajority) == [];
      assert (x[..|p|] + [x[|p|]])[..|p|] == x[..|p|];
    }
  }

  lemma {:induction false} SharingWidth(rows: seq<Row>, w: nat, prefix: Row)
    requires SameWidth(rows, w)
    ensures SameWidth(Sharing(rows, prefix), w)
  {
    if rows != [] {
      SharingWidth(rows[..|rows| - 1], w, prefix);
    }
  }

  /**
   * The rating r is favoured at column i: if more than one row shares its
   * first i digits, its digit there is the bit the round on those rows keeps.
   */
  ghost predicate Favoured(rows: seq<Row>, w: nat, keepMajority: bool, r: Row, i: nat)
    requires SameWidth(rows, w) && i < |r| && i < w
  {
    var shared := Sharing(rows, r[..i]);
    SharingWidth(rows, w, r[..i]);
    |shared| > 1 ==> r[i] == KeptBit(shared, i, keepMajority)
  }

  /** r is favoured at every column from k on. */
  ghost predicate FavouredFrom(rows: seq<Row>, w: nat, keepMajority: bool, r: Row, k: nat)
    requires SameWidth(rows, w) && |r| <= w
  {
    forall i :: k <= i < |r| ==> Favoured(rows, w, keepMajority, r, i)
  }

  /** Exactly the rows that begin with the prefix are shared. */
  lemma {:induction false} SharingMembers(rows: seq<Row>, prefix: Row, x: Row)
    ensures x in Sharing(rows, prefix) <==> x in rows && |prefix| <= |x| && x[..|prefix|] == prefix
  {
    if rows != [] {
      var init := rows[..|rows| - 1];
      assert rows == init + [rows[|rows| - 1]];
      SharingMembers(init, prefix, x);
    }
  }

  lemma {:induction false} SharingEverything(rows: seq<Row>)
    ensures Sharing(rows, []) == rows
  {
    if rows != [] {
      SharingEverything(rows[..|rows| - 1]);
      assert rows[|rows| - 1][..0] == [];
    }
  }

  /** A longer prefix is shared by no more rows. */
  lemma {:induction false} SharingNarrows(rows: seq<Row>, p: Row, q: Row)
    requires |p| <= |q| && q[..|p|] == p
    ensures |Sharing(rows, q)| <= |Sharing(rows, p)|
  {
    if rows != [] {
      var last := rows[|rows| - 1];
      SharingNarrows(rows[..|rows| - 1], p, q);
      if |q| <= |last| && last[..|q|] == q {
        assert last[..|p|] == last[..|q|][..|p|];
      }
    }
  }

  /**
   * A round on the rows sharing p, at column |p|, keeps the rows sharing p
   * extended by the kept bit: the criteria bit for oxygen, its complement for
   * CO2 on binary rows.
   */
  lemma {:induction false} SharingSelect(rows: seq<Row>, w: nat, p: Row, shared: seq<Row>, criteria: int, keepMajority: bool)
    requires SameWidth(rows, w) && |p| < w && (criteria == 0 || criteria == 1)
    requires keepMajority || BinaryRows(rows)
    requires shared == Sharing(rows, p) && SameWidth(shared, w)
    ensures Select(shared, |p|, criteria, keepMajority) ==
      Sharing(rows, p + [if keepMajority then criteria else 1 - criteria])
  {
    if rows != [] {
      var init, last := rows[..|rows| - 1], rows[|rows| - 1];
      assert SameWidth(init, w) && |last| == w;
      assert !keepMajority ==> BinaryRows(init) && IsBinary(last);
      SharingWidth(init, w, p);
      SharingSelect(init, w, p, Sharing(init, p), criteria, keepMajority);
      SelectOnly(last, p, criteria, keepMajority);
      SelectAppend(Sharing(init, p), Only(last, p), |p|, criteria, keepMajority);
    }
  }

  /**
   * Following the rounds from the rows sharing `prefix`: the rating begins
   * with the prefix, and at every later column where more than one row
   * shares its digits so far, its digit is the most common bit of those rows
   * (oxygen, ties to 1) or the other one (CO2, ties to 0).
   */
  lemma {:induction false} RoundsFollow(rows: seq<Row>, w: nat, keepMajority: bool, prefix: Row, cur: seq<Row>, r: Row)
    requires SameWidth(rows, w) && (keepMajority || BinaryRows(rows))
    requires cur == Sharing(rows, prefix) && RatingRounds(cur, keepMajority, |prefix|) == Ok(r)
    ensures r in rows && |prefix| <= |r| && r[..|prefix|] == prefix
    ensures FavouredFrom(rows, w, keepMajority, r, |prefix|)
    decreases MaxWidth(cur) - |prefix|, 1
  {
    if |cur| <= 1 {
      FollowLast(rows, prefix, r);
    } else {
      FollowRound(rows, w, keepMajority, prefix, cur, r);
    }
  }

  /** A round with more than one row sharing the prefix, then the rounds after it. */
  lemma {:induction false} FollowRound(rows: seq<Row>, w: nat, keepMajority: bool, prefix: Row, cur: seq<Row>, r: Row)
    requires SameWidth(rows, w) && (keepMajority || BinaryRows(rows))
    requires cur == Sharing(rows, prefix) && |cur| > 1 && RatingRounds(cur, keepMajority, |prefix|) == Ok(r)
    ensures r in rows && |prefix| <= |r| && r[..|prefix|] == prefix
    ensures FavouredFrom(rows, w, keepMajority, r, |prefix|)
    decreases MaxWidth(cur) - |prefix|, 0
  {
    var b, next := FollowStep(rows, w, keepMajority, prefix, cur, r);
    var longer := prefix + [b];
    assert |longer| == |prefix| + 1;
    RoundsFollow(rows, w, keepMajority, longer, next, r);
    FollowExtend(rows, w, keepMajority, prefix, b, r);
  }

  /** The round at column |prefix|: the bit it keeps and the rows sharing the longer prefix. */
  lemma FollowStep(rows: seq<Row>, w: nat, keepMajority: bool, prefix: Row, cur: seq<Row>, r: Row)
    returns (b: int, next: seq<Row>)
    requires SameWidth(rows, w) && (keepMajority || BinaryRows(rows))
    requires cur == Sharing(rows, prefix) && |cur| > 1 && RatingRounds(cur, keepMajority, |prefix|) == Ok(r)
    ensures |prefix| < w && SameWidth(cur, w) && b == KeptBit(cur, |prefix|, keepMajority)
    ensures next == Sharing(rows, prefix + [b]) && RatingRounds(next, keepMajority, |prefix| + 1) == Ok(r)
    ensures MaxWidth(next) - (|prefix| + 1) < MaxWidth(cur) - |prefix|
  {
    var k := |prefix|;
    RatingRoundsNext(cur, keepMajority, k, r);
    next := Select(cur, k, MajorityBit(ColumnSum(cur, k), |cur|), keepMajority);
    b := FollowBit(rows, w, keepMajority, prefix, cur);
  }

  /** The bit the round at column |prefix| keeps, and the rows it keeps. */
  lemma FollowBit(rows: seq<Row>, w: nat, keepMajority: bool, prefix: Row, cur: seq<Row>) returns (b: int)
    requires SameWidth(rows, w) && (keepMajority || BinaryRows(rows))
    requires cur == Sharing(rows, prefix) && cur != [] && |prefix| < MinWidth(cur)
    ensures |prefix| < w && SameWidth(cur, w)
    ensures b == KeptBit(cur, |prefix|, keepMajority)
    ensures Select(cur, |prefix|, MajorityBit(ColumnSum(cur, |prefix|), |cur|), keepMajority)
      == Sharing(rows, prefix + [b])
    ensures MaxWidth(Sharing(rows, prefix + [b])) <= MaxWidth(cur)
  {
    var k := |prefix|;
    SharingWidth(rows, w, prefix);
    assert |cur[0]| == w;
    var criteria := MajorityBit(ColumnSum(cur, k), |cur|);
    b := if keepMajority then criteria else 1 - criteria;
    SharingSelect(rows, w, prefix, cur, criteria, keepMajority);
    SelectWidth(cur, k, criteria, keepMajority);
  }

  /** A round that leads to a rating was on a column every remaining row has. */
  lemma RatingRoundsNext(rows: seq<Row>, keepMajority: bool, counter: nat, r: Row)
    requires |rows| > 1 && RatingRounds(rows, keepMajority, counter) == Ok(r)
    ensures counter < MinWidth(rows)
    ensures RatingRounds(Select(rows, counter, MajorityBit(ColumnSum(rows, counter), |rows|), keepMajority),
      keepMajority, counter + 1) == Ok(r)
  {
  }

  /** When at most one row shares the prefix, that row is the rating and no longer prefix is shared by two. */
  lemma FollowLast(rows: seq<Row>, prefix: Row, r: Row)
    requires |Sharing(rows, prefix)| <= 1 && Sharing(rows, prefix) != [] && r == Sharing(rows, prefix)[0]
    ensures r in rows && |prefix| <= |r| && r[..|prefix|] == prefix
    ensures forall i :: |prefix| <= i <= |r| ==> |Sharing(rows, r[..i])| <= 1
  {
    var k := |prefix|;
    SharingMembers(rows, prefix, r);
    forall i | k <= i <= |r|
      ensures |Sharing(rows, r[..i])| <= 1
    {
      assert r[..i][..k] == r[..k];
      SharingNarrows(rows, r[..k], r[..i]);
    }
  }

  /** One column earlier: the rating's digit there is the bit the round kept. */
  lemma FollowExtend(rows: seq<Row>, w: nat, keepMajority: bool, prefix: Row, b: int, r: Row)
    requires SameWidth(rows, w) && r in rows
    requires |prefix| < w && SameWidth(Sharing(rows, prefix), w)
    requires b == KeptBit(Sharing(rows, prefix), |prefix|, keepMajority)
    requires |prefix| + 1 <= |r| && r[..|prefix| + 1] == prefix + [b]
    requires FavouredFrom(rows, w, keepMajority, r, |prefix| + 1)
    ensures |prefix| <= |r| && r[..|prefix|] == prefix
    ensures FavouredFrom(rows, w, keepMajority, r, |prefix|)
  {
    var k := |prefix|;
    PrefixSnoc(r, prefix, b);
    forall i | k <= i < |r|
      ensures Favoured(rows, w, keepMajority, r, i)
    {
      if i == k {
        assert r[..i] == prefix;
      }
    }
  }

  lemma PrefixSnoc(r: Row, p: Row, b: int)
    requires |p| < |r| && r[..|p| + 1] == p + [b]
    ensures r[..|p|] == p && r[|p|] == b
  {
    assert r[..|p|] == r[..|p| + 1][..|p|];
  }

  /**
   * The rating picks, column by column, the most common bit (oxygen, ties
   * to 1) or the least common one (CO2 on binary rows, ties to 0) of the rows
   * that share its digits so far, for as long as more than one row shares them.
   */
  lemma RatingFavours(rows: seq<Row>, w: nat, keepMajority: bool, r: Row)
    requires SameWidth(rows, w) && (keepMajority || BinaryRows(rows))
    requires RatingRounds(rows, keepMajority, 0) == Ok(r)
    ensures r in rows
    ensures forall i :: 0 <= i < |r| ==> Favoured(rows, w, keepMajority, r, i)
  {
    SharingEverything(rows);
    RoundsFollow(rows, w, keepMajority, [], rows, r);
    assert FavouredFrom(rows, w, keepMajority, r, 0);
  }

  /**
   * What the oxygen loop keeps on distinct binary rows of one width: a
   * non-empty list of such rows that agree on their first `counter` digits.
   */
  ghost predicate OxygenState(rows: seq<Row>, counter: nat, w: nat)
  {
    rows != [] && counter <= w && BinaryRows(rows) && NoDuplicates(rows) && SameWidth(rows, w) && Agree(rows, counter)
  }

  /** While two or more such rows are left, the column is inside the rows and the round keeps the state. */
  lemma OxygenStep(rows: seq<Row>, counter: nat, w: nat)
    requires OxygenState(rows, counter, w) && |rows| > 1
    ensures counter < MinWidth(rows)
    ensures OxygenState(Select(rows, counter, MajorityBit(ColumnSum(rows, counter), |rows|), true), counter + 1, w)
  {
    DistinctRowsDisagree(rows, w);
    assert counter < w;
    assert |rows[0]| == w;
    OxygenRound(rows, counter, w);
  }

  /** The rows left are among the input rows, and the rounds from here give the rating. */
  ghost predicate RatingLoop(rows: seq<Row>, remainders: seq<Row>, keepMajority: bool, counter: nat)
  {
    multiset(remainders) <= multiset(rows) &&
    RatingRounds(remainders, keepMajority, counter) == RatingRounds(rows, keepMajority, 0)
  }

  /** One round of the loop keeps the loop's state. */
  lemma RatingStep(rows: seq<Row>, remainders: seq<Row>, keepMajority: bool, counter: nat, criteria: int)
    requires |remainders| > 1 && counter < MinWidth(remainders)
    requires criteria == MajorityBit(ColumnSum(remainders, counter), |remainders|)
    requires RatingLoop(rows, remainders, keepMajority, counter)
    ensures RatingLoop(rows, Select(remainders, counter, criteria, keepMajority), keepMajority, counter + 1)
    ensures counter < MaxWidth(rows)
  {
    SelectKeeps(remainders, counter, criteria, keepMajority);
    assert remainders[0] in multiset(rows);
  }

  /** A column past the shortest of two or more remaining rows is the rating's IndexError. */
  lemma RatingOverrun(rows: seq<Row>, remainders: seq<Row>, keepMajority: bool, counter: nat)
    requires |remainders| > 1 && counter >= MinWidth(remainders)
    requires RatingLoop(rows, remainders, keepMajority, counter)
    ensures RatingRounds(rows, keepMajority, 0) == Err(IndexError)
  {
  }

  /** When at most one row is left, it is the rating; none left is the IndexError. */
  lemma RatingExit(rows: seq<Row>, remainders: seq<Row>, keepMajority: bool, counter: nat)
    requires |remainders| <= 1 && RatingLoop(rows, remainders, keepMajority, counter)
    ensures remainders == [] ==> RatingRounds(rows, keepMajority, 0) == Err(IndexError)
    ensures remainders != [] ==> RatingRounds(rows, keepMajority, 0) == Ok(remainders[0]) && remainders[0] in rows
  {
    if remainders != [] {
      assert remainders[0] in multiset(rows);
    }
  }

  /**
   * The oxygen (keepMajority) or CO2 (!keepMajority) rating: while more than
   * one row is left, keep the rows that agree (or disagree) with the most
   * common bit of the current column, then move to the next column; the first
   * row that remains is the rating. Running past the rows' width, or ending
   * with no rows, is an IndexError.
   */
  method Rating(rows: seq<Row>, keepMajority: bool) returns (r: Result<Row>)
    ensures r.Ok? ==> r.value in rows
    ensures rows == [] ==> r == Err(IndexError)
    ensures (keepMajority && rows != [] && BinaryRows(rows) && NoDuplicates(rows)
             && SameWidth(rows, |rows[0]|)) ==> r.Ok?
    ensures r == RatingRounds(rows, keepMajority, 0)
  {
    ghost var good := keepMajority && rows != [] && BinaryRows(rows) && NoDuplicates(rows)
      && SameWidth(rows, |rows[0]|);
    ghost var width := if rows == [] then 0 else |rows[0]|;
    var remainders := rows;
    var counter := 0;
    while |remainders| > 1
      invariant RatingLoop(rows, remainders, keepMajority, counter)
      invariant good ==> OxygenState(remainders, counter, width)
      decreases MaxWidth(rows) - counter
    {
      var bits := MostCommonBits(remainders);
      if counter >= |bits.value| {
        if good {
          OxygenStep(remainders, counter, width);
        }
        RatingOverrun(rows, remainders, keepMajority, counter);
        return Err(IndexError);
      }
      var criteria := bits.value[counter];
      if good {
        OxygenStep(remainders, counter, width);
      }
      RatingStep(rows, remainders, keepMajority, counter, criteria);
      remainders := Select(remainders, counter, criteria, keepMajority);
      counter := counter + 1;
    }
    RatingExit(rows, remainders, keepMajority, counter);
    if remainders == [] {
      return Err(IndexError);
    }
    r := Ok(remainders[0]);
  }


}
