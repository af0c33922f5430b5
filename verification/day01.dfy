/**
 * Sonar sweep: counting depth increases, directly and over sliding windows.
 * The readings are a sequence of integers; reading them from a file is not
 * part of the model.
 */
module Day1Sonar {
  import opened Common

  /** The number of indices i > 0 with s[i-1] < s[i]. */
  function Increases(s: seq<int>): nat
  {
    if |s| < 2 then 0
    else Increases(s[..|s| - 1]) + (if s[|s| - 2] < s[|s| - 1] then 1 else 0)
  }

  /** Remembers the previous reading and counts the steps where the reading rises. */
  method CountIncreases(s: seq<int>) returns (count: nat)
    ensures count == Increases(s)
    ensures count <= |s|
  {
    var last: Option<int> := None;
    count := 0;
    for i := 0 to |s|
      invariant last == (if i == 0 then None else Some(s[i - 1]))
      invariant count == Increases(s[..i])
    {
      if i > 0 {
        IncreasesStep(s, i);
      }
      if last.Some? && last.value < s[i] {
        count := count + 1;
      }
      last := Some(s[i]);
    }
    assert s[..|s|] == s;
    IncreasesBound(s);
  }

  lemma {:induction false} IncreasesBound(s: seq<int>)
    ensures Increases(s) <= if |s| == 0 then 0 else |s| - 1
  {
    if |s| >= 2 {
      IncreasesBound(s[..|s| - 1]);
    }
  }

  /** A strictly increasing sequence of length n has n - 1 increases. */
  lemma {:induction false} StrictlyIncreasingCountsAll(s: seq<int>)
    requires forall i :: 0 < i < |s| ==> s[i - 1] < s[i]
    ensures Increases(s) == if |s| == 0 then 0 else |s| - 1
  {
    if |s| >= 2 {
      StrictlyIncreasingCountsAll(s[..|s| - 1]);
    }
  }

  lemma ExampleIncreases()
    ensures Increases([199, 200, 208, 210, 200, 207, 240, 269, 260, 263]) == 7
    ensures Increases([]) == 0
  {
    var s := [199, 200, 208, 210, 200, 207, 240, 269, 260, 263];
    assert s[..2] == [199, 200];
    for i := 2 to 10
      invariant Increases(s[..i]) == [0, 0, 1, 2, 3, 3, 4, 5, 6, 6, 7][i]
    {
      IncreasesStep(s, i);
    }
    assert s[..10] == s;
  }

  lemma IncreasesStep(s: seq<int>, i: nat)
    requires 1 <= i < |s|
    ensures Increases(s[..i + 1]) == Increases(s[..i]) + (if s[i - 1] < s[i] then 1 else 0)
  {
    assert s[..i + 1][..i] == s[..i];
  }

  /** The window sums: the k-th value is the sum of s[k .. k + w). */
  function Windows(s: seq<int>, w: nat): (r: seq<int>)
    requires w <= |s|
    ensures |r| == |s| - w + 1
  {
    seq(|s| - w + 1, k requires 0 <= k <= |s| - w => Sum(s[k..k + w]))
  }

  /** A deque of bounded length: appending drops the oldest entry when full. */
  function PushBounded(buffer: seq<int>, x: int, maxLen: nat): (r: seq<int>)
    requires |buffer| <= maxLen
    ensures |r| <= maxLen
  {
    if |buffer| + 1 > maxLen then (buffer + [x])[1..] else buffer + [x]
  }

  /**
   * Fills a bounded deque with the first w readings, yields its sum, then
   * yields the sum again after each further reading. Running out of readings
   * while filling is the ValueError of parsing an empty line.
   */
  method WindowSums(s: seq<int>, w: nat) returns (r: Result<seq<int>>)
    ensures w > |s| ==> r == Err(ValueError)
    ensures w <= |s| ==> r == Ok(Windows(s, w))
  {
    var buffer: seq<int> := [];
    var i := 0;
    while i < w
      invariant i <= w
      invariant i <= |s|
      invariant buffer == s[..i]
    {
      if i == |s| {
        return Err(ValueError);
      }
      buffer := PushBounded(buffer, s[i], w);
      i := i + 1;
    }
    var sums := [Sum(buffer)];
    while i < |s|
      invariant w <= i <= |s|
      invariant buffer == s[i - w..i]
      invariant |sums| == i - w + 1
      invariant forall k :: 0 <= k < |sums| ==> sums[k] == Sum(s[k..k + w])
    {
      buffer := PushBounded(buffer, s[i], w);
      assert buffer == s[i + 1 - w..i + 1];
      i := i + 1;
      sums := sums + [Sum(buffer)];
    }
    assert forall k :: 0 <= k < |sums| ==> sums[k] == Windows(s, w)[k];
    assert sums == Windows(s, w);
    r := Ok(sums);
  }

  lemma WindowOfOne(s: seq<int>)
    requires |s| >= 1
    ensures Windows(s, 1) == s
  {
    forall k | 0 <= k < |s|
      ensures Windows(s, 1)[k] == s[k]
    {
      assert Windows(s, 1)[k] == Sum(s[k..k + 1]);
      assert s[k..k + 1] == [s[k]] + [];
      SumConcat([s[k]], []);
    }
  }

  /**
   * Consecutive windows share all but one reading, so a window sum rises
   * exactly when the reading entering it exceeds the reading leaving it.
   */
  lemma WindowRisesIffEnteringExceedsLeaving(s: seq<int>, w: nat, k: nat)
    requires 1 <= w && k + w < |s|
    ensures Windows(s, w)[k] < Windows(s, w)[k + 1] <==> s[k] < s[k + w]
  {
    var shared := s[k + 1..k + w];
    assert s[k..k + w] == [s[k]] + shared;
    assert s[k + 1..k + 1 + w] == shared + [s[k + w]];
    SumConcat([s[k]], shared);
    SumAppend(shared, s[k + w]);
  }
}
