/**
 * Lanternfish: the population is kept as a bucket array, bucket t holding
 * the number of fish whose timer shows t. Each day every timer moves down
 * one bucket; the fish at 0 go to the end and as many again are added at
 * the respawn offset.
 */
module Day6Lanternfish {
  import opened Common

  /** Zero buckets appended until there is one for the respawn offset. */
  function Pad(distribution: seq<nat>, respawnOffset: nat): (d: seq<nat>)
    ensures |d| == Max(|distribution|, respawnOffset + 1)
    ensures d[..|distribution|] == distribution
    ensures forall t :: |distribution| <= t < |d| ==> d[t] == 0
  {
    if |distribution| < respawnOffset + 1 then distribution + seq(respawnOffset - |distribution| + 1, _ => 0)
    else distribution
  }

  /** One day: rotate left by one bucket, then add the old head into the respawn bucket. */
  function Step(d: seq<nat>, respawnOffset: nat): seq<nat>
    requires respawnOffset < |d|
  {
    var rotated := d[1..] + [d[0]];
    rotated[respawnOffset := rotated[respawnOffset] + d[0]]
  }

  /** The distribution after a number of days. */
  function Progress(days: nat, d: seq<nat>, respawnOffset: nat): (r: seq<nat>)
    requires respawnOffset < |d|
    ensures |r| == |d|
  {
    if days == 0 then d else Progress(days - 1, Step(d, respawnOffset), respawnOffset)
  }

  /** Pads the distribution, then steps it day by day; a negative number of days steps nothing. */
  method ProgressPopulation(days: int, distribution: seq<nat>, respawnOffset: nat) returns (r: seq<nat>)
    ensures r == Progress(Max(days, 0), Pad(distribution, respawnOffset), respawnOffset)
  {
    r := distribution;
    if |r| < respawnOffset + 1 {
      r := r + seq(respawnOffset - |r| + 1, _ => 0);
    }
    ghost var padded := r;
    for day := 0 to Max(days, 0)
      invariant respawnOffset < |r|
      invariant Progress(Max(days, 0) - day, r, respawnOffset) == Progress(Max(days, 0), padded, respawnOffset)
    {
      var num := r[0];
      r := r[1..] + [num];
      r := r[respawnOffset := r[respawnOffset] + num];
    }
  }

  /** A day keeps the number of buckets. */
  lemma StepKeepsLength(d: seq<nat>, respawnOffset: nat)
    requires respawnOffset < |d|
    ensures |Step(d, respawnOffset)| == |d|
  {
  }

  /** A day adds exactly the fish that were at timer 0: the population never shrinks. */
  lemma {:induction false} StepGrowsByHead(d: seq<nat>, respawnOffset: nat)
    requires respawnOffset < |d|
    ensures Sum(Step(d, respawnOffset)) == Sum(d) + d[0]
    ensures Sum(Step(d, respawnOffset)) >= Sum(d)
  {
    var rotated := d[1..] + [d[0]];
    var stepped := rotated[respawnOffset := rotated[respawnOffset] + d[0]];
    assert Step(d, respawnOffset) == stepped;
    SumAppend(d[1..], d[0]);
    SumUpdate(rotated, respawnOffset, rotated[respawnOffset] + d[0]);
  }

  /** Replacing one element changes the sum by the difference. */
  lemma {:induction false} SumUpdate(s: seq<int>, i: nat, v: int)
    requires i < |s|
    ensures Sum(s[i := v]) == Sum(s) - s[i] + v
  {
    if i == 0 {
      assert s[i := v][1..] == s[1..];
    } else {
      SumUpdate(s[1..], i - 1, v);
      assert s[i := v][1..] == s[1..][i - 1 := v];
    }
  }

  /** The population after a number of days is the padded one plus what each day added. */
  lemma {:induction false} ProgressNeverShrinks(days: nat, d: seq<nat>, respawnOffset: nat)
    requires respawnOffset < |d|
    ensures Sum(Progress(days, d, respawnOffset)) >= Sum(d)
  {
    if days > 0 {
      StepGrowsByHead(d, respawnOffset);
      ProgressNeverShrinks(days - 1, Step(d, respawnOffset), respawnOffset);
    }
  }

  /** No days: the padded input comes back. */
  lemma NoDaysIsPadding(distribution: seq<nat>, respawnOffset: nat)
    ensures Progress(0, Pad(distribution, respawnOffset), respawnOffset) == Pad(distribution, respawnOffset)
    ensures Pad(distribution, respawnOffset)[..|distribution|] == distribution
  {
  }

  lemma Examples()
    ensures Progress(1, Pad([0, 1], 6), 6) == [1, 0, 0, 0, 0, 0, 0]
    ensures Progress(1, Pad([0, 1], 1), 1) == [1, 0]
    ensures Progress(2, Pad([0, 1], 6), 6) == [0, 0, 0, 0, 0, 0, 2]
    ensures Progress(2, Pad([0, 1], 1), 1) == [0, 2]
    ensures Progress(3, Pad([0, 1, 0, 0, 0, 0, 0, 0], 6), 6) == [0, 0, 0, 0, 0, 1, 1, 0]
  {
    assert Pad([0, 1], 6) == [0, 1, 0, 0, 0, 0, 0];
    assert Step([0, 1, 0, 0, 0, 0, 0], 6) == [1, 0, 0, 0, 0, 0, 0];
    assert Step([1, 0, 0, 0, 0, 0, 0], 6) == [0, 0, 0, 0, 0, 0, 2];
    assert Step([0, 1], 1) == [1, 0];
    assert Step([1, 0], 1) == [0, 2];
    assert Step([0, 1, 0, 0, 0, 0, 0, 0], 6) == [1, 0, 0, 0, 0, 0, 0, 0];
    assert Step([1, 0, 0, 0, 0, 0, 0, 0], 6) == [0, 0, 0, 0, 0, 0, 1, 1];
    assert Step([0, 0, 0, 0, 0, 0, 1, 1], 6) == [0, 0, 0, 0, 0, 1, 1, 0];
  }

  /*
   * The bucket array against the fish themselves: a fish whose timer is 0
   * restarts at the respawn offset and adds a fish at the last timer; any
   * other fish counts down by one.
   */

  /** The timers of the fish after one day. */
  function AgeFish(fish: seq<nat>, respawnOffset: nat, buckets: nat): seq<nat>
    requires buckets > 0
  {
    if fish == [] then []
    else
      AgeFish(fish[..|fish| - 1], respawnOffset, buckets) + AgeOne(fish[|fish| - 1], respawnOffset, buckets)
  }

  /** One fish after a day: itself, and its offspring when its timer was 0. */
  function AgeOne(timer: nat, respawnOffset: nat, buckets: nat): seq<nat>
    requires buckets > 0
  {
    if timer == 0 then [respawnOffset, buckets - 1] else [timer - 1]
  }

  /** The number of fish whose timer shows t. */
  function CountOf(fish: seq<nat>, t: nat): nat
  {
    if fish == [] then 0
    else CountOf(fish[..|fish| - 1], t) + (if fish[|fish| - 1] == t then 1 else 0)
  }

  /** The bucket array of a set of fish. */
  function Histogram(fish: seq<nat>, buckets: nat): (h: seq<nat>)
    ensures |h| == buckets
  {
    seq(buckets, t requires 0 <= t < buckets => CountOf(fish, t))
  }

  lemma {:induction false} CountOfAppend(a: seq<nat>, b: seq<nat>, t: nat)
    ensures CountOf(a + b, t) == CountOf(a, t) + CountOf(b, t)
  {
    if b == [] {
      assert a + b == a;
    } else {
      assert (a + b)[..|a + b| - 1] == a + b[..|b| - 1];
      CountOfAppend(a, b[..|b| - 1], t);
    }
  }

  /** Fish by fish, the count at timer t after a day. */
  lemma {:induction false} CountAfterDay(fish: seq<nat>, respawnOffset: nat, buckets: nat, t: nat)
    requires buckets > 0
    ensures CountOf(AgeFish(fish, respawnOffset, buckets), t)
      == CountOf(fish, t + 1)
        + (if t == buckets - 1 then CountOf(fish, 0) else 0)
        + (if t == respawnOffset then CountOf(fish, 0) else 0)
  {
    if fish != [] {
      var init, last := fish[..|fish| - 1], fish[|fish| - 1];
      CountAfterDay(init, respawnOffset, buckets, t);
      CountOfAppend(AgeFish(init, respawnOffset, buckets), AgeOne(last, respawnOffset, buckets), t);
      CountOfAgeOne(last, respawnOffset, buckets, t);
    }
  }

  lemma CountOfAgeOne(timer: nat, respawnOffset: nat, buckets: nat, t: nat)
    requires buckets > 0
    ensures CountOf(AgeOne(timer, respawnOffset, buckets), t)
      == (if timer == t + 1 then 1 else 0)
        + (if timer == 0 && t == buckets - 1 then 1 else 0)
        + (if timer == 0 && t == respawnOffset then 1 else 0)
  {
    var one := AgeOne(timer, respawnOffset, buckets);
    if timer == 0 {
      assert one[..1] == [respawnOffset];
      assert [respawnOffset][..0] == [];
      assert CountOf([respawnOffset], t) == (if t == respawnOffset then 1 else 0);
      assert CountOf(one, t) == CountOf([respawnOffset], t) + (if t == buckets - 1 then 1 else 0);
    } else {
      assert one[..0] == [];
      assert CountOf(one, t) == (if timer - 1 == t then 1 else 0);
    }
  }

  /**
   * The bucket array evolves as the fish do: stepping the histogram of the
   * fish gives the histogram of the aged fish.
   */
  lemma {:induction false} HistogramOfAgedFish(fish: seq<nat>, respawnOffset: nat, buckets: nat)
    requires respawnOffset < buckets
    requires forall k :: 0 <= k < |fish| ==> fish[k] < buckets
    ensures Histogram(AgeFish(fish, respawnOffset, buckets), buckets)
      == Step(Histogram(fish, buckets), respawnOffset)
  {
    var h := Histogram(fish, buckets);
    var lhs := Histogram(AgeFish(fish, respawnOffset, buckets), buckets);
    var rhs := Step(h, respawnOffset);
    forall t | 0 <= t < buckets
      ensures lhs[t] == rhs[t]
    {
      StepAt(h, respawnOffset, t);
      CountAfterDay(fish, respawnOffset, buckets, t);
      if t == buckets - 1 {
        NoneBeyond(fish, buckets, t + 1);
      } else {
        assert h[t + 1] == CountOf(fish, t + 1);
      }
    }
  }

  /** Bucket t after a day: the next bucket up (the head for the last one), plus the head at the respawn offset. */
  lemma StepAt(d: seq<nat>, respawnOffset: nat, t: nat)
    requires respawnOffset < |d| && t < |d|
    ensures Step(d, respawnOffset)[t]
      == (if t + 1 < |d| then d[t + 1] else d[0]) + (if t == respawnOffset then d[0] else 0)
  {
  }

  /** No fish shows a timer outside the buckets. */
  lemma {:induction false} NoneBeyond(fish: seq<nat>, buckets: nat, t: nat)
    requires forall k :: 0 <= k < |fish| ==> fish[k] < buckets
    requires t >= buckets
    ensures CountOf(fish, t) == 0
  {
    if fish != [] {
      NoneBeyond(fish[..|fish| - 1], buckets, t);
    }
  }
}
