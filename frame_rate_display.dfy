/** The on-screen frame-rate meter: a window of the most recent frame-rate
    samples, at most maxSamples long, and their average. The sample is a
    parameter of update instead of a call to p5's frameRate(). */
module FrameRate {
  import opened Common

  /** The window after one update: the sample appended, then the oldest
      sample dropped if the window has grown past maxSamples. */
  function Pushed(window: seq<real>, sample: real, maxSamples: nat): seq<real> {
    var pushed := window + [sample];
    if |pushed| > maxSamples then pushed[1..] else pushed
  }

  /** The window after feeding the samples, in arrival order, into an
      empty meter. */
  function Feed(samples: seq<real>, maxSamples: nat): seq<real>
    decreases |samples|
  {
    if samples == [] then []
    else Pushed(Feed(samples[..|samples| - 1], maxSamples), samples[|samples| - 1], maxSamples)
  }

  function Min(a: int, b: int): int {
    if a <= b then a else b
  }

  /** Array.prototype.reduce((acc, val) => acc + val, 0): a left fold. */
  function Sum(w: seq<real>): real
    decreases |w|
  {
    if w == [] then 0.0 else Sum(w[..|w| - 1]) + w[|w| - 1]
  }

  /** An update ends the window with the new sample (unless the window
      cannot hold any), and drops at most the one oldest sample. */
  lemma PushedKeepsNewest(window: seq<real>, sample: real, maxSamples: nat)
    ensures maxSamples >= 1 ==> |Pushed(window, sample, maxSamples)| >= 1 && Pushed(window, sample, maxSamples)[|Pushed(window, sample, maxSamples)| - 1] == sample
    ensures |window| < maxSamples ==> Pushed(window, sample, maxSamples) == window + [sample]
    ensures |window| >= maxSamples ==> Pushed(window, sample, maxSamples) == (window + [sample])[1..]
  {
  }

  /** An update never lets the window grow past maxSamples. */
  lemma PushedBounded(window: seq<real>, sample: real, maxSamples: nat)
    requires |window| <= maxSamples
    ensures |Pushed(window, sample, maxSamples)| <= maxSamples
    ensures |Pushed(window, sample, maxSamples)| == Min(|window| + 1, maxSamples)
  {
  }

  /** Starting empty, after n updates the window holds the last
      min(n, maxSamples) samples in arrival order. */
  lemma {:induction false} FeedKeepsLastSamples(samples: seq<real>, maxSamples: nat)
    ensures Feed(samples, maxSamples) == samples[|samples| - Min(|samples|, maxSamples)..]
    decreases |samples|
  {
    if samples != [] {
      var prefix, last := samples[..|samples| - 1], samples[|samples| - 1];
      FeedKeepsLastSamples(prefix, maxSamples);
      var w := Feed(prefix, maxSamples);
      var start := |prefix| - Min(|prefix|, maxSamples);
      assert w == prefix[start..];
      assert w + [last] == samples[start..];
      if |w + [last]| > maxSamples {
        assert samples[start..][1..] == samples[start + 1..];
      }
    }
  }

  /** Every window an empty meter reaches is within the bound. */
  lemma FeedBounded(samples: seq<real>, maxSamples: nat)
    ensures |Feed(samples, maxSamples)| <= maxSamples
  {
    FeedKeepsLastSamples(samples, maxSamples);
  }

  /** Each sample within [lo, hi] puts the sum within [n * lo, n * hi]. */
  lemma {:induction false} SumBetween(w: seq<real>, lo: real, hi: real)
    requires forall i | 0 <= i < |w| :: lo <= w[i] <= hi
    ensures |w| as real * lo <= Sum(w) <= |w| as real * hi
    decreases |w|
  {
    if w != [] {
      SumBetween(w[..|w| - 1], lo, hi);
      assert |w| as real == (|w| - 1) as real + 1.0;
    }
  }

  class FrameRateDisplay {
    const pos: Vec
    const maxSamples: nat
    var frameRates: seq<real>
    /** Every sample ever recorded, oldest first. */
    ghost var history: seq<real>

    /** The window is what feeding the whole history into an empty meter
        leaves: the last min(|history|, maxSamples) samples. */
    ghost predicate Valid()
      reads this
    {
      frameRates == Feed(history, maxSamples)
    }

    constructor (pos: Vec, maxSamples: nat := 60)
      ensures Valid()
      ensures this.pos == pos && this.maxSamples == maxSamples
      ensures frameRates == [] && history == []
    {
      this.pos := pos;
      this.maxSamples := maxSamples;
      frameRates := [];
      history := [];
    }

    /** Records one frame-rate sample. */
    method Update(currentFrameRate: real)
      requires Valid()
      modifies this
      ensures Valid()
      ensures frameRates == Pushed(old(frameRates), currentFrameRate, maxSamples)
      ensures history == old(history) + [currentFrameRate]
      ensures |frameRates| <= maxSamples
    {
      frameRates := frameRates + [currentFrameRate];
      if |frameRates| > maxSamples {
        frameRates := frameRates[1..];
      }
      history := history + [currentFrameRate];
      assert history[..|history| - 1] == old(history);
      FeedBounded(history, maxSamples);
    }

    /** The window always holds the most recent samples in arrival order. */
    lemma WindowIsRecentHistory()
      requires Valid()
      ensures frameRates == history[|history| - Min(|history|, maxSamples)..]
    {
      FeedKeepsLastSamples(history, maxSamples);
    }

    /** The mean of the window. The source divides by the length even when
        the window is empty (giving NaN); that case is None here. */
    function AverageFrameRate(): (avg: Option<real>)
      reads this
      ensures avg.None? <==> frameRates == []
      ensures avg.Some? ==> avg.value * |frameRates| as real == Sum(frameRates)
    {
      if |frameRates| == 0 then None else Some(Sum(frameRates) / |frameRates| as real)
    }

    /** The average lies between the smallest and the largest sample. */
    lemma AverageBetween(lo: real, hi: real)
      requires frameRates != []
      requires forall i | 0 <= i < |frameRates| :: lo <= frameRates[i] <= hi
      ensures lo <= AverageFrameRate().value <= hi
    {
      var n := |frameRates| as real;
      SumBetween(frameRates, lo, hi);
      var avg := AverageFrameRate().value;
      var sum := Sum(frameRates);
      assert n > 0.0 && avg * n == sum;
      assert lo * n <= sum && sum <= hi * n;
      assert lo * n <= avg * n && avg * n <= hi * n;
      ScaleBack(lo, avg, n);
      ScaleBack(avg, hi, n);
    }
  }
}
