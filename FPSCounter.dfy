/** The frame-rate counter: each update measures the time since the previous
    one, keeps the latest 30 measurements in a sliding window and reports
    the reciprocal of their mean. The clock is read by the caller and passed
    in; times are seconds as reals. */
module FPSCounter {
  import opened Rounding

  /** At most this many frame times are averaged. */
  const MaxSamples: nat := 30

  /** The samples a window of MaxSamples keeps from a full history of frame
      times: the latest ones, oldest first. */
  function Window(history: seq<real>): (w: seq<real>)
    ensures |w| <= MaxSamples && |w| <= |history| && w == history[|history| - |w|..]
    ensures |history| <= MaxSamples ==> w == history
    ensures |history| > MaxSamples ==> |w| == MaxSamples
  {
    if |history| <= MaxSamples then history else history[|history| - MaxSamples..]
  }

  /** One step of the deque: push the new frame time at the back and, if
      that overflows, pop the front. */
  function Slide(window: seq<real>, delta: real): seq<real>
  {
    var pushed := window + [delta];
    if |pushed| > MaxSamples then pushed[1..] else pushed
  }

  /** Sliding the window kept so far gives the window of the longer history:
      push-then-pop keeps exactly the latest 30 frame times, in order. */
  lemma SlideKeepsLatest(history: seq<real>, delta: real)
    ensures Slide(Window(history), delta) == Window(history + [delta])
  {
    var h := history + [delta];
    if |history| > MaxSamples {
      var w := history[|history| - MaxSamples..];
      assert (w + [delta])[1..] == h[|h| - MaxSamples..];
    } else if |history| == MaxSamples {
      assert (history + [delta])[1..] == h[|h| - MaxSamples..];
    }
  }

  /** The window of a history of positive frame times is non-empty when the
      history is, holds positive times only, and ends with the newest one. */
  lemma WindowPositive(history: seq<real>)
    requires |history| > 0 && forall i :: 0 <= i < |history| ==> history[i] > 0.0
    ensures |Window(history)| > 0
    ensures forall i :: 0 <= i < |Window(history)| ==> Window(history)[i] > 0.0
    ensures Window(history)[|Window(history)| - 1] == history[|history| - 1]
  {
    var w := Window(history);
    assert forall i :: 0 <= i < |w| ==> w[i] == history[|history| - |w| + i];
  }

  /** The rate a non-empty window of positive frame times reports: one over
      their mean. */
  function Rate(window: seq<real>): (r: real)
    requires |window| > 0 && forall i :: 0 <= i < |window| ==> window[i] > 0.0
    ensures r > 0.0
  {
    SumPositive(window);
    1.0 / (Sum(window) / |window| as real)
  }

  /** Positive frame times have a positive sum. */
  lemma {:induction false} SumPositive(s: seq<real>)
    requires |s| > 0 && forall i :: 0 <= i < |s| ==> s[i] > 0.0
    ensures Sum(s) > 0.0
  {
    if |s| > 1 {
      SumPositive(s[..|s| - 1]);
    }
  }

  /** A sum of values that all lie in [lo, hi] lies in [|s|·lo, |s|·hi]. */
  lemma {:induction false} SumWithin(s: seq<real>, lo: real, hi: real)
    requires forall i :: 0 <= i < |s| ==> lo <= s[i] <= hi
    ensures |s| as real * lo <= Sum(s) <= |s| as real * hi
  {
    if s != [] {
      var init := s[..|s| - 1];
      SumWithin(init, lo, hi);
      assert |s| as real * lo == |init| as real * lo + lo;
      assert |s| as real * hi == |init| as real * hi + hi;
    }
  }

  /** Dividing n·a by n gives a back. */
  lemma CancelFactor(a: real, n: real)
    requires n > 0.0
    ensures n * a / n == a
  {
    assert n * a == a * n;
  }

  /** Taking reciprocals reverses the order of positive reals. */
  lemma ReciprocalOrder(a: real, b: real)
    requires 0.0 < a <= b
    ensures 1.0 / b <= 1.0 / a
  {
    ScaleOrder(1.0 / b, 1.0 / a, a * b);
    assert 1.0 / b * (a * b) == a;
    assert 1.0 / a * (a * b) == b;
  }

  /** The mean of values that all lie in [lo, hi] lies in [lo, hi]. */
  lemma MeanWithin(s: seq<real>, lo: real, hi: real)
    requires |s| > 0
    requires forall i :: 0 <= i < |s| ==> lo <= s[i] <= hi
    ensures lo <= Sum(s) / |s| as real <= hi
  {
    SumWithin(s, lo, hi);
    var n := |s| as real;
    QuotientOrder(n * lo, Sum(s), n);
    QuotientOrder(Sum(s), n * hi, n);
    CancelFactor(lo, n);
    CancelFactor(hi, n);
  }

  /** If every kept frame time lies in [lo, hi] with lo > 0, the reported
      rate lies in [1/hi, 1/lo]; in particular a steady frame time d gives
      exactly 1/d frames per second. */
  lemma RateWithin(window: seq<real>, lo: real, hi: real)
    requires |window| > 0 && 0.0 < lo <= hi
    requires forall i :: 0 <= i < |window| ==> lo <= window[i] <= hi
    ensures 1.0 / hi <= Rate(window) <= 1.0 / lo
  {
    MeanWithin(window, lo, hi);
    var mean := Sum(window) / |window| as real;
    ReciprocalOrder(mean, hi);
    ReciprocalOrder(lo, mean);
  }

  /** The averaging loop of update: the frame times added up front to back,
      then divided by their count. */
  method MeanFrameTime(samples: seq<real>) returns (avgTime: real)
    requires |samples| > 0
    ensures avgTime == Sum(samples) / |samples| as real
  {
    avgTime := 0.0;
    for i := 0 to |samples|
      invariant avgTime == Sum(samples[..i])
    {
      assert samples[..i + 1] == samples[..i] + [samples[i]];
      SumAppend(samples[..i], samples[i]);
      avgTime := avgTime + samples[i];
    }
    assert samples[..|samples|] == samples;
    avgTime := avgTime / |samples| as real;
  }

  class FPSCounter {
    var lastTime: real
    var frameTimes: seq<real>
    /** Every frame time measured since construction. */
    ghost var history: seq<real>

    /** The window is the latest frame times of the history, and time only
        moves forward. */
    ghost predicate Valid()
      reads this
    {
      frameTimes == Window(history) &&
      forall i :: 0 <= i < |history| ==> history[i] > 0.0
    }

    /** The counter starts with the current time and no samples. */
    constructor(now: real)
      ensures Valid() && lastTime == now && frameTimes == [] && history == []
    {
      lastTime := now;
      frameTimes := [];
      history := [];
    }

    /** update: the time since the previous update becomes the newest
        sample, the window slides, and the rate over the window is returned. */
    method Update(now: real) returns (fps: real)
      requires Valid() && now > lastTime
      modifies this
      ensures Valid()
      ensures lastTime == now
      ensures history == old(history) + [now - old(lastTime)]
      ensures frameTimes == Slide(old(frameTimes), now - old(lastTime))
      ensures 0 < |frameTimes| <= MaxSamples && frameTimes[|frameTimes| - 1] == now - old(lastTime)
      ensures fps == Rate(frameTimes) && fps > 0.0
    {
      var delta := now - lastTime;
      lastTime := now;
      SlideKeepsLatest(history, delta);
      history := history + [delta];
      var samples := frameTimes + [delta];
      if |samples| > MaxSamples {
        samples := samples[1..];
      }
      frameTimes := samples;
      WindowPositive(history);
      SumPositive(samples);
      var avgTime := MeanFrameTime(samples);
      fps := 1.0 / avgTime;
    }
  }
}
