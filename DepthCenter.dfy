/** The distance estimate at the centre of a depth frame: the mean of the
    usable samples in a small square window around the centre pixel. */
module DepthCenter {
  import opened Rounding
  import opened DepthFrames

  /** Side of the averaging window when the caller gives none. */
  const DefaultWindowSize: nat := 5

  /** Samples at or below one millimetre count as "no return" for the centre estimate. */
  const MinValidDistance: real := 0.001


  /** A pixel the centre estimate may use: inside the frame, with a distance
      above one millimetre and below maxDepth. */
  predicate Usable(frame: DepthFrame, maxDepth: real, x: int, y: int)
    requires frame.Valid()
  {
    0 <= y < frame.height && 0 <= x < frame.width &&
    MinValidDistance < frame.rows[y][x] < maxDepth
  }

  /** The usable samples of row y in columns x0 .. x1-1, left to right. */
  function RowSamples(frame: DepthFrame, maxDepth: real, y: int, x0: int, x1: int): seq<real>
    requires frame.Valid()
    decreases x1 - x0
  {
    if x1 <= x0 then []
    else RowSamples(frame, maxDepth, y, x0, x1 - 1) +
         (if Usable(frame, maxDepth, x1 - 1, y) then [frame.rows[y][x1 - 1]] else [])
  }

  /** The usable samples of rows y0 .. y1-1 and columns x0 .. x1-1, in row-major order. */
  function WindowSamples(frame: DepthFrame, maxDepth: real, y0: int, y1: int, x0: int, x1: int): seq<real>
    requires frame.Valid()
    decreases y1 - y0
  {
    if y1 <= y0 then []
    else WindowSamples(frame, maxDepth, y0, y1 - 1, x0, x1) + RowSamples(frame, maxDepth, y1 - 1, x0, x1)
  }

  /** The sum and the number of the usable distances of row y, columns x0 .. x1-1:
      what the scan accumulates for one row. */
  function RowSum(frame: DepthFrame, maxDepth: real, y: int, x0: int, x1: int): real
    requires frame.Valid()
    decreases x1 - x0
  {
    if x1 <= x0 then 0.0
    else RowSum(frame, maxDepth, y, x0, x1 - 1) + (if Usable(frame, maxDepth, x1 - 1, y) then frame.rows[y][x1 - 1] else 0.0)
  }

  function RowCount(frame: DepthFrame, maxDepth: real, y: int, x0: int, x1: int): nat
    requires frame.Valid()
    decreases x1 - x0
  {
    if x1 <= x0 then 0
    else RowCount(frame, maxDepth, y, x0, x1 - 1) + (if Usable(frame, maxDepth, x1 - 1, y) then 1 else 0)
  }

  /** The same over rows y0 .. y1-1. */
  function WindowSum(frame: DepthFrame, maxDepth: real, y0: int, y1: int, x0: int, x1: int): real
    requires frame.Valid()
    decreases y1 - y0
  {
    if y1 <= y0 then 0.0
    else WindowSum(frame, maxDepth, y0, y1 - 1, x0, x1) + RowSum(frame, maxDepth, y1 - 1, x0, x1)
  }

  function WindowCount(frame: DepthFrame, maxDepth: real, y0: int, y1: int, x0: int, x1: int): nat
    requires frame.Valid()
    decreases y1 - y0
  {
    if y1 <= y0 then 0
    else WindowCount(frame, maxDepth, y0, y1 - 1, x0, x1) + RowCount(frame, maxDepth, y1 - 1, x0, x1)
  }

  /** The scan's answer for a window: the running sum over the running count,
      or the fallback when the count is zero. */
  function WindowEstimate(frame: DepthFrame, maxDepth: real, y0: int, y1: int, x0: int, x1: int, fallback: real): real
    requires frame.Valid()
  {
    var total, count := WindowSum(frame, maxDepth, y0, y1, x0, x1), WindowCount(frame, maxDepth, y0, y1, x0, x1);
    if count > 0 then total / count as real else fallback
  }

  /** The running sum and count of a row are the sum and length of its samples. */
  lemma {:induction false} RowSumOfSamples(frame: DepthFrame, maxDepth: real, y: int, x0: int, x1: int)
    requires frame.Valid()
    ensures RowSum(frame, maxDepth, y, x0, x1) == Sum(RowSamples(frame, maxDepth, y, x0, x1))
    ensures RowCount(frame, maxDepth, y, x0, x1) == |RowSamples(frame, maxDepth, y, x0, x1)|
    decreases x1 - x0
  {
    if x1 > x0 {
      RowSumOfSamples(frame, maxDepth, y, x0, x1 - 1);
      var init := RowSamples(frame, maxDepth, y, x0, x1 - 1);
      if Usable(frame, maxDepth, x1 - 1, y) {
        SumAppend(init, frame.rows[y][x1 - 1]);
      } else {
        assert RowSamples(frame, maxDepth, y, x0, x1) == init;
      }
    } else {
      assert RowSamples(frame, maxDepth, y, x0, x1) == [];
    }
  }

  /** The same for a window. */
  lemma {:induction false} WindowSumOfSamples(frame: DepthFrame, maxDepth: real, y0: int, y1: int, x0: int, x1: int)
    requires frame.Valid()
    ensures WindowSum(frame, maxDepth, y0, y1, x0, x1) == Sum(WindowSamples(frame, maxDepth, y0, y1, x0, x1))
    ensures WindowCount(frame, maxDepth, y0, y1, x0, x1) == |WindowSamples(frame, maxDepth, y0, y1, x0, x1)|
    decreases y1 - y0
  {
    if y1 > y0 {
      WindowSumOfSamples(frame, maxDepth, y0, y1 - 1, x0, x1);
      RowSumOfSamples(frame, maxDepth, y1 - 1, x0, x1);
      SumConcat(WindowSamples(frame, maxDepth, y0, y1 - 1, x0, x1), RowSamples(frame, maxDepth, y1 - 1, x0, x1));
    } else {
      assert WindowSamples(frame, maxDepth, y0, y1, x0, x1) == [];
    }
  }

  /** Every sample of a row is the distance of a usable pixel of that row's column range. */
  lemma {:induction false} RowSamplesSound(frame: DepthFrame, maxDepth: real, y: int, x0: int, x1: int)
    requires frame.Valid()
    ensures forall v :: v in RowSamples(frame, maxDepth, y, x0, x1) ==>
      exists x :: x0 <= x < x1 && Usable(frame, maxDepth, x, y) && frame.rows[y][x] == v
    decreases x1 - x0
  {
    if x1 > x0 {
      RowSamplesSound(frame, maxDepth, y, x0, x1 - 1);
      var init := RowSamples(frame, maxDepth, y, x0, x1 - 1);
      var s := RowSamples(frame, maxDepth, y, x0, x1);
      assert s == init + (if Usable(frame, maxDepth, x1 - 1, y) then [frame.rows[y][x1 - 1]] else []);
      forall v | v in s
        ensures exists x :: x0 <= x < x1 && Usable(frame, maxDepth, x, y) && frame.rows[y][x] == v
      {
        if v in init {
          var x :| x0 <= x < x1 - 1 && Usable(frame, maxDepth, x, y) && frame.rows[y][x] == v;
          assert x0 <= x < x1;
        } else {
          assert x0 <= x1 - 1 < x1 && Usable(frame, maxDepth, x1 - 1, y) && frame.rows[y][x1 - 1] == v;
        }
      }
    } else {
      assert RowSamples(frame, maxDepth, y, x0, x1) == [];
    }
  }

  /** Every usable pixel of a row's column range contributes its sample. */
  lemma {:induction false} RowSamplesComplete(frame: DepthFrame, maxDepth: real, y: int, x0: int, x1: int)
    requires frame.Valid()
    ensures forall x :: x0 <= x < x1 && Usable(frame, maxDepth, x, y) ==>
      frame.rows[y][x] in RowSamples(frame, maxDepth, y, x0, x1)
    decreases x1 - x0
  {
    if x1 > x0 {
      RowSamplesComplete(frame, maxDepth, y, x0, x1 - 1);
      var init := RowSamples(frame, maxDepth, y, x0, x1 - 1);
      var s := RowSamples(frame, maxDepth, y, x0, x1);
      assert s == init + (if Usable(frame, maxDepth, x1 - 1, y) then [frame.rows[y][x1 - 1]] else []);
      forall x | x0 <= x < x1 && Usable(frame, maxDepth, x, y)
        ensures frame.rows[y][x] in s
      {
        if x < x1 - 1 {
          assert frame.rows[y][x] in init;
        } else {
          assert s[|s| - 1] == frame.rows[y][x];
        }
      }
    }
  }

  /** Every sample of a window is the distance of a usable pixel of the window. */
  lemma {:induction false} WindowSamplesSound(frame: DepthFrame, maxDepth: real, y0: int, y1: int, x0: int, x1: int)
    requires frame.Valid()
    ensures forall v :: v in WindowSamples(frame, maxDepth, y0, y1, x0, x1) ==>
      exists x, y :: y0 <= y < y1 && x0 <= x < x1 && Usable(frame, maxDepth, x, y) && frame.rows[y][x] == v
    decreases y1 - y0
  {
    if y1 > y0 {
      var yl := y1 - 1;
      WindowSamplesSound(frame, maxDepth, y0, yl, x0, x1);
      RowSamplesSound(frame, maxDepth, yl, x0, x1);
      var init := WindowSamples(frame, maxDepth, y0, yl, x0, x1);
      var row := RowSamples(frame, maxDepth, yl, x0, x1);
      var s := WindowSamples(frame, maxDepth, y0, y1, x0, x1);
      assert s == init + row;
      forall v | v in s
        ensures exists x, y :: y0 <= y < y1 && x0 <= x < x1 && Usable(frame, maxDepth, x, y) && frame.rows[y][x] == v
      {
        if v in init {
          var x, y :| y0 <= y < yl && x0 <= x < x1 && Usable(frame, maxDepth, x, y) && frame.rows[y][x] == v;
          assert y0 <= y < y1;
        } else {
          assert v in row;
          var x :| x0 <= x < x1 && Usable(frame, maxDepth, x, yl) && frame.rows[yl][x] == v;
          assert y0 <= yl < y1;
        }
      }
    } else {
      assert WindowSamples(frame, maxDepth, y0, y1, x0, x1) == [];
    }
  }

  /** Every usable pixel of a window contributes its sample. */
  lemma {:induction false} WindowSamplesComplete(frame: DepthFrame, maxDepth: real, y0: int, y1: int, x0: int, x1: int)
    requires frame.Valid()
    ensures forall x, y :: y0 <= y < y1 && x0 <= x < x1 && Usable(frame, maxDepth, x, y) ==>
      frame.rows[y][x] in WindowSamples(frame, maxDepth, y0, y1, x0, x1)
    decreases y1 - y0
  {
    if y1 > y0 {
      var yl := y1 - 1;
      WindowSamplesComplete(frame, maxDepth, y0, yl, x0, x1);
      RowSamplesComplete(frame, maxDepth, yl, x0, x1);
      var init := WindowSamples(frame, maxDepth, y0, yl, x0, x1);
      var row := RowSamples(frame, maxDepth, yl, x0, x1);
      var s := WindowSamples(frame, maxDepth, y0, y1, x0, x1);
      assert s == init + row;
      forall x, y | y0 <= y < y1 && x0 <= x < x1 && Usable(frame, maxDepth, x, y)
        ensures frame.rows[y][x] in s
      {
        if y < yl {
          assert frame.rows[y][x] in init;
        } else {
          assert frame.rows[y][x] in row;
        }
      }
    }
  }

  /** Every sample of a window is a usable distance, so it lies strictly
      between 1 mm and maxDepth. */
  lemma WindowSamplesInRange(frame: DepthFrame, maxDepth: real, y0: int, y1: int, x0: int, x1: int)
    requires frame.Valid()
    ensures var s := WindowSamples(frame, maxDepth, y0, y1, x0, x1);
      forall i :: 0 <= i < |s| ==> MinValidDistance < s[i] < maxDepth
  {
    WindowSamplesSound(frame, maxDepth, y0, y1, x0, x1);
    var s := WindowSamples(frame, maxDepth, y0, y1, x0, x1);
    forall i | 0 <= i < |s| ensures MinValidDistance < s[i] < maxDepth {
      assert s[i] in s;
      var x, y :| y0 <= y < y1 && x0 <= x < x1 && Usable(frame, maxDepth, x, y) && frame.rows[y][x] == s[i];
    }
  }

  /** The scan's answer is the mean of the window's samples when there are
      any, and the fallback otherwise. */
  lemma WindowEstimateIsMean(frame: DepthFrame, maxDepth: real, y0: int, y1: int, x0: int, x1: int, fallback: real)
    requires frame.Valid()
    ensures var s := WindowSamples(frame, maxDepth, y0, y1, x0, x1);
      WindowEstimate(frame, maxDepth, y0, y1, x0, x1, fallback) ==
        if |s| > 0 then Sum(s) / |s| as real else fallback
  {
    WindowSumOfSamples(frame, maxDepth, y0, y1, x0, x1);
    var s := WindowSamples(frame, maxDepth, y0, y1, x0, x1);
    var total, count := WindowSum(frame, maxDepth, y0, y1, x0, x1), WindowCount(frame, maxDepth, y0, y1, x0, x1);
    if count > 0 {
      SameQuotient(total, count as real, Sum(s), |s| as real);
    }
  }

  /** When the window holds any usable pixel, the scan's answer lies strictly
      between 1 mm and maxDepth. */
  lemma WindowEstimateInRange(frame: DepthFrame, maxDepth: real, y0: int, y1: int, x0: int, x1: int, fallback: real)
    requires frame.Valid() && WindowCount(frame, maxDepth, y0, y1, x0, x1) > 0
    ensures MinValidDistance < WindowEstimate(frame, maxDepth, y0, y1, x0, x1, fallback) < maxDepth
  {
    WindowSumOfSamples(frame, maxDepth, y0, y1, x0, x1);
    WindowEstimateIsMean(frame, maxDepth, y0, y1, x0, x1, fallback);
    WindowSamplesInRange(frame, maxDepth, y0, y1, x0, x1);
    MeanBetween(WindowSamples(frame, maxDepth, y0, y1, x0, x1), MinValidDistance, maxDepth);
  }

  // The centre window: the square of side windowSize (rounded up to odd)
  // around (width/2, height/2), scanned row by row. Its samples, its mean
  // and its range are those of any window, stated above for all bounds.

  /** What calculateCenterDistance computes: the scan's answer for the centre
      window, falling back on the raw centre pixel. */
  function CenterDistance(frame: DepthFrame, maxDepth: real, windowSize: nat): real
    requires frame.Valid() && frame.width > 0 && frame.height > 0
  {
    var cx, cy, half := frame.width / 2, frame.height / 2, windowSize / 2;
    WindowEstimate(frame, maxDepth, cy - half, cy + half + 1, cx - half, cx + half + 1, frame.rows[cy][cx])
  }

  /** calculateCenterDistance: scans the window row by row, accumulating the
      usable distances and their count; divides if any were found and
      otherwise reads the single centre pixel. */
  method CalculateCenterDistance(frame: DepthFrame, maxDepth: real, windowSize: nat) returns (centerDist: real)
    requires frame.Valid() && frame.width > 0 && frame.height > 0
    ensures centerDist == CenterDistance(frame, maxDepth, windowSize)
  {
    var centerX, centerY := frame.width / 2, frame.height / 2;
    var half := windowSize / 2;
    ghost var y0, x0, x1 := centerY - half, centerX - half, centerX + half + 1;
    var sum := 0.0;
    var validCount := 0;
    var y := centerY - half;
    while y <= centerY + half
      invariant y0 <= y <= centerY + half + 1
      invariant sum == WindowSum(frame, maxDepth, y0, y, x0, x1)
      invariant validCount == WindowCount(frame, maxDepth, y0, y, x0, x1)
    {
      ghost var sumBefore, countBefore := sum, validCount;
      var x := centerX - half;
      while x <= centerX + half
        invariant x0 <= x <= x1
        invariant sum == sumBefore + RowSum(frame, maxDepth, y, x0, x)
        invariant validCount == countBefore + RowCount(frame, maxDepth, y, x0, x)
      {
        if y >= 0 && y < frame.height && x >= 0 && x < frame.width {
          var dist := frame.rows[y][x];
          if dist > MinValidDistance && dist < maxDepth {
            sum := sum + dist;
            validCount := validCount + 1;
          }
        }
        x := x + 1;
      }
      y := y + 1;
    }
    if validCount > 0 {
      centerDist := sum / validCount as real;
    } else {
      centerDist := frame.rows[centerY][centerX];
    }
  }
}
