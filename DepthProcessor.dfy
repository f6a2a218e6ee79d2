/** DepthProcessor: turns a depth frame into an 8-bit image by one of two
    quantisation strategies and estimates the distance at the frame centre.
    All of it is stateless; the conversions fill images pixel by pixel, as
    the source's nested loops do. */
module DepthProcessor {
  import opened Rounding
  import opened DepthFrames
  import opened DepthCenter

  // ---------------------------------------------------------------------------
  // Per-pixel quantisation

  /** The masking test both strategies share: a sample is kept iff it lies in
      [minDepth, maxDepth] and is positive. */
  predicate Kept(v: real, minDepth: real, maxDepth: real)
  {
    !(v < minDepth || v > maxDepth || v <= 0.0)
  }

  /** The value the direct strategy stores in its float image: the sample if
      kept, else 0. */
  function Masked(v: real, minDepth: real, maxDepth: real): real
  {
    if Kept(v, minDepth, maxDepth) then v else 0.0
  }

  /** Direct strategy for one pixel: subtract minDepth from the masked value,
      divide by the range, then convert to 8 bit with scale 255 (a saturating
      round to nearest). Masked pixels go through the same arithmetic. */
  function DirectPixel(v: real, minDepth: real, maxDepth: real): int
    requires minDepth < maxDepth
  {
    SaturateCastU8((Masked(v, minDepth, maxDepth) - minDepth) / (maxDepth - minDepth) * 255.0)
  }

  /** First stage of the step-by-step strategy: the 16-bit intermediate, the
      scaled fraction truncated by a cast to unsigned short, or 0 if masked. */
  function Step16(v: real, minDepth: real, maxDepth: real): int
    requires minDepth < maxDepth
  {
    if Kept(v, minDepth, maxDepth) then Trunc((v - minDepth) / (maxDepth - minDepth) * 65535.0) else 0
  }

  /** Second stage: convert the 16-bit value to 8 bit with scale 1/256, again a
      saturating round to nearest (not a shift). */
  function StepPixel(v: real, minDepth: real, maxDepth: real): int
    requires minDepth < maxDepth
  {
    SaturateCastU8(Step16(v, minDepth, maxDepth) as real * (1.0 / 256.0))
  }

  /** The fraction (v - min) / (max - min) of a sample in [min, max] lies in [0, 1]. */
  lemma FractionInUnit(v: real, minDepth: real, maxDepth: real)
    requires minDepth <= v <= maxDepth && minDepth < maxDepth
    ensures 0.0 <= (v - minDepth) / (maxDepth - minDepth) <= 1.0
  {
    var d := maxDepth - minDepth;
    QuotientOrder(0.0, v - minDepth, d);
    QuotientOrder(v - minDepth, d, d);
    SelfQuotient(d);
  }

  /** The fraction grows with the sample. */
  lemma FractionMonotone(v1: real, v2: real, minDepth: real, maxDepth: real)
    requires v1 <= v2 && minDepth < maxDepth
    ensures (v1 - minDepth) / (maxDepth - minDepth) <= (v2 - minDepth) / (maxDepth - minDepth)
  {
    QuotientOrder(v1 - minDepth, v2 - minDepth, maxDepth - minDepth);
  }

  /** Both strategies put 0 on every pixel that fails the mask; the direct
      strategy only because minDepth >= 0 makes its shifted zero non-positive,
      which saturation then clamps to 0. */
  lemma MaskedPixelIsZero(v: real, minDepth: real, maxDepth: real)
    requires 0.0 <= minDepth < maxDepth
    requires !Kept(v, minDepth, maxDepth)
    ensures DirectPixel(v, minDepth, maxDepth) == 0
    ensures Step16(v, minDepth, maxDepth) == 0 && StepPixel(v, minDepth, maxDepth) == 0
  {
    var d := maxDepth - minDepth;
    QuotientOrder(0.0 - minDepth, 0.0, d);
    var t := (0.0 - minDepth) / d;
    assert RoundHalfEven(t * 255.0) <= 0;
  }

  /** Without minDepth >= 0 the direct strategy leaks: a "no return" sample
      with range [-1, 1] becomes 128 (127.5 rounded to even), where the
      step-by-step strategy gives 0. */
  lemma DirectMaskNeedsNonNegativeMin()
    ensures !Kept(0.0, -1.0, 1.0)
    ensures DirectPixel(0.0, -1.0, 1.0) == 128
    ensures StepPixel(0.0, -1.0, 1.0) == 0
  {
    assert (0.0 - -1.0) / (1.0 - -1.0) * 255.0 == 127.5;
    assert (127.5).Floor == 127;
  }

  /** A kept sample is converted to the integer nearest to 255·t, where t is
      its position in the range; no saturation is involved. */
  lemma DirectIsNearest(v: real, minDepth: real, maxDepth: real)
    requires minDepth < maxDepth && Kept(v, minDepth, maxDepth)
    ensures var x := (v - minDepth) / (maxDepth - minDepth) * 255.0;
      DirectPixel(v, minDepth, maxDepth) == RoundHalfEven(x) &&
      x - 0.5 <= DirectPixel(v, minDepth, maxDepth) as real <= x + 0.5
  {
    FractionInUnit(v, minDepth, maxDepth);
  }

  /** A kept sample's 16-bit value is the truncated 65535·t, in [0, 65535],
      and its 8-bit value is that divided by 256, rounded to nearest and
      saturated at 255. */
  lemma StepIsTruncThenNearest(v: real, minDepth: real, maxDepth: real)
    requires minDepth < maxDepth && Kept(v, minDepth, maxDepth)
    ensures var u := Step16(v, minDepth, maxDepth);
      0 <= u <= 65535 &&
      u == ((v - minDepth) / (maxDepth - minDepth) * 65535.0).Floor &&
      StepPixel(v, minDepth, maxDepth) == SaturateU8(RoundHalfEven(u as real / 256.0))
  {
    FractionInUnit(v, minDepth, maxDepth);
    var u := Step16(v, minDepth, maxDepth);
    assert u as real * (1.0 / 256.0) == u as real / 256.0;
  }

  /** The ends of the range: maxDepth gives 255 (via 65535 for the step-by-step
      strategy), and a positive minDepth gives 0. */
  lemma RangeEndpoints(minDepth: real, maxDepth: real)
    requires minDepth < maxDepth && 0.0 < maxDepth
    ensures DirectPixel(maxDepth, minDepth, maxDepth) == 255
    ensures Step16(maxDepth, minDepth, maxDepth) == 65535
    ensures StepPixel(maxDepth, minDepth, maxDepth) == 255
    ensures 0.0 < minDepth ==>
      DirectPixel(minDepth, minDepth, maxDepth) == 0 &&
      Step16(minDepth, minDepth, maxDepth) == 0 &&
      StepPixel(minDepth, minDepth, maxDepth) == 0
  {
    var d := maxDepth - minDepth;
    SelfQuotient(d);
    assert (minDepth - minDepth) / d == 0.0;
    assert (65535.0 as real).Floor == 65535;
    assert RoundHalfEven(65535.0 * (1.0 / 256.0)) == 256;
  }

  /** Within the kept range the direct strategy never decreases as the sample grows. */
  lemma DirectMonotone(v1: real, v2: real, minDepth: real, maxDepth: real)
    requires minDepth < maxDepth && Kept(v1, minDepth, maxDepth) && Kept(v2, minDepth, maxDepth)
    requires v1 <= v2
    ensures DirectPixel(v1, minDepth, maxDepth) <= DirectPixel(v2, minDepth, maxDepth)
  {
    FractionMonotone(v1, v2, minDepth, maxDepth);
    var d := maxDepth - minDepth;
    RoundHalfEvenMonotone((v1 - minDepth) / d * 255.0, (v2 - minDepth) / d * 255.0);
  }

  /** Within the kept range the step-by-step strategy never decreases either. */
  lemma StepMonotone(v1: real, v2: real, minDepth: real, maxDepth: real)
    requires minDepth < maxDepth && Kept(v1, minDepth, maxDepth) && Kept(v2, minDepth, maxDepth)
    requires v1 <= v2
    ensures Step16(v1, minDepth, maxDepth) <= Step16(v2, minDepth, maxDepth)
    ensures StepPixel(v1, minDepth, maxDepth) <= StepPixel(v2, minDepth, maxDepth)
  {
    FractionMonotone(v1, v2, minDepth, maxDepth);
    FractionInUnit(v1, minDepth, maxDepth);
    FractionInUnit(v2, minDepth, maxDepth);
    var u1, u2 := Step16(v1, minDepth, maxDepth), Step16(v2, minDepth, maxDepth);
    RoundHalfEvenMonotone(u1 as real * (1.0 / 256.0), u2 as real * (1.0 / 256.0));
  }

  /** The two strategies never differ by more than one level at a pixel:
      65535/256 exceeds 255 by less than one, and the truncation loses less
      than one 16-bit step. */
  lemma StrategiesAgreeWithinOne(v: real, minDepth: real, maxDepth: real)
    requires 0.0 <= minDepth < maxDepth
    ensures -1 <= DirectPixel(v, minDepth, maxDepth) - StepPixel(v, minDepth, maxDepth) <= 1
  {
    if !Kept(v, minDepth, maxDepth) {
      MaskedPixelIsZero(v, minDepth, maxDepth);
    } else {
      FractionInUnit(v, minDepth, maxDepth);
      var t := (v - minDepth) / (maxDepth - minDepth);
      var u := Step16(v, minDepth, maxDepth);
      assert u as real <= t * 65535.0 < u as real + 1.0;
      var a, b := t * 255.0, u as real * (1.0 / 256.0);
      assert a - 1.0 < b < a + 1.0;
      SaturateCastWithinOne(a, b);
    }
  }

  // ---------------------------------------------------------------------------
  // Whole-frame conversions

  /** directConversion: the first pass stores the masked samples in a float
      image; the second subtracts minDepth, divides by the range and converts
      to 8 bit with scale 255. maxDepth - minDepth is not guarded, so the
      range must be non-empty. */
  method DirectConversion(frame: DepthFrame, minDepth: real, maxDepth: real) returns (depth8: array2<int>)
    requires frame.Valid() && minDepth < maxDepth
    ensures fresh(depth8)
    ensures depth8.Length0 == frame.height && depth8.Length1 == frame.width
    ensures forall y, x :: 0 <= y < frame.height && 0 <= x < frame.width ==>
      depth8[y, x] == DirectPixel(frame.rows[y][x], minDepth, maxDepth)
  {
    var width, height := frame.width, frame.height;
    var depthFloat := new real[height, width];
    for y := 0 to height
      invariant forall yy, xx :: 0 <= yy < y && 0 <= xx < width ==>
        depthFloat[yy, xx] == Masked(frame.rows[yy][xx], minDepth, maxDepth)
    {
      for x := 0 to width
        invariant forall yy, xx :: 0 <= yy < y && 0 <= xx < width ==>
          depthFloat[yy, xx] == Masked(frame.rows[yy][xx], minDepth, maxDepth)
        invariant forall xx :: 0 <= xx < x ==>
          depthFloat[y, xx] == Masked(frame.rows[y][xx], minDepth, maxDepth)
      {
        var depthValue := frame.rows[y][x];
        if depthValue < minDepth || depthValue > maxDepth || depthValue <= 0.0 {
          depthFloat[y, x] := 0.0;
        } else {
          depthFloat[y, x] := depthValue;
        }
      }
    }
    depth8 := new int[height, width];
    for y := 0 to height
      invariant forall yy, xx :: 0 <= yy < y && 0 <= xx < width ==>
        depth8[yy, xx] == DirectPixel(frame.rows[yy][xx], minDepth, maxDepth)
      modifies depth8
    {
      for x := 0 to width
        invariant forall yy, xx :: 0 <= yy < y && 0 <= xx < width ==>
          depth8[yy, xx] == DirectPixel(frame.rows[yy][xx], minDepth, maxDepth)
        invariant forall xx :: 0 <= xx < x ==>
          depth8[y, xx] == DirectPixel(frame.rows[y][xx], minDepth, maxDepth)
        modifies depth8
      {
        var normalized := (depthFloat[y, x] - minDepth) / (maxDepth - minDepth);
        depth8[y, x] := SaturateCastU8(normalized * 255.0);
      }
    }
  }

  /** stepByStepConversion: the first pass fills a 16-bit image with the
      truncated 65535-scaled fraction (0 where masked); the second converts it
      to 8 bit with scale 1/256. */
  method StepByStepConversion(frame: DepthFrame, minDepth: real, maxDepth: real) returns (depth8: array2<int>)
    requires frame.Valid() && minDepth < maxDepth
    ensures fresh(depth8)
    ensures depth8.Length0 == frame.height && depth8.Length1 == frame.width
    ensures forall y, x :: 0 <= y < frame.height && 0 <= x < frame.width ==>
      depth8[y, x] == StepPixel(frame.rows[y][x], minDepth, maxDepth)
  {
    var width, height := frame.width, frame.height;
    var depthImage := new int[height, width];
    for y := 0 to height
      invariant forall yy, xx :: 0 <= yy < y && 0 <= xx < width ==>
        depthImage[yy, xx] == Step16(frame.rows[yy][xx], minDepth, maxDepth)
    {
      for x := 0 to width
        invariant forall yy, xx :: 0 <= yy < y && 0 <= xx < width ==>
          depthImage[yy, xx] == Step16(frame.rows[yy][xx], minDepth, maxDepth)
        invariant forall xx :: 0 <= xx < x ==>
          depthImage[y, xx] == Step16(frame.rows[y][xx], minDepth, maxDepth)
      {
        var depthValue := frame.rows[y][x];
        if depthValue < minDepth || depthValue > maxDepth || depthValue <= 0.0 {
          depthImage[y, x] := 0;
        } else {
          depthImage[y, x] := Trunc((depthValue - minDepth) / (maxDepth - minDepth) * 65535.0);
        }
      }
    }
    depth8 := new int[height, width];
    for y := 0 to height
      invariant forall yy, xx :: 0 <= yy < y && 0 <= xx < width ==>
        depth8[yy, xx] == StepPixel(frame.rows[yy][xx], minDepth, maxDepth)
      modifies depth8
    {
      for x := 0 to width
        invariant forall yy, xx :: 0 <= yy < y && 0 <= xx < width ==>
          depth8[yy, xx] == StepPixel(frame.rows[yy][xx], minDepth, maxDepth)
        invariant forall xx :: 0 <= xx < x ==>
          depth8[y, xx] == StepPixel(frame.rows[y][xx], minDepth, maxDepth)
        modifies depth8
      {
        depth8[y, x] := SaturateCastU8(depthImage[y, x] as real * (1.0 / 256.0));
      }
    }
  }

  /** enhancedDepthVisualization up to the external equalisation and colour
      map: the 8-bit image from the configured strategy, and the windowed
      centre distance with the default window that the overlay prints. */
  method EnhancedDepthVisualization(frame: DepthFrame, minDepth: real, maxDepth: real, directConversion: bool)
    returns (depth8: array2<int>, centerDist: real)
    requires frame.Valid() && frame.width > 0 && frame.height > 0 && minDepth < maxDepth
    ensures fresh(depth8)
    ensures depth8.Length0 == frame.height && depth8.Length1 == frame.width
    ensures forall y, x :: 0 <= y < frame.height && 0 <= x < frame.width ==>
      depth8[y, x] == if directConversion then DirectPixel(frame.rows[y][x], minDepth, maxDepth)
                      else StepPixel(frame.rows[y][x], minDepth, maxDepth)
    ensures centerDist == CenterDistance(frame, maxDepth, DefaultWindowSize)
  {
    if directConversion {
      depth8 := DirectConversion(frame, minDepth, maxDepth);
    } else {
      depth8 := StepByStepConversion(frame, minDepth, maxDepth);
    }
    centerDist := CalculateCenterDistance(frame, maxDepth, DefaultWindowSize);
  }
}
