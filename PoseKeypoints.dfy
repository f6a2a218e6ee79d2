/** Heatmap decoding of the pose estimator: one argmax per keypoint channel
    over a fixed 128×128 plane, a confidence threshold, and scaling of the
    peak back to the image size. */
module PoseKeypoints {
  import opened Rounding

  /** The COCO body model: 17 keypoints per person. */
  const NumKeypoints: nat := 17

  /** The heatmap is taken to be 128×128, whatever the network produced. */
  const HeatmapH: nat := 128
  const HeatmapW: nat := 128

  /** Cells in one keypoint channel. */
  const PlaneSize: nat := 16384

  /** A peak must exceed this to count as a detection. */
  const ConfidenceThreshold: real := 0.3

  /** An image point; (-1, -1) marks a keypoint that was not detected. */
  datatype Point = Point(x: int, y: int)

  const Undetected: Point := Point(-1, -1)

  /** The drawing code treats a point as present iff both coordinates are non-negative. */
  predicate Present(p: Point)
  {
    p.x >= 0 && p.y >= 0
  }

  /** The argmax state of one channel: the largest value seen so far and
      where it was; it starts at value -1 and position (-1, -1). */
  datatype Peak = Peak(maxVal: real, maxH: int, maxW: int)

  const NoPeak: Peak := Peak(-1.0, -1, -1)

  /** Offset of cell (h, w) in a channel stored row by row. */
  function CellIndex(h: int, w: int): int
  {
    h * 128 + w
  }

  /** The argmax state after visiting the first n cells of a plane in
      row-major order; a cell replaces the peak only if strictly larger. */
  function Scan(plane: seq<real>, n: nat): Peak
    requires n <= |plane|
  {
    if n == 0 then NoPeak
    else
      var p := Scan(plane, n - 1);
      if plane[n - 1] > p.maxVal then Peak(plane[n - 1], (n - 1) / 128, (n - 1) % 128) else p
  }

  /** The scan finds the first position, in row-major order, of the largest
      value above -1; if no value exceeds -1 it keeps the initial state. */
  lemma {:induction false} ScanIsFirstMaximum(plane: seq<real>, n: nat)
    requires n <= |plane|
    ensures var p := Scan(plane, n);
      p.maxVal >= -1.0 &&
      (forall i :: 0 <= i < n ==> plane[i] <= p.maxVal) &&
      (p.maxH == -1 ==> p == NoPeak) &&
      (p.maxH != -1 ==>
        0 <= p.maxH && 0 <= p.maxW < 128 && CellIndex(p.maxH, p.maxW) < n &&
        plane[CellIndex(p.maxH, p.maxW)] == p.maxVal && p.maxVal > -1.0 &&
        forall i :: 0 <= i < CellIndex(p.maxH, p.maxW) ==> plane[i] < p.maxVal)
  {
    if n > 0 {
      ScanIsFirstMaximum(plane, n - 1);
      var p := Scan(plane, n - 1);
      if plane[n - 1] > p.maxVal {
        assert CellIndex((n - 1) / 128, (n - 1) % 128) == n - 1;
      }
    }
  }

  /** Channel k of a flat output buffer: cells k·16384 .. (k+1)·16384 - 1. */
  function Channel(output: seq<real>, k: nat): seq<real>
    requires (k + 1) * PlaneSize <= |output|
  {
    output[k * PlaneSize..(k + 1) * PlaneSize]
  }

  /** The point a peak stands for: its column and row scaled by the image
      size over 128 and truncated, if the peak exceeds 0.3; otherwise
      (-1, -1). */
  function KeypointOf(p: Peak, width: nat, height: nat): Point
  {
    var x := p.maxW as real / HeatmapW as real * width as real;
    var y := p.maxH as real / HeatmapH as real * height as real;
    if p.maxVal > ConfidenceThreshold then Point(Trunc(x), Trunc(y)) else Undetected
  }

  /** The point reported for one channel: the point of its peak. */
  function DecodeKeypoint(plane: seq<real>, width: nat, height: nat): Point
    requires |plane| == PlaneSize
  {
    KeypointOf(Scan(plane, |plane|), width, height)
  }

  /** The single pose the decoder reports: one point per channel. */
  function DecodePose(output: seq<real>, width: nat, height: nat): seq<Point>
    requires NumKeypoints * PlaneSize <= |output|
  {
    seq(NumKeypoints, k requires 0 <= k < NumKeypoints => DecodeKeypoint(Channel(output, k), width, height))
  }

  /** A keypoint is reported iff some cell of its channel exceeds the
      threshold; otherwise it is exactly (-1, -1). */
  lemma DetectedIffAboveThreshold(plane: seq<real>, width: nat, height: nat)
    requires |plane| == PlaneSize
    ensures Present(DecodeKeypoint(plane, width, height)) <==> exists i :: 0 <= i < |plane| && plane[i] > ConfidenceThreshold
    ensures !Present(DecodeKeypoint(plane, width, height)) ==> DecodeKeypoint(plane, width, height) == Undetected
  {
    ScanIsFirstMaximum(plane, |plane|);
    var p := Scan(plane, |plane|);
    if p.maxVal > ConfidenceThreshold {
      var i := CellIndex(p.maxH, p.maxW);
      assert plane[i] > ConfidenceThreshold;
      ScalePosition(p.maxW, width);
      ScalePosition(p.maxH, height);
    }
  }

  /** A heatmap coordinate c in [0, 128) scaled to an image side s lands in [0, s). */
  lemma ScalePosition(c: int, s: nat)
    requires 0 <= c < 128
    ensures 0 <= Trunc(c as real / 128 as real * s as real)
    ensures s > 0 ==> Trunc(c as real / 128 as real * s as real) < s
  {
    var f := c as real / 128 as real;
    assert 0.0 <= f < 1.0;
    ScaledTrunc(f, s);
  }

  /** A fraction in [0, 1) of a side s, truncated, lies in [0, s). */
  lemma ScaledTrunc(f: real, s: nat)
    requires 0.0 <= f < 1.0
    ensures 0 <= Trunc(f * s as real)
    ensures s > 0 ==> Trunc(f * s as real) < s
  {
    var side := s as real;
    var x := f * side;
    if s > 0 {
      FractionOfSide(f, side, x);
    } else {
      assert side == 0.0;
    }
    TruncBelow(x, side, s);
  }

  /** A fraction in [0, 1) of a positive side lies in [0, side). */
  lemma FractionOfSide(f: real, side: real, x: real)
    requires 0.0 <= f < 1.0 && 0.0 < side && x == f * side
    ensures 0.0 <= x < side
  {
    ScaleOrder(0.0, f, side);
    ScaleOrder(1.0, f, side);
  }

  /** Truncating a non-negative value gives a non-negative integer, below n
      when the value is below n. */
  lemma TruncBelow(x: real, side: real, n: nat)
    requires 0.0 <= x && side == n as real
    ensures 0 <= Trunc(x)
    ensures x < side ==> Trunc(x) < n
  {
  }

  /** A reported keypoint comes from a peak inside the 128×128 plane, and
      once scaled and truncated it lies inside the image. */
  lemma DetectedPointInImage(plane: seq<real>, width: nat, height: nat)
    requires |plane| == PlaneSize && width > 0 && height > 0
    requires Present(DecodeKeypoint(plane, width, height))
    ensures var p := Scan(plane, |plane|);
      0 <= p.maxH < HeatmapH && 0 <= p.maxW < HeatmapW
    ensures 0 <= DecodeKeypoint(plane, width, height).x < width
    ensures 0 <= DecodeKeypoint(plane, width, height).y < height
  {
    ScanIsFirstMaximum(plane, |plane|);
    var p := Scan(plane, |plane|);
    assert p.maxVal > ConfidenceThreshold;
    assert p.maxH != -1;
    assert CellIndex(p.maxH, p.maxW) < 16384;
    ScalePosition(p.maxW, width);
    ScalePosition(p.maxH, height);
  }

  /** The step of the scan at cell (h, w): the row-major index of the cell
      recovers its row and column. */
  lemma CellIndexInverse(h: nat, w: nat)
    requires w < 128
    ensures CellIndex(h, w) / 128 == h && CellIndex(h, w) % 128 == w
  {
  }

  /** The inner loops of postprocess for channel k: visits the 128×128 cells
      row by row and keeps the first strictly largest value above -1. */
  method ChannelPeak(outputBuffer: array<real>, k: nat) returns (maxVal: real, maxH: int, maxW: int)
    requires (k + 1) * PlaneSize <= outputBuffer.Length
    ensures var plane := Channel(outputBuffer[..], k); Peak(maxVal, maxH, maxW) == Scan(plane, |plane|)
  {
    ghost var plane := Channel(outputBuffer[..], k);
    var heatmapH, heatmapW := HeatmapH, HeatmapW;
    maxVal, maxH, maxW := -1.0, -1, -1;
    for h := 0 to heatmapH
      invariant Peak(maxVal, maxH, maxW) == Scan(plane, CellIndex(h, 0))
    {
      for w := 0 to heatmapW
        invariant Peak(maxVal, maxH, maxW) == Scan(plane, CellIndex(h, w))
      {
        var idx := k * PlaneSize + CellIndex(h, w);
        assert plane[CellIndex(h, w)] == outputBuffer[idx];
        CellIndexInverse(h, w);
        if outputBuffer[idx] > maxVal {
          maxVal := outputBuffer[idx];
          maxH := h;
          maxW := w;
        }
      }
    }
  }

  /** postprocess: clears the keypoint list, makes room for one person of 17
      points and fills point k from the peak of channel k of the network
      output. */
  method Postprocess(outputBuffer: array<real>, width: nat, height: nat) returns (keypoints: seq<seq<Point>>)
    requires NumKeypoints * PlaneSize <= outputBuffer.Length
    ensures |keypoints| == 1 && |keypoints[0]| == NumKeypoints
    ensures keypoints[0] == DecodePose(outputBuffer[..], width, height)
  {
    keypoints := [];
    var pose := seq(NumKeypoints, _ => Point(0, 0));
    for k := 0 to NumKeypoints
      invariant |pose| == NumKeypoints
      invariant forall kk :: 0 <= kk < k ==> pose[kk] == DecodeKeypoint(Channel(outputBuffer[..], kk), width, height)
    {
      var maxVal, maxH, maxW := ChannelPeak(outputBuffer, k);
      var point := KeypointOf(Peak(maxVal, maxH, maxW), width, height);
      pose := pose[k := point];
    }
    keypoints := keypoints + [pose];
  }
}
