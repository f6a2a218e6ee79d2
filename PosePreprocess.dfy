/** preprocess of the pose estimator: the resized 8-bit colour image is
    scaled to [0, 1], standardised per channel and written to the network's
    input buffer in channel-height-width (planar) order. */
module PosePreprocess {
  /** The network input is one 512×512 image with 3 channels. */
  const InputH: nat := 512
  const InputW: nat := 512
  const Channels: nat := 3

  /** Cells in the whole input buffer: batch size 1 times 3·512·512. */
  const InputLength: nat := 786432

  /** The per-channel mean and standard deviation the network was trained with. */
  const Mean: seq<real> := [0.485, 0.456, 0.406]
  const Std: seq<real> := [0.229, 0.224, 0.225]

  /** A resized image in height-width-channel order: image[h][w][c] in [0, 255]. */
  predicate IsInputImage(image: seq<seq<seq<int>>>)
  {
    |image| == InputH &&
    forall h :: 0 <= h < InputH ==>
      (|image[h]| == InputW && forall w :: 0 <= w < InputW ==> |image[h][w]| == Channels)
  }

  /** Offset of channel c, row h, column w in the planar buffer. */
  function ChwIndex(c: int, h: int, w: int): int
  {
    c * 262144 + h * 512 + w
  }

  /** The channel, row and column stored at offset i. */
  function ChwCoords(i: int): (int, int, int)
  {
    (i / 262144, (i % 262144) / 512, i % 512)
  }

  predicate InImage(c: int, h: int, w: int)
  {
    0 <= c < Channels && 0 <= h < InputH && 0 <= w < InputW
  }

  /** Every cell of the image has an offset inside the buffer, and the offset
      gives the cell back. */
  lemma ChwIndexRoundTrip(c: int, h: int, w: int)
    requires InImage(c, h, w)
    ensures 0 <= ChwIndex(c, h, w) < InputLength
    ensures ChwCoords(ChwIndex(c, h, w)) == (c, h, w)
  {
    var i := ChwIndex(c, h, w);
    var r := h * 512 + w;
    assert 0 <= r < 262144;
    assert i / 262144 == c && i % 262144 == r;
    assert r / 512 == h && r % 512 == w;
    assert i % 512 == w;
  }

  /** Every offset of the buffer belongs to exactly one cell: the layout is a
      bijection, so the loops write each offset once. */
  lemma ChwCoordsRoundTrip(i: int)
    requires 0 <= i < InputLength
    ensures InImage(ChwCoords(i).0, ChwCoords(i).1, ChwCoords(i).2)
    ensures ChwIndex(ChwCoords(i).0, ChwCoords(i).1, ChwCoords(i).2) == i
  {
    var c, r := i / 262144, i % 262144;
    assert i == c * 262144 + r;
    var h, w := r / 512, r % 512;
    assert r == h * 512 + w;
    assert i % 512 == w;
  }

  /** The value the network sees for one cell: the 8-bit value scaled by
      1/255, minus the channel mean, over the channel deviation. */
  function Standardised(image: seq<seq<seq<int>>>, c: int, h: int, w: int): real
    requires IsInputImage(image) && InImage(c, h, w)
  {
    (image[h][w][c] as real * (1.0 / 255.0) - Mean[c]) / Std[c]
  }

  /** The buffer preprocess leaves behind, read offset by offset. */
  function PlanarInput(image: seq<seq<seq<int>>>): (buffer: seq<real>)
    requires IsInputImage(image)
    ensures |buffer| == InputLength
  {
    seq(InputLength, i requires 0 <= i < InputLength =>
      ChwCoordsRoundTrip(i);
      var (c, h, w) := ChwCoords(i); Standardised(image, c, h, w))
  }

  /** In the planar buffer, channel c, row h, column w holds that cell's
      standardised value. */
  lemma PlanarInputAt(image: seq<seq<seq<int>>>, c: int, h: int, w: int)
    requires IsInputImage(image) && InImage(c, h, w)
    ensures 0 <= ChwIndex(c, h, w) < InputLength
    ensures PlanarInput(image)[ChwIndex(c, h, w)] == Standardised(image, c, h, w)
  {
    ChwIndexRoundTrip(c, h, w);
  }

  /** The planar copy of preprocess: channel outer, then rows, then columns.
      Every offset of the buffer is written, each from its own cell. */
  method Preprocess(image: seq<seq<seq<int>>>, inputBuffer: array<real>)
    requires IsInputImage(image) && inputBuffer.Length == InputLength
    modifies inputBuffer
    ensures forall c, h, w :: InImage(c, h, w) ==> inputBuffer[ChwIndex(c, h, w)] == Standardised(image, c, h, w)
    ensures inputBuffer[..] == PlanarInput(image)
  {
    var channelLength := InputH * InputW;
    for c := 0 to Channels
      invariant forall cc, hh, ww :: InImage(cc, hh, ww) && cc < c ==>
        inputBuffer[ChwIndex(cc, hh, ww)] == Standardised(image, cc, hh, ww)
    {
      for h := 0 to InputH
        invariant forall cc, hh, ww :: InImage(cc, hh, ww) && (cc < c || (cc == c && hh < h)) ==>
          inputBuffer[ChwIndex(cc, hh, ww)] == Standardised(image, cc, hh, ww)
      {
        for w := 0 to InputW
          invariant forall cc, hh, ww :: InImage(cc, hh, ww) && (cc < c || (cc == c && (hh < h || (hh == h && ww < w)))) ==>
            inputBuffer[ChwIndex(cc, hh, ww)] == Standardised(image, cc, hh, ww)
        {
          var pixel := image[h][w][c] as real * (1.0 / 255.0);
          inputBuffer[c * channelLength + h * InputW + w] := (pixel - Mean[c]) / Std[c];
        }
      }
    }
    forall i | 0 <= i < InputLength
      ensures inputBuffer[i] == PlanarInput(image)[i]
    {
      ChwCoordsRoundTrip(i);
    }
  }
}
