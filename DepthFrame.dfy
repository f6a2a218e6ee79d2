/** The depth frame the camera delivers, as the depth processor sees it. */
module DepthFrames {
  /** A depth frame: `rows[y][x]` is `get_distance(x, y)` in metres; 0 or less
      means the sensor had no return at that pixel. */
  datatype DepthFrame = DepthFrame(width: nat, height: nat, rows: seq<seq<real>>)
  {
    predicate Valid()
    {
      |rows| == height && forall y :: 0 <= y < height ==> |rows[y]| == width
    }
  }
}
