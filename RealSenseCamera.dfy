/** The camera wrapper's translation of the configured stream format names
    into the sensor's pixel formats. Starting the pipeline and waiting for
    frames are device I/O and are not part of this model. */
module RealSenseCamera {
  /** The pixel formats the configuration can select. */
  datatype Rs2Format = RGB8 | RGBA8 | BGRA8 | BGR8 | Z16

  /** A colour format, as opposed to the depth format. */
  predicate IsColorFormat(f: Rs2Format)
  {
    f != Z16
  }

  /** The configuration name of a format. */
  function FormatName(f: Rs2Format): string
  {
    match f
    case RGB8 => "RGB8"
    case RGBA8 => "RGBA8"
    case BGRA8 => "BGRA8"
    case BGR8 => "BGR8"
    case Z16 => "Z16"
  }

  /** getColorFormat: the three alternative names select their format;
      every other name, "BGR8" and the empty name included, selects BGR8. */
  function GetColorFormat(format: string): (f: Rs2Format)
    ensures IsColorFormat(f)
    ensures f == RGB8 <==> format == "RGB8"
    ensures f == RGBA8 <==> format == "RGBA8"
    ensures f == BGRA8 <==> format == "BGRA8"
    ensures f == BGR8 <==> format != "RGB8" && format != "RGBA8" && format != "BGRA8"
  {
    if format == "RGB8" then RGB8
    else if format == "RGBA8" then RGBA8
    else if format == "BGRA8" then BGRA8
    else BGR8
  }

  /** getDepthFormat: only 16-bit depth is supported, whatever is configured. */
  function GetDepthFormat(format: string): (f: Rs2Format)
    ensures f == Z16 && !IsColorFormat(f)
  {
    if format == "Z16" then Z16 else Z16
  }

  /** Every colour format is selected by its own name, so the mapping loses
      no colour format; the depth format is selected by its name too. */
  lemma FormatNamesRoundTrip(f: Rs2Format)
    ensures IsColorFormat(f) ==> GetColorFormat(FormatName(f)) == f
    ensures !IsColorFormat(f) ==> GetDepthFormat(FormatName(f)) == f
  {
  }
}
