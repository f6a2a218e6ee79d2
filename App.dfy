/** The standalone program: its start-up (results directory and first free
    folder number), its stream formats, its own copy of the depth
    visualisation, and the save-on-key step of its frame loop. Windows, the
    camera pipeline and key reading are I/O: the key pressed and the outcome
    of `mkdir` and of opening the dump file are parameters. */
module App {
  import opened FileUtils
  import opened DepthFrames
  import opened DepthCenter
  import opened DepthProcessor
  import opened DepthDump
  import opened RealSenseCamera
  import opened ImageSaver

  /** The fallback configuration used when the configuration file cannot be
      read: depth range 0.1 m to 1.0 m, results under "./results/". */
  const DefaultMinDepth: real := 0.1
  const DefaultMaxDepth: real := 1.0
  const DefaultResultsDirectory: string := "./results/"

  /** The fallback configuration is usable as it stands: its depth range is
      non-negative and non-empty, so at every pixel the two depth strategies
      differ by at most one level and a masked sample is black in both; and
      the first save goes to "./results/result1/". */
  lemma DefaultConfiguration(v: real)
    ensures 0.0 <= DefaultMinDepth < DefaultMaxDepth
    ensures -1 <= DirectPixel(v, DefaultMinDepth, DefaultMaxDepth) - StepPixel(v, DefaultMinDepth, DefaultMaxDepth) <= 1
    ensures !Kept(v, DefaultMinDepth, DefaultMaxDepth) ==>
      DirectPixel(v, DefaultMinDepth, DefaultMaxDepth) == 0 && StepPixel(v, DefaultMinDepth, DefaultMaxDepth) == 0
    ensures SaveFolder(DefaultResultsDirectory, 1) == "./results/result1/"
  {
    StrategiesAgreeWithinOne(v, DefaultMinDepth, DefaultMaxDepth);
    if !Kept(v, DefaultMinDepth, DefaultMaxDepth) {
      MaskedPixelIsZero(v, DefaultMinDepth, DefaultMaxDepth);
    }
  }

  /** Start-up: the results directory is created if missing; if that fails the
      program ends with a failure status, otherwise the saves start at the
      first folder number that is free. */
  method StartSession(fs: FileSystem, resultsDir: string, mkdirSucceeds: bool)
    returns (ok: bool, resultFolderNum: nat)
    modifies fs
    ensures ok <==> old(fs.DirectoryExists(resultsDir)) || mkdirSucceeds
    ensures !ok ==> fs.directories == old(fs.directories)
    ensures ok ==> fs.directories == old(fs.directories) + {Canonical(resultsDir)}
    ensures ok ==> resultFolderNum >= 1 && fs.DirectoryExists(resultsDir) &&
                   !fs.DirectoryExists(ResultFolder(resultsDir, resultFolderNum)) &&
                   forall k :: 1 <= k < resultFolderNum ==> fs.DirectoryExists(ResultFolder(resultsDir, k))
  {
    ok := fs.CreateDirectory(resultsDir, mkdirSucceeds);
    if !ok {
      return false, 0;
    }
    resultFolderNum := fs.FindNextResultFolder(resultsDir);
  }

  /** The stream formats the program asks for: the colour name goes through
      the same chain as the camera wrapper; depth is always 16-bit. */
  method StreamFormats(colorName: string) returns (colorFormat: Rs2Format, depthFormat: Rs2Format)
    ensures colorFormat == GetColorFormat(colorName)
    ensures depthFormat == Z16 && forall depthName :: depthFormat == GetDepthFormat(depthName)
  {
    colorFormat := BGR8;
    if colorName == "RGB8" {
      colorFormat := RGB8;
    } else if colorName == "RGBA8" {
      colorFormat := RGBA8;
    } else if colorName == "BGRA8" {
      colorFormat := BGRA8;
    }
    depthFormat := Z16;
  }

  /** The program's own enhanced_depth_visualization: the same two
      conversions as the depth processor, but the overlaid distance is the
      single pixel at the centre, without any averaging. */
  method EnhancedDepthVisualization(frame: DepthFrame, minDepth: real, maxDepth: real, directConversion: bool)
    returns (depth8: array2<int>, centerDist: real)
    requires frame.Valid() && frame.width > 0 && frame.height > 0 && minDepth < maxDepth
    ensures fresh(depth8)
    ensures depth8.Length0 == frame.height && depth8.Length1 == frame.width
    ensures forall y, x :: 0 <= y < frame.height && 0 <= x < frame.width ==>
      depth8[y, x] == if directConversion then DirectPixel(frame.rows[y][x], minDepth, maxDepth)
                      else StepPixel(frame.rows[y][x], minDepth, maxDepth)
    ensures centerDist == frame.rows[frame.height / 2][frame.width / 2]
    ensures centerDist == CenterDistance(frame, maxDepth, 1)
  {
    if directConversion {
      depth8 := DirectConversion(frame, minDepth, maxDepth);
    } else {
      depth8 := StepByStepConversion(frame, minDepth, maxDepth);
    }
    centerDist := frame.rows[frame.height / 2][frame.width / 2];
    CentreIsUnitWindow(frame, maxDepth, 1);
  }

  /** The raw centre pixel is what the windowed estimate gives for a window
      of side 0 or 1: the centre pixel itself when usable, and the same
      pixel as the fallback when not. */
  lemma CentreIsUnitWindow(frame: DepthFrame, maxDepth: real, windowSize: nat)
    requires frame.Valid() && frame.width > 0 && frame.height > 0 && windowSize <= 1
    ensures CenterDistance(frame, maxDepth, windowSize) == frame.rows[frame.height / 2][frame.width / 2]
  {
    var cx, cy := frame.width / 2, frame.height / 2;
    assert windowSize / 2 == 0;
    assert WindowSum(frame, maxDepth, cy, cy, cx, cx + 1) == 0.0;
    assert WindowCount(frame, maxDepth, cy, cy, cx, cx + 1) == 0;
    assert RowSum(frame, maxDepth, cy, cx, cx) == 0.0;
    assert RowCount(frame, maxDepth, cy, cx, cx) == 0;
    if Usable(frame, maxDepth, cx, cy) {
      var v := frame.rows[cy][cx];
      assert WindowSum(frame, maxDepth, cy, cy + 1, cx, cx + 1) == v;
      assert WindowCount(frame, maxDepth, cy, cy + 1, cx, cx + 1) == 1;
    } else {
      assert WindowCount(frame, maxDepth, cy, cy + 1, cx, cx + 1) == 0;
    }
  }

  /** The save step of the frame loop. On any key but 's' nothing happens.
      On 's' the folder of the current number is created; if that fails the
      loop goes on with the number unchanged and nothing written; otherwise
      the three files are written into it and the number advances by one. */
  method SaveOnKey(fs: FileSystem, resultsDir: string, resultFolderNum: nat, key: char,
                   frame: DepthFrame, mkdirSucceeds: bool, binOpened: bool)
    returns (nextFolderNum: nat, targets: seq<string>, depthBin: seq<Field>)
    requires frame.Valid()
    modifies fs
    ensures key != 's' ==> (nextFolderNum == resultFolderNum && targets == [] && depthBin == [] &&
                            fs.directories == old(fs.directories))
    ensures key == 's' && !old(fs.DirectoryExists(ResultFolder(resultsDir, resultFolderNum))) && !mkdirSucceeds ==>
      (nextFolderNum == resultFolderNum && targets == [] && depthBin == [] && fs.directories == old(fs.directories))
    ensures key == 's' && (old(fs.DirectoryExists(ResultFolder(resultsDir, resultFolderNum))) || mkdirSucceeds) ==>
      (nextFolderNum == resultFolderNum + 1 &&
       targets == SaveTargets(SaveFolder(resultsDir, resultFolderNum)) &&
       depthBin == (if binOpened then DepthDump.DepthDump(frame) else []) &&
       fs.DirectoryExists(ResultFolder(resultsDir, resultFolderNum)) &&
       fs.directories == old(fs.directories) + {ResultFolder(resultsDir, resultFolderNum)})
  {
    nextFolderNum, targets, depthBin := resultFolderNum, [], [];
    if key == 's' {
      var resultFolder := SaveFolder(resultsDir, resultFolderNum);
      var created := fs.CreateDirectory(resultFolder, mkdirSucceeds);
      if created {
        targets := SaveTargets(resultFolder);
        depthBin := SaveDepthToBin(frame, binOpened);
        nextFolderNum := resultFolderNum + 1;
      }
    }
  }
}
