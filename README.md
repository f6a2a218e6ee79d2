# Real_Pose_Sense in Dafny

A model of the processing core of Real_Pose_Sense. This C++ program reads colour and depth frames from an Intel RealSense camera. It draws an enhanced depth map with the distance at the image centre, and shows a frame-rate counter. On the `s` key it saves the colour image, the depth colour map and a raw binary depth dump into a fresh numbered `resultN` folder. A TensorRT pose estimator locates the 17 COCO keypoints of one person.

The model covers these parts:

- **Depth visualisation** (`DepthProcessor`, `DepthCenter`, `DepthDump`)
  - The two 8-bit conversions: direct float→8-bit, and float→16-bit→8-bit. OpenCV's `saturate_cast` is modelled as round-half-to-even followed by clamping.
  - The averaged centre distance, and the raw depth dump with a reader for it.
- **Pose estimator** (`PosePreprocess`, `PoseKeypoints`, `PoseDrawing`, `PoseEngine`)
  - The HWC→CHW standardising copy and the argmax decoding of the 128×128 heatmaps.
  - The drawing calls `drawKeypoints` makes.
  - The estimator object: binding lookup with the output-tensor fallback, and device buffers allocated per binding and freed by the destructor. Device memory is a `Device` class of live buffers.
- **Utilities** (`FileUtils`, `ImageSaver`, `FPSCounter`, `RealSenseCamera`)
  - The directory helpers over an abstract set of existing directories, and the saver object with its folder counter.
  - The sliding-window frame-rate counter and the format-name translation.
- **The standalone program** (`App`): its start-up, stream formats, its own copy of the visualisation (which reports the raw centre pixel), and the save-on-key step.

`main.cpp` carries private copies of several utilities. The model uses one definition for each of these, and the table below cites the utility file:

- `directory_exists`, `create_directory` and `find_next_result_folder` (main.cpp:85-101, 266-280);
- the frame-rate class (main.cpp:113-147);
- `save_depth_to_bin` (main.cpp:235-263).

Floats are modelled as mathematical reals. The camera, the network and the file system's answers are parameters:

- a depth frame is a `DepthFrame` value;
- the network is a function `infer`;
- whether `mkdir` succeeds and whether a file opens are booleans.

## Model

| member | source | states |
|---|---|---|
| Rounding.Trunc | PoseEstimator.cpp:241 | `static_cast<int>` truncates toward zero: the result is within one of x, on x's side of zero |
| Rounding.RoundHalfEven | DepthProcessor.cpp:110 | the rounding step of `convertTo`: nearest integer, the even one on a tie |
| Rounding.SaturateU8 | DepthProcessor.cpp:139 | clamping to an 8-bit value keeps values in [0, 255] and sends lower values to 0 and higher values to 255 |
| Rounding.RoundHalfEvenMonotone | DepthProcessor.cpp:110 | rounding to nearest never reverses the order of two values |
| Rounding.SaturateCastWithinOne | DepthProcessor.cpp:110 | values less than one apart saturate-cast to 8-bit values at most one apart |
| DepthProcessor.MaskedPixelIsZero | DepthProcessor.cpp:95-96 | with minDepth ≥ 0, a sample outside [min, max] or ≤ 0 becomes 0 under both strategies |
| DepthProcessor.DirectMaskNeedsNonNegativeMin | DepthProcessor.cpp:95-110 | with a negative minimum, a masked "no return" pixel becomes 128 under the direct strategy and 0 under the other |
| DepthProcessor.DirectIsNearest | DepthProcessor.cpp:103-110 | a kept sample becomes the 8-bit value nearest to 255·(v−min)/(max−min) |
| DepthProcessor.StepIsTruncThenNearest | DepthProcessor.cpp:128-139 | a kept sample's 16-bit value is the truncated 65535·t in [0, 65535]; the 8-bit value is that divided by 256 and rounded |
| DepthProcessor.RangeEndpoints | DepthProcessor.cpp:91-139 | for a positive maxDepth, maxDepth maps to 255 (via 65535), and a positive minDepth maps to 0, under both strategies |
| DepthProcessor.DirectMonotone | DepthProcessor.cpp:91-110 | inside the kept range, the direct strategy never decreases as depth grows |
| DepthProcessor.StepMonotone | DepthProcessor.cpp:124-139 | inside the kept range, the 16-bit and 8-bit values of the step strategy never decrease |
| DepthProcessor.StrategiesAgreeWithinOne | DepthProcessor.cpp:83-142 | for 0 ≤ minDepth < maxDepth, the two strategies differ by at most one level at every pixel |
| DepthProcessor.DirectConversion | DepthProcessor.cpp:83-113 | fills a fresh height×width image whose pixel (y, x) is the direct conversion of sample (x, y) |
| DepthProcessor.StepByStepConversion | DepthProcessor.cpp:115-142 | fills a fresh image whose pixel (y, x) is the step-by-step conversion of sample (x, y) |
| DepthProcessor.EnhancedDepthVisualization | DepthProcessor.cpp:3-42 | the configured conversion for every pixel, and the centre distance averaged over the default 5×5 window |
| DepthCenter.CalculateCenterDistance | DepthProcessor.cpp:53-81 | the nested scan over the square of side 2·(windowSize/2)+1 around (width/2, height/2) returns `CenterDistance`, that window's estimate with the raw centre pixel as fallback |
| DepthCenter.WindowSumOfSamples | DepthProcessor.cpp:60-69 | the running sum and count the scan keeps are the sum and the number of the window's usable samples |
| DepthCenter.WindowEstimateIsMean | DepthProcessor.cpp:60-78 | the scan's answer is the mean of the window's usable samples when there are any, and the fallback otherwise |
| DepthCenter.WindowEstimateInRange | DepthProcessor.cpp:64-74 | with at least one usable sample the answer lies strictly between 1 mm and maxDepth |
| DepthCenter.WindowSamplesSound | DepthProcessor.cpp:60-67 | every sample averaged is the distance of an in-frame pixel of the window with 1 mm < d < maxDepth |
| DepthCenter.WindowSamplesComplete | DepthProcessor.cpp:60-67 | every in-frame pixel of the window with 1 mm < d < maxDepth is averaged |
| DepthDump.SaveDepthToBin | DepthProcessor.cpp:156-183 | writes nothing when the file does not open, else width, height and every distance row by row |
| DepthDump.DepthDumpRoundTrip | DepthProcessor.cpp:169-179 | reading the dump back gives the frame that was written |
| DepthDump.DepthDumpIsRowMajor | DepthProcessor.cpp:169-179 | the dump has 2 + w·h fields: width, height, then distance (x, y) at 2 + y·w + x |
| DepthDump.DumpRowsLength | DepthProcessor.cpp:174-179 | h rows of w distances give exactly h·w fields |
| PosePreprocess.ChwIndexRoundTrip | PoseEstimator.cpp:198-203 | each (channel, row, column) has an offset inside the buffer, and the offset determines the cell |
| PosePreprocess.ChwCoordsRoundTrip | PoseEstimator.cpp:198-203 | each buffer offset belongs to exactly one cell, so the planar layout is a bijection |
| PosePreprocess.PlanarInputAt | PoseEstimator.cpp:189-203 | channel c, row h, column w of the buffer holds (v/255 − mean[c]) / std[c] |
| PosePreprocess.Preprocess | PoseEstimator.cpp:184-207 | the loops fill every cell of the input buffer with its standardised value |
| PoseKeypoints.ScanIsFirstMaximum | PoseEstimator.cpp:221-233 | `Scan`, the heatmap scan, finds the first row-major position of the largest value above −1, or keeps (−1, −1, −1) |
| PoseKeypoints.DetectedIffAboveThreshold | PoseEstimator.cpp:239-244 | `KeypointOf` applied to a channel's peak reports a point iff some cell of the channel exceeds 0.3; otherwise it gives (−1, −1) |
| PoseKeypoints.DetectedPointInImage | PoseEstimator.cpp:235-241 | a reported keypoint comes from a peak inside the 128×128 heatmap and lies inside the image |
| PoseKeypoints.ScalePosition | PoseEstimator.cpp:236-241 | a heatmap coordinate in [0, 128), scaled to an image side s and truncated, lies in [0, s) |
| PoseKeypoints.CellIndexInverse | PoseEstimator.cpp:226 | the cell offset h·128 + w gives back h and w |
| PoseKeypoints.ChannelPeak | PoseEstimator.cpp:219-233 | the nested loops over channel k compute that channel's scan result |
| PoseKeypoints.Postprocess | PoseEstimator.cpp:209-246 | exactly one person of 17 points, equal to `DecodePose`: point k decoded from channel k |
| PoseDrawing.CirclesSound | PoseEstimator.cpp:254-258 | every circle is a filled circle of radius 5 for a present keypoint, at that keypoint, in its colour |
| PoseDrawing.CirclesComplete | PoseEstimator.cpp:254-258 | every present keypoint gets its circle |
| PoseDrawing.CirclesOrdered | PoseEstimator.cpp:254 | circles come in strictly increasing keypoint order, so none is drawn twice |
| PoseDrawing.LimbsSound | PoseEstimator.cpp:261-268 | every line is for a skeleton entry whose two ends are present points, joins them, and is white with thickness 2 |
| PoseDrawing.LimbsComplete | PoseEstimator.cpp:261-268 | every skeleton entry with both ends present gets its line |
| PoseDrawing.LimbsOrdered | PoseEstimator.cpp:261 | lines come in skeleton declaration order |
| PoseDrawing.DrawKeypointsPerPerson | PoseEstimator.cpp:248-271 | `DrawKeypoints` makes exactly the calls of each person in the list: every call belongs to a person, each person's calls are made, and an empty list draws nothing |
| PoseDrawing.NoUndetectedEndpoint | PoseEstimator.cpp:248-271 | across all persons, no line touches an undetected keypoint |
| PoseEngine.BindingIndex | PoseEstimator.cpp:58 | the index of the first binding with the name, or −1 iff none has it |
| PoseEngine.OutputIndexFallback | PoseEstimator.cpp:61-66 | `OutputIndex` consults the fallback output name only when the first is missing; −1 iff neither exists |
| PoseEngine.ScaledProduct | PoseEstimator.cpp:76-79 | the dimension loop computes init times the product of the dimensions |
| PoseEngine.FreesBelowExactly | PoseEstimator.cpp:97-103 | the destructor frees exactly the non-null entries below numBindings |
| PoseEngine.FreesBelowAreLiveIds | PoseEstimator.cpp:95-103 | when the entries from numBindings on are null, the handles the destructor loop frees are exactly the table's live ids, the set `Destroy` removes from the device |
| PoseEngine.NullTableFreesNothing | PoseEstimator.cpp:95-103 | a table of nulls makes the destructor free nothing, whatever engine is present |
| PoseEngine.EarlyReturnFreesGarbage | PoseEstimator.cpp:68-72 | as written, an engine without "input.1" returns early, and the destructor frees the uninitialised table entries |
| PoseEngine.GuardAdmitsMissingBinding | PoseEstimator.cpp:153-165 | as written, detect's guard passes with inputIndex = −1 |
| PoseEngine.Device.Malloc | PoseEstimator.cpp:91 | cudaMalloc hands out a buffer distinct from every live one and records it |
| PoseEngine.Device.Free | PoseEstimator.cpp:100 | cudaFree removes exactly that buffer |
| PoseEngine.PoseEstimator.constructor | PoseEstimator.cpp:50-93 | fixed 512×512 input, 17 keypoints, batch 1; ready iff loading and both lookups succeed; allocates one fresh buffer per binding, keeping every buffer already on the device and advancing the allocation counter by the number of bindings; otherwise allocates nothing and leaves the counter as it was |
| PoseEngine.PoseEstimator.Bind | PoseEstimator.cpp:58-92 | looks up the bindings, sizes the output, and allocates only when both indices were found: one fresh buffer per binding, every earlier device buffer kept at its size, the counter advanced by the number of bindings; otherwise the device is unchanged |
| PoseEngine.PoseEstimator.AllocateBindings | PoseEstimator.cpp:82-92 | binding i gets fresh buffer first+i of batchSize × its element count; every buffer already on the device keeps its size and no other buffer appears; the counter advances by the number of bindings |
| PoseEngine.PoseEstimator.Destroy | PoseEstimator.cpp:95-109 | frees exactly the live table entries (every other device buffer keeps its size), nulls them, then releases context, engine and runtime, in that order |
| PoseEngine.PoseEstimator.FreeBuffers | PoseEstimator.cpp:97-103 | cudaFree on every non-null entry below n, each then nulled; the other device buffers and the allocation counter are untouched |
| PoseEngine.PoseEstimator.Detect | PoseEstimator.cpp:152-182 | false with the keypoints untouched unless ready; otherwise one pose decoded from the network's output for the standardised image |
| FileUtils.NatToDecimal | utils/FileUtils.cpp:30 | a number is written as one or more decimal digits |
| FileUtils.DecimalRoundTrip | utils/FileUtils.cpp:30 | reading the written number back gives the number |
| FileUtils.DecimalInjective | utils/FileUtils.cpp:30 | two numbers are written alike iff they are equal |
| FileUtils.SlashedSameExists | utils/FileUtils.cpp:8-11 | `DirectoryExists` gives the same answer for a path with and without one trailing separator |
| FileUtils.ResultFolderInjective | utils/FileUtils.cpp:29-31 | two folder numbers give the same folder path iff they are equal |
| FileUtils.ResultFoldersMembers | utils/FileUtils.cpp:29-31 | resultk is among result1 .. resultm iff 1 ≤ k ≤ m |
| FileUtils.ResultFoldersCount | utils/FileUtils.cpp:25-39 | result1 .. resultm are m different folders, so the search must stop |
| FileUtils.FileSystem.CreateDirectory | utils/FileUtils.cpp:13-23 | an existing directory gives true with no change; otherwise the mkdir outcome, and on success exactly that one directory is added; true iff the directory now exists |
| FileUtils.FileSystem.FindNextResultFolder | utils/FileUtils.cpp:25-39 | the least n ≥ 1 whose resultn does not exist: every result1 .. result(n−1) exists |
| ImageSaver.SaveFolder | utils/ImageSaver.cpp:23-25 | the folder path with its trailing separator names resultN |
| ImageSaver.SaveTargets | utils/ImageSaver.cpp:34-36 | a save writes three files, all inside the folder |
| ImageSaver.SaveTargetsDisjoint | utils/ImageSaver.cpp:23-36 | saves with different numbers never write the same file, and one save writes three distinct files |
| ImageSaver.SameFileSameFolder | utils/ImageSaver.cpp:23-25 | a path lies inside at most one numbered save folder |
| ImageSaver.ImageSaver.constructor | utils/ImageSaver.cpp:6-9 | the saver starts at the least number whose folder does not exist |
| ImageSaver.ImageSaver.PrepareFolder | utils/ImageSaver.cpp:11-19 | true iff the base directory existed or mkdir succeeded, i.e. iff it exists afterwards; on success only the base directory may be added, on failure nothing changes |
| ImageSaver.ImageSaver.SaveImages | utils/ImageSaver.cpp:21-49 | if the folder cannot be created, nothing is written and the number stays; else exactly the folder resultN is added, the three files and the depth dump are written into it, and the number advances by one |
| ImageSaver.ImageSaver.GetCurrentFolderNumber | utils/ImageSaver.cpp:51-53 | the number the next save uses, at least 1 |
| FPSCounter.Window | utils/FPSCounter.cpp:14-19 | the kept samples are the latest at most 30 frame times, oldest first |
| FPSCounter.SlideKeepsLatest | utils/FPSCounter.cpp:14-19 | push-then-pop on the kept window gives the window of the longer history |
| FPSCounter.WindowPositive | utils/FPSCounter.cpp:14-19 | the window of positive frame times is non-empty and positive, and ends with the newest |
| FPSCounter.Rate | utils/FPSCounter.cpp:22-29 | the reported rate of positive frame times is positive |
| FPSCounter.RateWithin | utils/FPSCounter.cpp:22-29 | frame times in [lo, hi] give a rate in [1/hi, 1/lo]; a steady frame time d gives exactly 1/d |
| FPSCounter.MeanWithin | utils/FPSCounter.cpp:22-26 | the mean of values in [lo, hi] lies in [lo, hi] |
| FPSCounter.MeanFrameTime | utils/FPSCounter.cpp:22-26 | the summing loop divided by the count is the mean of the window |
| FPSCounter.FPSCounter.constructor | utils/FPSCounter.cpp:4-6 | starts at the current time with no samples |
| FPSCounter.FPSCounter.Update | utils/FPSCounter.cpp:8-30 | the new frame time joins the window (at most 30, newest last), the clock advances, and the positive rate over the window is returned |
| RealSenseCamera.GetColorFormat | RealSenseCamera.cpp:53-58 | RGB8, RGBA8 and BGRA8 each iff named; BGR8 for every other name |
| RealSenseCamera.GetDepthFormat | RealSenseCamera.cpp:60-63 | Z16 whatever name is configured |
| App.StartSession | main.cpp:314-322 | fails, changing nothing, iff the results directory is missing and cannot be created; else only the results directory may be added, and the saves start at the first free folder number |
| App.DefaultConfiguration | main.cpp:290-311 | the fallback depth range 0.1–1.0 m is non-negative and non-empty, so both depth strategies agree within one level at every pixel and a masked sample is 0; the first save goes to ./results/result1/ |
| App.StreamFormats | main.cpp:328-334 | the colour format as the camera wrapper chooses it; depth is always Z16 |
| App.EnhancedDepthVisualization | main.cpp:150-232 | the same per-pixel conversions as the depth processor; the reported distance is the single centre pixel |
| App.CentreIsUnitWindow | main.cpp:226 | the raw centre pixel equals the windowed estimate with a window of side 0 or 1 |
| App.SaveOnKey | main.cpp:426-448 | any key but `s` does nothing; `s` adds exactly the folder resultN, writes the three files into it and advances N, unless the folder cannot be created, in which case nothing changes |

## Left out

- Camera I/O: pipeline start, stop, waiting for frames and the RealSense exceptions. The frame is an input value, and `getFrames` and `start` have no model beyond the format choice.
- TensorRT and CUDA: reading and deserialising the engine file is the `LoadResult` parameter, and inference is the `infer` parameter. `cudaMemcpy` is a copy of values.
- OpenCV image operations are external: resizing, CLAHE, colour maps, `putText`, the crosshair, `imshow`, `imwrite` and the pixel data of the saved PNGs. A save reports the file names it writes and the dump it produces.
- Configuration loading (ConfigManager, YAML), the logger, the keyboard handler, the visualiser and the timestamp helper are not part of this model. Of the fallback configuration only the depth range and the results directory are modelled; its stream sizes, rates and CLAHE settings feed code outside this model.
- Floating point: distances, times and network outputs are reals, so single-precision rounding is not modelled. The `float` comparisons against 0.001, 0.3 and −1 use the exact constants.
- Path handling: a directory is identified by its path with one trailing `/` removed. Other spellings of the same directory (`a//b`, `./a`, symbolic links) are not identified.
- Folder numbers are unbounded: the `int` counter's overflow after 2^31−1 saves is not modelled.
- PoseEngine.PoseEstimator.constructor: requires an engine to have at most three bindings, the size of the buffer table. With more, the source writes past the table; the model excludes that input rather than modelling the overrun.
- PoseEngine.PoseEstimator.Detect: requires the network to produce batchSize·outputSize values, at least the 17·128·128 that postprocess reads. The source reads past the buffer when it does not.
- FPSCounter.FPSCounter.Update: requires the clock to have advanced (`now > lastTime`), so that every kept frame time is positive, their sum is non-zero and the rate is positive. Equal or backward clock readings, which the source accepts (its clock need not be monotonic), are excluded; the source then divides by zero when the kept frame times sum to zero (for instance a first update at the construction time) and returns a negative rate when they sum below zero.
- DepthProcessor.MaskedPixelIsZero: proved for minDepth ≥ 0 only. DirectMaskNeedsNonNegativeMin shows a masked pixel is not 0 with a negative minimum.
- DepthProcessor.DirectConversion: requires `minDepth < maxDepth`, the configured range. With minDepth > maxDepth the source masks every sample and writes saturate(−min/(max−min)·255) at every pixel, for example 255 for min 5 and max 3. With minDepth = maxDepth it divides by zero.
- DepthProcessor.StepByStepConversion: requires `minDepth < maxDepth`. With minDepth > maxDepth the source masks every sample and writes 0 everywhere. With minDepth = maxDepth it divides by zero for a sample equal to both.
- DepthProcessor.EnhancedDepthVisualization: requires `minDepth < maxDepth`, for the two conversions it calls.
- App.EnhancedDepthVisualization: requires `minDepth < maxDepth`, for the same reason.
- DepthProcessor.StrategiesAgreeWithinOne: proved for 0 ≤ minDepth < maxDepth only. With a negative minimum the direct path turns a masked sample into a non-zero level (DirectMaskNeedsNonNegativeMin: 128 against 0), so the strategies can differ by more than one.
- DepthProcessor.RangeEndpoints: proved for a positive maxDepth only. A sample equal to a maxDepth ≤ 0 fails the source's `v <= 0` test and is masked.
- DepthCenter.CalculateCenterDistance: takes windowSize as a natural number, where the source takes an `int` (default 5, the only value passed). With C++'s truncating division a size of −1 scans only the centre pixel, and a size of −2 or less scans nothing and returns the raw centre pixel; the model does not express negative sizes.
- PoseDrawing.DrawKeypoints: requires at most 17 points per person. The source indexes its 17-entry colour table with any person size.

## Findings

| source | as written | input that shows it | evidently intended | confidence | as-written member | corrected member |
|---|---|---|---|---|---|---|
| PoseEstimator.cpp:68-72 | the early returns leave the member array `buffers` uninitialised, yet the destructor frees its first numBindings entries | an engine whose input tensor is not named "input.1" | the table starts all null, so the destructor frees nothing after an early return | high, not executed | PoseEngine.EarlyReturnFreesGarbage | PoseEngine.NullTableFreesNothing |
| PoseEstimator.cpp:153-165 | detect checks only engine and context, then indexes `buffers[inputIndex]` | the same engine: the lookup gives −1 and the guard passes | detect runs only when both binding indices were found | high, not executed | PoseEngine.GuardAdmitsMissingBinding | PoseEngine.PoseEstimator.Detect |
