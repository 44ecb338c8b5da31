# Frame-exact logic of the clip pipeline

A Dafny model of the parts of the repository where a frame, a byte or a file is either right or wrong:
the time map, shot-cut scoring, image comparison and PNG files, the rollback from the automatic layout
and its queue lock, clip selection and the editing of the removal list. Each module says in its header
which source file it models. `dafny verify dfyconfig.toml` checks the whole project.

Code that loops over changing variables is a method with that loop, proved against a specification;
expressions are functions; the rollback and the document builder are classes with the fields they
update. Fractions are cross-multiplied integers.

## The modules

* **Time map.** `Runs` defines maximal runs and the scan that lists them. `Pieces` is the reference
  (`ref_pieces`), `PieceSweep` the production sweep over sorted cuts, proved to give the same pieces.
  `OutputMap` maps output frames to the source, by scan and by bisection, and counts samples. `Words`
  times words, `SpeechSpans` the spans of samples they give. `CaptionClock` is the caption boundary
  bound, `LogoBox` the logo's placement, `Plates` the one-cell cache of the plate player.
* **Scoring.** `CutMatching` shows that the greedy matcher is optimal, by exchanging pairs. `Agreement`
  relates overlaps of shots to a count of frames and run-length encodes the flags. `Scans` holds
  `candidates` and `loudest_window`.
* **Images and PNG.** `Images` defines pictures, pixels and boxes. `PngFilter`, `PngChunks` and
  `PngCodec` go from one filtered row to whole files.
  `Differences` is the difference box and the pixel statistics, `Morphology` erosion and dilation in two
  passes. `SsimWindows` bounds the value of one window, `SsimBlocks` and `SsimValues` compute it from
  running sums, `SsimGrid` says which windows there are and `Ssim` which of them need evaluating.
* **Rollback.** `JobFiles` holds `job.json` and the lock. `Downgrade` is a relation with one case per
  atomic write to a clip, `DowngradeJobs` says what a run needs, counts and cannot spoil, `DowngradeRewrite`
  how far the loop over the automatic `job.json` files gets, `DowngradeRun` is the program, which makes those
  writes and may be stopped before any of them, `DowngradeHistory` is about runs one after another, and
  `RollbackFields` says what all of them leave, field by field.
  `QueueLock` is every interleaving of processes that take the lock.
* **Selection and editing.** `Highlights` and `RemovalList`.

`Sorting`, `Arithmetic`, `Chains`, `Wrappers`, `Rows` and `WindowMeans` are shared helpers.

## Results that differ from what the text promises

* **Caption boundary.** The generator measures eight rates over three hours. The bound holds on every
  frame of every length exactly when a frame lasts 13 ms or more (`CaptionClock.CaptionBoundary`); for
  any shorter frame a clock that is late at frame 1 breaks it (`CaptionClock.ShortFramesFail`).
* **Logo placement.** Exact below 100,000 px and only there (`LogoBox.PlacementBound`).
* **Speech spans.** A span of a shown word is nonempty at every rate up to two frames a sample, 96,000
  frames per second, and only there (`SpeechSpans.SpansExactlyGood`); above it a word of one millisecond
  over a piece of two frames gives an empty one (`SpeechSpans.FastFramesEmitEmptySpans`).
* **Removal list.** One pass is right because the list is separated; from two overlapping entries it
  leaves an overlap (`RemovalList.OnePassNeedsSeparation`). The document validator accepts entries that
  touch, so separation with gap 0 and with gap 1 are both proved to be kept.
* **Shot candidates.** Every strong frame has a pick that is at least as strong and not far before it,
  but a pick can move on. Every strong frame has a pick within the gap, if and only if no frame takes the
  place of a pick that was opened more than the gap before it (`Scans.NearExactlyWithoutFarMoves`); with a
  stronger frame every three frames only the last one is picked (`Scans.PicksDrift`).
* **Rollback, errors.** An error in one clip is counted and the run goes on, but some exceptions `run` does
  not catch. `read_regular` and the parser raise them at a `job.json` that is over its size limit, no regular
  file or nested too deeply, which ends every run, and at another `seed.auto.json` that is more than a byte
  longer than an automatic seed, which ends an apply run. The rewrite loop ends in one at a `job.json` that is
  nested too deeply to be written back, or that is named twice and was rewritten beyond its size limit. A
  run that nobody stops ends before its summary exactly when it meets one of these (`DowngradeRun.Root.Run`;
  `DowngradeJobs.LongBackup` is a clip with such a backup).
* **Rollback, texts.** `json.loads` accepts half of a surrogate pair and `.encode()` does not, so a
  `job.json` with one, as a cut error line leaves it, reads and cannot be written back. Where the lock is
  free a completed apply run rewrites exactly the automatic files before the first such one, and counts an
  error (`DowngradeHistory.RunRewritesExactly`); runs with the same names then rewrite nothing more, however
  many they are (`DowngradeHistory.StuckRunsRewriteNothing`; `DowngradeHistory.HalfPairStaysAutomatic` is the
  input).
* **Rollback, the lock.** A run that is stopped between its `mkdir` and its `rmdir` leaves the lock, and
  nothing in the program takes it over. Where it was free at first, a later run that names an automatic job
  leaves none automatic if and only if no earlier one was stopped there and every automatic `job.json` it
  names can be encoded (`DowngradeHistory.LaterRunRewrites`).
* **Rollback, counts.** `--job` may name a job twice. A dry run then counts the changes of its clips
  twice, an apply run once; the two counts agree if and only if no job with changes in its clips is named
  twice (`DowngradeJobs.CountsAgree`, `DowngradeJobs.NamedTwice`).

## Model

| member | source | states |
|---|---|---|
| Pieces.PiecesAreTheMaximalRuns | scripts/edit_v2/gen_timemap_vectors.py:52-82 | the reference pieces are exactly the maximal runs of at least two unremoved frames of each segment, in source order, numbered, and their `outF0` tile `[0, total)` |
| Pieces.OnlyRemovedFramesMatter | scripts/edit_v2/gen_timemap_vectors.py:52-82 | two removal lists that remove the same frames of the segments give the same pieces, whatever their order, overlap, repetition or unknown segments |
| Pieces.RefPieces | scripts/edit_v2/gen_timemap_vectors.py:52-82 | the loop over `run` and `out_f0` returns those pieces |
| PieceSweep.SweepPieces | src/ai_clipper/edit_v2/timemap.py:97-126 | the production time map raises its error exactly for an empty or reversed removal or segment, and otherwise returns the reference pieces |
| PieceSweep.KeptRanges | src/ai_clipper/edit_v2/timemap.py:82-94 | one sweep over the sorted cuts lists the maximal free runs of at least two frames |
| OutputMap.ShownOnce | scripts/edit_v2/gen_timemap_vectors.py:238-251 | an output frame is shown by some piece exactly when it lies in `[0, total)`, and by one only |
| OutputMap.OutputLandsOnSurvivors | scripts/edit_v2/gen_timemap_vectors.py:238-251 | every output frame shows a frame that is kept, together with a neighbour, in its segment |
| OutputMap.SurvivorsAreShown | scripts/edit_v2/gen_timemap_vectors.py:238-251 | every such frame is shown at some output frame: the map is onto |
| OutputMap.OutputIsInjective | scripts/edit_v2/gen_timemap_vectors.py:238-251 | with distinct segment ids no source frame is shown twice |
| OutputMap.OutToSrc | src/ai_clipper/edit_v2/timemap.py:191-198 | the bisecting lookup finds what the scan finds, and fails exactly outside `[0, total)`; the frame found is as far into the piece's source span as `n` into its output span |
| OutputMap.PiecePlays | scripts/edit_v2/gen_timemap_vectors.py:238-251 | a piece plays from its first source frame to its last, one after the other |
| OutputMap.LookupsAscend | scripts/edit_v2/gen_timemap_vectors.py:238-251 | with distinct segment ids, a later output frame of one segment shows a later source frame |
| OutputMap.FoundInSegment | scripts/edit_v2/gen_timemap_vectors.py:238-251 | what is shown is a frame of the segment that the piece names, taken out by no removal, and so is a frame beside it |
| OutputMap.SegmentIsFound | scripts/edit_v2/gen_timemap_vectors.py:238-251 | every such frame is shown |
| OutputMap.SamplesConserved | scripts/parity/frame_identity.py:169-178 | the samples of consecutive pieces add up to those between their first and last boundary, for any rate |
| OutputMap.ClipSamples | scripts/parity/frame_identity.py:169-178 | the samples of all pieces of a clip add up to exactly `smp(total)` |
| OutputMap.BoundaryError | scripts/edit_v2/gen_timemap_vectors.py:100-101 | a boundary in samples is less than one sample from its exact time |
| Words.SegmentScopeOrdered | scripts/edit_v2/gen_timemap_vectors.py:104-116 | the pieces of one segment ascend in the source without overlap |
| Words.MidpointOrder | scripts/edit_v2/gen_timemap_vectors.py:85-97 | at most one piece of a segment holds a midpoint, and an earlier midpoint is never held by a later piece |
| Words.WordOrderKept | scripts/edit_v2/gen_timemap_vectors.py:85-97 | a word that starts and ends no later is shown no later, on and off, even across a cut |
| Words.FramesIn | scripts/edit_v2/gen_timemap_vectors.py:85-97 | `outF0 <= on <= off <= outF0 + frames` |
| Words.OnsetNearest | scripts/edit_v2/gen_timemap_vectors.py:85-97 | before clamping, a word's edge falls on the frame nearest to it, halves up |
| Words.WordFramesTimed | scripts/edit_v2/gen_timemap_vectors.py:85-97 | a word is shown in the first piece whose source span holds its midpoint, from the frame nearest to its start to the frame nearest to its end, kept inside the piece; and in none when no piece holds it |
| Words.IndexedWordFrames | src/ai_clipper/edit_v2/timemap.py:201-230 | the bisection over source-ascending runs times every word as the reference does, in those frames, and rejects exactly a reversed word |
| Words.BuildIndex | src/ai_clipper/edit_v2/timemap.py:157-176 | the index cuts the pieces into ascending runs and loses none |
| SpeechSpans.SpeechSpans | scripts/edit_v2/gen_timemap_vectors.py:104-116 | the spans are sorted, are those of the words that some segment shows with a frame or more, and at rates up to 96,000 frames per second each is nonempty and inside `[0, smp(total)]` |
| SpeechSpans.SpansMean | scripts/edit_v2/gen_timemap_vectors.py:104-116 | a span starts with the last sample no later than the word's first frame, at 48,000 samples per second, and ends likewise |
| SpeechSpans.ShownFramesAreTwo | scripts/edit_v2/gen_timemap_vectors.py:85-116 | where a frame lasts less than a sample, a word that is shown has two frames or more |
| SpeechSpans.SpansExactlyGood | scripts/edit_v2/gen_timemap_vectors.py:104-116 | for all words and pieces every emitted span is nonempty and inside the clip, if and only if the rate is at most 96,000 frames per second |
| SpeechSpans.FastFramesEmitEmptySpans | scripts/edit_v2/gen_timemap_vectors.py:104-116 | above that rate, words and pieces that give an empty span |
| SpeechSpans.FramesAreAudible | scripts/edit_v2/gen_timemap_vectors.py:100-116 | distinct frames have distinct samples exactly when the frame rate does not exceed the sample rate |
| CaptionClock.CaptionBoundary | scripts/edit_v2/gen_timemap_vectors.py:119-126 | `now(n-1) < 10 * safe_cs(n) <= now(n)` for all `n >= 1` and every clock that is exact or one below, if and only if a frame lasts 13 ms or more |
| CaptionClock.ShortFramesFail | scripts/edit_v2/gen_timemap_vectors.py:419-433 | for any shorter frame a clock late at frame 1 breaks the bound |
| CaptionClock.ClockInNumbers | scripts/edit_v2/gen_timemap_vectors.py:119-126 | the exact clock is the last millisecond at or before the frame, `safe_cs` the last hundredth at least 2 ms before the clock |
| CaptionClock.MeasuredRatesQualify | scripts/edit_v2/gen_timemap_vectors.py:419-433 | the eight measured rates meet the condition |
| LogoBox.PlacementBound | scripts/parity/logo_gates.py:109-111 | every start of every size survives the trip through its centre e5, if and only if the output is below 100,000 px |
| LogoBox.PlacementRoundTrip | scripts/parity/logo_gates.py:109-111 | below 100,000 px a box of any size starts where it was put |
| LogoBox.OddSizeMisses | scripts/parity/logo_gates.py:109-111 | at 100,000 px an odd size misses |
| LogoBox.PlacedBoxStartsThere | scripts/edit_v2/gen_timemap_vectors.py:133-138 | the drawn box starts at the placed point on both axes and keeps its size |
| LogoBox.BoxInPixels | scripts/edit_v2/gen_timemap_vectors.py:133-138 | width, height and start are the whole numbers nearest to the share of the output, the asset's proportions and the centred start |
| LogoBox.CentreInE5 | scripts/parity/logo_gates.py:109-111 | the centre is the e5 nearest to the middle of the box |
| Plates.PlateSequence | scripts/parity/frame_identity.py:1183-1195 | with one cached cell the frames are those looked up without a cache; only rendered cells are decoded, all of them, and none twice in a row |
| Plates.WantedFromPieces | scripts/parity/frame_identity.py:763-783 | the cells listed from the pieces are exactly those some output frame needs |
| CutMatching.GreedyIsOptimal | scripts/eval/auto_reframe.py:187-206 | the greedy count is the size of a largest one-to-one matching within the tolerance, for unsorted lists with duplicates |
| CutMatching.MatchCuts | scripts/eval/auto_reframe.py:187-206 | the loop with its `used` list and `start` cursor returns that largest size, and the cuts and labels left over |
| CutMatching.CountIsAssignment | scripts/eval/auto_reframe.py:187-206 | so many cuts can be given a label each, none twice and each at most the tolerance away, and not one more |
| CutMatching.OnePair | scripts/eval/auto_reframe.py:187-206 | one cut and one label match exactly when they are at most the tolerance apart |
| CutMatching.TruePositivesSymmetric | scripts/eval/auto_reframe.py:187-206 | swapping cuts and labels changes nothing |
| CutMatching.TruePositivesMonotone | scripts/eval/auto_reframe.py:187-206 | a wider tolerance never finds fewer |
| Agreement.AgreementOf | scripts/eval/auto_reframe.py:249-258 | the sum of overlaps of equal-mode shots is the number of frames on which the two labellings agree |
| Agreement.AgreementCounts | scripts/eval/auto_reframe.py:249-258 | that number is the size of the set of those frames |
| Agreement.AgreementLaws | scripts/eval/auto_reframe.py:249-258 | agreement is symmetric, bounded by the window, and full exactly when every frame agrees |
| Agreement.ShotsExpand | scripts/eval/auto_reframe.py:243-246 | the shots partition the window and each shows its mode on all its frames |
| Agreement.ModeBetweenCuts | scripts/eval/auto_reframe.py:243-246 | the mode shown at a frame is that of the cuts around it |
| Agreement.LabelFramesSum | scripts/eval/auto_reframe.py:852-856 | over the four modes the label frames sum to the window |
| Agreement.TodayModes | scripts/eval/auto_reframe.py:261-278 | a valid labelling that shows `fill_center` on the frames that overlap a span without a face and `camera` on the others, and never repeats a mode at a cut |
| Agreement.CanonicalUnique | scripts/eval/auto_reframe.py:261-316 | a labelling without repeated modes is determined by what it shows: the encoding is canonical |
| Scans.PicksStand | scripts/eval/auto_reframe.py:589-603 | picks are more than the gap apart, and every strong frame has one that is as strong and at most the gap before it |
| Scans.PicksAreRecords | scripts/eval/auto_reframe.py:589-603 | a pick is the first of the strongest frames since the one that opened it, no frame up to three after it is stronger, and the next one is opened by the first strong frame beyond that |
| Scans.StrengthsMean | scripts/eval/auto_reframe.py:589-603 | a frame is strong, the first one apart, exactly when either measure reaches its threshold, and is as strong as the larger share |
| Scans.NearExactlyWithoutFarMoves | scripts/eval/auto_reframe.py:589-603 | every strong frame has a pick within the gap, if and only if no frame replaces a pick that was opened more than the gap before it |
| Scans.PicksDrift | scripts/eval/auto_reframe.py:589-603 | along a rising staircase only the last frame is picked, however far from the first, and from the third step on the moves are far |
| Scans.StaircaseIsNotNear | scripts/eval/auto_reframe.py:589-603 | there some strong frame has no pick within the gap |
| Scans.LoudestWindow | scripts/parity/join_gates.py:179-192 | the running total finds the first window with the largest sum of squared samples of both channels |
| Scans.EnergyIsSquares | scripts/parity/join_gates.py:179-192 | the energy of a stretch of stereo frames is the sum of the squares of its samples |
| PngFilter.PaethIsNearest | scripts/parity/compare.py:145-150 | the predictor is the neighbour nearest to left + up - upper left, with the standard's order of ties (section 6.6 of RFC 2083) |
| PngFilter.UnfilterUndoesFilter | scripts/parity/compare.py:153-180 | for each type of section 6 of RFC 2083 and any bytes per pixel, unfiltering a filtered row gives the row |
| PngFilter.FilterUndoesUnfilter | scripts/parity/compare.py:153-180 | and filtering an unfiltered line gives the line |
| PngFilter.DecodedInvertsFilters | scripts/parity/compare.py:153-180 | for every picture and every choice of types row by row, `_unfilter` gives back its rows |
| PngFilter.FilterUndoesUnfilterRows | scripts/parity/compare.py:153-180 | what was decoded filters back to the same lines, so decoding is one to one |
| PngFilter.UnfilterLine | scripts/parity/compare.py:162-178 | one row is decoded in place to the inverse of its filter, which is for every byte what the standard says of types 0 to 4 |
| PngFilter.Unfilter | scripts/parity/compare.py:153-180 | the whole loop, with its error exactly when a row names no filter; every byte of the picture is what the standard makes of the raw bytes and the neighbours in the picture |
| PngFilter.UnfilteredByte | scripts/parity/compare.py:162-178 | type 0 leaves the byte, 1 adds the one to the left, 2 the one above, 3 their mean and 4 the nearest neighbour of `PaethIsNearest`, modulo 256 |
| PngFilter.DecodedIsStandard | scripts/parity/compare.py:153-180 | the same for every byte of a whole picture, with zeros beside and above it |
| PngCodec.EncodeThenRead | scripts/parity/compare.py:183-225 | reading a written picture gives the picture, for 1, 3 and 4 channels and every size that fits the header, given that decompression undoes compression |
| PngCodec.ReadsStandardFile | scripts/parity/compare.py:183-210 | a file of the PNG signature, a 13-byte IHDR, one IDAT and IEND, in bytes, reads as the picture that the standard makes of its stream, with 1, 3 or 4 channels for colour types 0, 2 and 6, or as the first error that applies: depth, colour type or interlace, the stream, its length, a filter type |
| PngCodec.StreamsJoin | scripts/parity/compare.py:183-210 | a stream cut into any number of IDAT chunks reads as if it were in one |
| PngCodec.EncodesStandardFile | scripts/parity/compare.py:213-225 | `encode_png` writes such a file, whose stream holds the rows of the picture behind filter type 0 |
| PngCodec.EncodedIsSound | scripts/parity/compare.py:213-225 | the checksum test of `_chunk_ok` accepts what `encode_png` writes |
| PngCodec.ReadPng | scripts/parity/compare.py:183-210 | the loop of `read_png` collects what the chunk walk collects and raises its errors in the same cases |
| PngCodec.StripKeepsThePicture | scripts/editor/make_pack_thumbs.py:109-122 | reading a stripped file gives the picture, or the error, of the original |
| PngChunks.StripKeepsCritical | scripts/editor/make_pack_thumbs.py:109-122 | stripping keeps exactly the critical chunks, byte for byte and in order |
| PngChunks.StripInBytes | scripts/editor/make_pack_thumbs.py:109-122 | in bytes: the chunks named IHDR, PLTE, IDAT and IEND stay, in order, each as long as its big-endian length field says plus 12 |
| PngChunks.StripIsIdempotent | scripts/editor/make_pack_thumbs.py:109-122 | stripping twice is stripping once |
| PngChunks.StripPng | scripts/editor/make_pack_thumbs.py:109-122 | the loop over `offset` returns that file, and its errors |
| PngChunks.ChunksOkMeans | scripts/editor/make_pack_thumbs.py:125-135 | `_chunk_ok` accepts exactly the streams whose chunks are all complete with the checksum of their name and body |
| PngChunks.StripPreservesSoundness | scripts/editor/make_pack_thumbs.py:109-135 | a stripped file passes where the original did |
| PngChunks.ChunkOk | scripts/editor/make_pack_thumbs.py:125-135 | the loop over `offset` returns that answer, or the error of a field that is cut short |
| Images.NoDifferenceIsEquality | scripts/parity/compare.py:93-140 | two images are equal exactly when no pixel differs |
| Images.PixelInData | scripts/parity/compare.py:93-140 | channel `ch` of the pixel `(x, y)` is byte `(y * width + x) * channels + ch` |
| Differences.FirstDifference | scripts/parity/compare.py:247-255 | the binary search over slices returns the first position that differs |
| Differences.LastDifference | scripts/parity/compare.py:258-271 | on reversed rows it gives the last one |
| Differences.DiffBBox | scripts/parity/compare.py:258-271 | the result is the smallest box around every differing pixel, or an error exactly for different shapes |
| Differences.SmallestMeans | scripts/parity/compare.py:258-271 | that box is inside the image, inside every box with the same property, and missing exactly for equal images |
| Differences.BoxIsEnough | scripts/parity/compare.py:274-297 | scanning a region inside the box of differences gives the statistics of the whole region |
| Differences.DiffStats | scripts/parity/compare.py:274-297 | the statistics computed inside the box, with or without a region, are those of a whole scan |
| Differences.ScanMeans | scripts/parity/compare.py:274-297 | they are the numbers of pixels of which some channel differs by more than 16 and at all, and the largest difference of a channel |
| SsimWindows.CauchySchwarz | scripts/parity/compare.py:372-376 | the square of a sum of samples is at most their number times the sum of squares |
| SsimWindows.WindowBounds | scripts/parity/compare.py:372-376 | for 64 pairs of samples the denominator is positive and bounds the numerator on both sides |
| SsimWindows.SsimRange | scripts/parity/compare.py:372-376 | the value of a window lies in [-1, 1] and is 1 exactly when all pairs are equal |
| SsimWindows.ValueInNumbers | scripts/parity/compare.py:372-376 | the value of a window as one quotient of four sums over its 64 pairs of samples, with the constants 416 and 235963 |
| SsimWindows.ConstantsAreRounded | scripts/parity/compare.py:40-41 | these are (0.01 * 255)^2 * 64 and (0.03 * 255)^2 * 64 * 63, rounded |
| SsimWindows.ConstantWindow | scripts/parity/compare.py:372-376 | a window of one value `x` against one of `y`: (8192 x y + 416) / (4096 (x^2 + y^2) + 416) |
| SsimWindows.EqualMeansValue | scripts/parity/compare.py:372-376 | where the sums agree: (2 c + 235963) / (v + 235963) for covariance and variance |
| SsimBlocks.WindowOfBlocks | scripts/parity/compare.py:347-376 | the four block sums of a window add up to the sums over its 64 samples |
| SsimValues.BlockSums | scripts/parity/compare.py:347-369 | the running column sums give the sums of each 4x4 block |
| SsimGrid.RegionWindows | scripts/parity/compare.py:332-344 | the index ranges give exactly the grid windows that share a pixel with some box |
| SsimGrid.GridIsWhatFits | scripts/parity/compare.py:321-329 | the grid holds exactly the 8x8 windows at multiples of 4 that fit into the image |
| SsimValues.WindowValueRange | scripts/parity/compare.py:379-397 | the mean over the channels lies in [-1, 1] and is 1 exactly for identical windows |
| SsimValues.WindowInData | scripts/parity/compare.py:379-397 | the samples of a window are those bytes of the images |
| SsimValues.ChannelInNumbers | scripts/parity/compare.py:379-397 | the value of a channel is that quotient for them |
| SsimValues.ChannelsCountAlike | scripts/parity/compare.py:379-397 | one, three or four channels count alike |
| SsimValues.WindowSsim | scripts/parity/compare.py:379-397 | every window, whatever row it is grouped in, gets the value of its own samples |
| Ssim.FarWindowsAreIdentical | scripts/parity/compare.py:400-421 | a window that misses the difference box is identical |
| Ssim.FarValuesAreOne | scripts/parity/compare.py:400-421 | the windows that are not evaluated have the value 1 |
| WindowMeans.MeanFromPart | scripts/parity/compare.py:416-421 | the sum over a part, with 1 for each element outside it, gives the mean over all when those elements have the value 1 |
| WindowMeans.MeanOfList | scripts/parity/compare.py:416-421 | the mean times the number of windows is the sum over any list of them |
| Ssim.FullMeanRange | scripts/parity/compare.py:400-421 | the mean lies in [-1, 1] and is 1 exactly when all considered windows are identical |
| Ssim.FlatImagesScore | scripts/parity/compare.py:400-421 | two 8x8 pictures of one value each have the score of `ConstantWindow` |
| Ssim.Ssim | scripts/parity/compare.py:400-421 | evaluating only near the difference box gives exactly the mean over all windows, or over those that touch the region |
| Morphology.InteriorMask | scripts/parity/compare.py:447-466 | the mask holds exactly the pixels whose whole `(2r+1)` square is inside the image and has the colour |
| Morphology.RunsMakeSquare | scripts/parity/compare.py:447-466 | erosion by rows, then by columns, is erosion by the square |
| Morphology.PassesMakeSquare | scripts/parity/join_gates.py:218-228 | dilation by rows, then by columns, is dilation by the square |
| Morphology.Dilate | scripts/parity/join_gates.py:218-228 | one pass sets exactly the samples within `CHROMA_REACH` along its axis |
| Morphology.TextMask | scripts/parity/join_gates.py:201-236 | the mask holds exactly the pixels whose luma differs or that have a differing sample of either chroma plane at most three samples from their own |
| Downgrade.DowngradedIsNotAutomatic | scripts/ops/auto_layout_downgrade.py:87-126 | the downgraded seed is not automatic, and neither is the revision unless its seed's base names shots |
| Downgrade.DowngradedLayoutTwice | scripts/ops/auto_layout_downgrade.py:94-104 | downgrading a layout is idempotent, and changes exactly the layouts with the automatic mode, ranges or another layout's bands |
| Downgrade.WriteIsProgress | scripts/ops/auto_layout_downgrade.py:201-236 | every atomic write leaves exactly one write fewer to make |
| Downgrade.WritesAreBounded | scripts/ops/auto_layout_downgrade.py:201-236 | all runs together make at most four writes to a clip, however they are stopped |
| Downgrade.EveryStateKeeps | scripts/ops/auto_layout_downgrade.py:201-236 | in every state between writes the original seed bytes and the current revision are in place or kept beside it, and no earlier backup or archive is changed |
| Downgrade.Convergence | scripts/ops/auto_layout_downgrade.py:201-236 | whatever writes led to it, a state with nothing automatic has the downgraded seed, the original bytes in `seed.auto.json`, and an automatic revision archived below its Latar blur form |
| RollbackFields.SeedFields | scripts/ops/auto_layout_downgrade.py:94-116 | the settled seed in fields: the content and audit of the old one, the layout `fit_blur` centred for `auto`, no ranges, the bands only of a split, no shot plan, and the hash of what it is now |
| RollbackFields.RevisionFields | scripts/ops/auto_layout_downgrade.py:119-126 | the settled revision in fields: the same edit in that layout, the seed's base, one revision on with the old hash as parent, the old one archived under it |
| RollbackFields.PlainSeedStays | scripts/ops/auto_layout_downgrade.py:214-236 | a seed that is not automatic stays, with its backup |
| RollbackFields.PlainRevisionStays | scripts/ops/auto_layout_downgrade.py:214-236 | a revision that is not automatic stays, with the archive |
| RollbackFields.NothingIsLost | scripts/ops/auto_layout_downgrade.py:201-236 | in every state on the way the old seed is in place or in the backup, the old revision in place or archived, and no backup or archived revision changes |
| Downgrade.HistoriesAgree | scripts/ops/auto_layout_downgrade.py:201-236 | two histories of stopped runs end in the same files, but for the time of the last change |
| Downgrade.SettledIsFinal | scripts/ops/auto_layout_downgrade.py:214-236 | where nothing is automatic no further write is possible and no change is listed |
| Downgrade.RevisionFollowsSeed | src/ai_clipper/edit_v2/seed.py:680-752 | a revision with the base of an automatic seed, which names its shot plan, is automatic itself |
| Downgrade.BaseStaysInSync | scripts/ops/auto_layout_downgrade.py:107-126 | after the rollback the revision has its seed's base, which the next save has to repeat |
| DowngradeRun.Root.PublishSeed | scripts/ops/auto_layout_downgrade.py:201-211 | backup, then seed; refused exactly when another backup exists, with the uncaught exception exactly when that one is over a byte longer; a stop leaves one of those states |
| DowngradeRun.Root.Put | src/ai_clipper/edit_v2/store.py:740-788 | the archive, then the new revision, stamped with the later of now and one millisecond after the last change; refused exactly when the store refuses; a stop leaves one of those states |
| DowngradeRun.Root.DowngradeClip | scripts/ops/auto_layout_downgrade.py:214-236 | a dry run writes nothing and counts the changes; an apply run counts the same, and finishes exactly the clips that read, have no other backup and whose revision the store takes |
| DowngradeRun.Root.DowngradeClips | scripts/ops/auto_layout_downgrade.py:262-270 | a caught error in one clip leaves every other clip to be finished; the uncaught one ends the loop exactly when a clip has such a backup; no errors means the changes add up |
| DowngradeRun.Root.RewriteJobs | scripts/ops/auto_layout_downgrade.py:179-185 | each file is read again and, if automatic, written back with only its render mode changed; the loop ends at the first that cannot be encoded (caught), or that is nested too deeply or has become too long (not caught), and the files before that one are exactly those rewritten |
| DowngradeRewrite.TurnStops | scripts/ops/auto_layout_downgrade.py:179-185 | a turn fails at the first file that blocks the list as it was found, whatever earlier turns have written, and at no other |
| DowngradeRewrite.RewrittenExactly | scripts/ops/auto_layout_downgrade.py:274-280 | unless the loop ends in an exception that is not caught, it gets through the list if and only if every file on it can be encoded; otherwise the first that cannot stays automatic |
| DowngradeRewrite.AutoListAfter | scripts/ops/auto_layout_downgrade.py:258-280 | after some turns, the automatic jobs a run would list are the old ones without those rewritten, in the same order |
| DowngradeRun.Root.RewriteUnderLock | scripts/ops/auto_layout_downgrade.py:134-164 | a lock that is there means a time-out and no change; otherwise the lock is free again at the end, also after an exception, and left behind exactly by a stop between `mkdir` and `rmdir`; it fails exactly when a file cannot be encoded |
| DowngradeRun.Root.VisitJobs | scripts/ops/auto_layout_downgrade.py:258-273 | over names that may repeat: the clips move, no `job.json` does, and what was counted is what the names call for |
| DowngradeRun.Root.Run | scripts/ops/auto_layout_downgrade.py:245-288 | a dry run changes nothing; without errors the changes are those of the names, and after an apply run no named job is automatic; with errors every workable clip is still done, and exactly the automatic files before the first that cannot be encoded are rewritten; only named jobs change; the lock, a stop and the uncaught exceptions end it exactly so |
| RollbackFields.RunKeepsJobs | scripts/ops/auto_layout_downgrade.py:179-185 | a run, however it ends, changes nothing of a `job.json` but its render mode, and that only from `auto` to `fit-blur` |
| RollbackFields.CompletedRunSetsModes | scripts/ops/auto_layout_downgrade.py:274-286 | after a completed apply run without errors every named file that was `auto` is `fit-blur` and every other has its mode |
| RollbackFields.ReportIsCount | scripts/ops/auto_layout_downgrade.py:245-288 | without errors the changes are the number of automatic seeds and revisions of the named jobs, once per job in an apply run, and of automatic jobs |
| RollbackFields.BackupLengthDecides | scripts/ops/auto_layout_downgrade.py:201-211 | another backup one byte longer than an automatic seed is an error, two or more bytes end the run, and the clip stays |
| DowngradeJobs.WriteKeepsWorkable | scripts/ops/auto_layout_downgrade.py:201-236 | a clip that a run can finish can still be finished after any of its writes |
| DowngradeJobs.UnhinderedStays | scripts/ops/auto_layout_downgrade.py:245-288 | where nothing hindered a run at the start, nothing that stopped runs leave hinders it, unless a `job.json` was rewritten beyond its size limit |
| DowngradeJobs.AllEncodeStays | scripts/ops/auto_layout_downgrade.py:179-185 | a file that cannot be encoded stays automatic through any runs, and no run makes one |
| DowngradeJobs.ForeignIsStuck | scripts/ops/auto_layout_downgrade.py:201-211 | an over-long other backup stops every write to its clip, and no write makes one |
| DowngradeJobs.LongBackup | scripts/ops/auto_layout_downgrade.py:201-211 | a clip with such a backup |
| DowngradeJobs.CountsAgree | scripts/ops/auto_layout_downgrade.py:239-288 | a dry run never counts less than an apply run, and they count the same if and only if no job with changes in its clips is named twice |
| DowngradeJobs.NamedTwice | scripts/ops/auto_layout_downgrade.py:239-288 | one automatic seed in a job named twice: counted twice and once |
| DowngradeJobs.RunsCompose | scripts/ops/auto_layout_downgrade.py:245-288 | any number of runs, stopped anywhere, are one sequence of writes |
| DowngradeHistory.RestartConverges | scripts/ops/auto_layout_downgrade.py:245-288 | where nothing hindered the rollback at the start, after any number of runs stopped anywhere but in the lock, one apply run that reaches its summary has no errors if and only if every automatic `job.json` it names can be encoded; it then leaves no named job automatic and every clip and `job.json` in the end state of a run without a stop |
| DowngradeHistory.RunRewritesExactly | scripts/ops/auto_layout_downgrade.py:274-286 | a completed apply run that names an automatic job rewrites exactly those before the first that cannot be encoded, none where the lock was taken; no named job stays automatic if and only if the lock was free and all can be encoded, and otherwise an error is counted |
| DowngradeHistory.RunLeavesStuck | scripts/ops/auto_layout_downgrade.py:274-286 | if not all can be encoded, a completed run that found the lock free leaves one that cannot as the first automatic job it names |
| DowngradeHistory.StuckRunsRewriteNothing | scripts/ops/auto_layout_downgrade.py:274-286 | from there any number of runs with the same names, ended anywhere, change no `job.json` |
| DowngradeHistory.HalfPairStaysAutomatic | scripts/ops/auto_layout_downgrade.py:179-185 | the input: an automatic `job.json` with half a surrogate pair stays as it is, with an error counted and the lock released |
| RollbackFields.SurrogateStays | scripts/ops/auto_layout_downgrade.py:179-185 | an automatic file with any of the code points 0xD800 to 0xDFFF stays as it is |
| RollbackFields.TextIsRewritten | scripts/ops/auto_layout_downgrade.py:179-185 | without one it is rewritten |
| RollbackFields.HistoryKeepsJobs | scripts/ops/auto_layout_downgrade.py:179-185 | over any number of runs, nothing of a `job.json` changes but its render mode, from `auto` to `fit-blur`; one that can no longer be read has been rewritten beyond 4 MiB |
| RollbackFields.HistoryReaches | scripts/ops/auto_layout_downgrade.py:201-236 | the clips after any number of runs are such states as `SeedFields` and `RevisionFields` speak of |
| DowngradeHistory.FurtherRunsChangeNothing | scripts/ops/auto_layout_downgrade.py:245-288 | a further run, dry or not, reaches its summary with 0 changes and 0 errors and leaves every file as it was |
| DowngradeHistory.LockStaysFree | scripts/ops/auto_layout_downgrade.py:134-164 | a free lock is free after any number of runs, if and only if none was stopped between its `mkdir` and its `rmdir` |
| DowngradeHistory.LaterRunRewrites | scripts/ops/auto_layout_downgrade.py:274-286 | a later apply run takes all the automatic jobs it names to Latar blur if and only if no earlier run was stopped there and each of them could be encoded at the start; otherwise it counts an error, and after such a stop it changes no `job.json` |
| DowngradeHistory.DryRunForetells | scripts/ops/auto_layout_downgrade.py:245-288 | from the same files and without errors, a dry run writes nothing and counts what the apply run counts, under the condition of `DowngradeJobs.CountsAgree` and only under it |
| QueueLock.EveryStateIsSound | scripts/ops/auto_layout_downgrade.py:134-164 | the lock invariant holds in every state of every interleaving, with processes that may stop anywhere |
| QueueLock.AtMostOneHolder | scripts/ops/auto_layout_downgrade.py:134-164 | at most one process is between its `mkdir` and its `rmdir` |
| QueueLock.ReleaseIsOwn | scripts/ops/auto_layout_downgrade.py:154-164 | a release removes only the lock its process made, and succeeds once the token matched |
| QueueLock.LockIsHeldOrAbandoned | scripts/ops/auto_layout_downgrade.py:134-164 | a lock that is there belongs to a process that still holds it or that ended before releasing it |
| QueueLock.WritesUpdateTheCurrentValue | scripts/ops/auto_layout_downgrade.py:179-185 | every write happens under the writer's own lock, on the value the file has at that moment; the program writes only over an automatic one that it can write back |
| QueueLock.StepChangesOneFile | scripts/ops/auto_layout_downgrade.py:179-185 | a step of the program changes at most the file of its turn, and there only the mode, from `auto` to `fit-blur`; a writer's step only its own file, by its own update |
| QueueLock.NoUpdateIsLost | scripts/ops/auto_layout_downgrade.py:179-185 | the files are always what all updates so far make of the first ones, one after another |
| QueueLock.LoneProcessCompletes | scripts/ops/auto_layout_downgrade.py:134-164 | where the lock is free a waiting process can go through alone, whatever the length of its list: every file before the first it cannot write back has its turn, that one stays as it was, and the lock is free again; the program's whole list is cleared if and only if it can write back every automatic file on it |
| QueueLock.CompletedListIsCleared | scripts/ops/auto_layout_downgrade.py:274-280 | when the program is through its list and still has the lock, no file of the list is automatic |
| Highlights.SelectHighlights | src/ai_clipper/highlight.py:35-75 | the bounds are rejected exactly when invalid; the clips are candidates, pairwise clear, sorted by start, at most `limit` and within the duration bounds; every candidate is selected, or overlaps a selected one of higher score (or the same and no later start), or `limit` selected ones precede it so |
| Highlights.Candidates | src/ai_clipper/highlight.py:50-66 | from every starting segment the furthest window within the bound, kept when it is long enough |
| Highlights.CandidateMeans | src/ai_clipper/highlight.py:50-66 | a candidate ends with the last segment up to which all end within the bound, and has the joined texts and their score |
| Highlights.CandidateExists | src/ai_clipper/highlight.py:50-66 | every segment from which that window is neither too short nor too long has one |
| Highlights.EveryPositionAccounted | src/ai_clipper/highlight.py:68-75 | every candidate is chosen, overlaps one chosen before it, or comes after the limit was filled |
| Highlights.RaisingTheLimitAppends | src/ai_clipper/highlight.py:68-75 | a higher limit keeps every chosen position and only adds later ones |
| Highlights.HigherLimitKeepsClips | src/ai_clipper/highlight.py:35-75 | of two selections from one transcript the one under the higher limit has every clip of the other, as often, and they are the same where the lower limit is not filled |
| Highlights.CandidatesUnique | src/ai_clipper/highlight.py:50-66 | a transcript and the bounds have one list of candidates |
| Highlights.ChoiceIsFirst | src/ai_clipper/highlight.py:68-75 | the choice is the lexicographically first of all compatible choices, and none extends it |
| RemovalList.AfterIsCanonical | scripts/editor/gen_t37_fixtures.py:174-193 | from a separated list the new one is separated, sorted and numbered |
| RemovalList.AfterCovers | scripts/editor/gen_t37_fixtures.py:174-193 | the covered frames and the words are exactly the old ones and the new ones, separated or not |
| RemovalList.AfterInEntries | scripts/editor/gen_t37_fixtures.py:174-193 | every entry of the new list is an old one that was kept, but for its number, or the merged one; that keeps segment and origin, has the words of all it took in and is the user's as soon as it took one in |
| RemovalList.NameLeMeans | scripts/editor/gen_t37_fixtures.py:188-188 | names are sorted by the first character that differs, a beginning first |
| RemovalList.PassSeparates | scripts/editor/gen_t37_fixtures.py:177-187 | one pass is enough although `merged` grows: what was kept is apart from all it can absorb |
| RemovalList.OnePassNeedsSeparation | scripts/editor/gen_t37_fixtures.py:177-187 | from two overlapping entries the pass leaves an overlap |
| RemovalList.CallsKeepCanonical | scripts/editor/gen_t37_fixtures.py:169-193 | over any sequence of calls the list stays canonical and covers exactly the union |
| RemovalList.MergedPiecesAreRawPieces | scripts/editor/gen_t37_fixtures.py:169-193 | the pieces of the merged list are those of the raw one |
| RemovalList.DroppingColdOpenKeepsCanonical | scripts/editor/gen_t37_fixtures.py:203-212 | where the other segments sort before the cold open's, dropping its entries keeps the list canonical, numbers included |
| RemovalList.Builder.Remove | scripts/editor/gen_t37_fixtures.py:169-193 | the method replaces the list by that one, sorted by name and start and numbered from 1, with the old frames and the new ones covered, also for a range that ends before it starts |
| RemovalList.Builder.SetColdOpen | scripts/editor/gen_t37_fixtures.py:203-212 | any cold open goes with its removals, the new one comes first with the only join, and the other segments and removals stay |

## Left out

- Floating point: SSIM values, durations, scores and strengths are exact; not-a-number and infinite
  bounds are not represented. `now_ms` is any clock that is exact or one millisecond below.
- RemovalList.Builder.Remove: the words of an entry are a set, so their order in the file is not stated;
  the names rm_1, rm_2, … are numbers; the frame edges that a call's words resolve to are its parameters.
- Highlights.SelectHighlights: the score is any function of the text and the duration; the phrases that
  `_score` looks for are not modelled.
- PngCodec.EncodeThenRead: compression and the checksum are arbitrary functions, and decompression is
  only assumed to undo compression.
- Differences.DiffBBox: images have at least one channel. PSNR and the mean colour of a mask are left out.
- Morphology.InteriorMask: the radius is not negative; with a negative one the program indexes outside
  its rows.
- Morphology.TextMask: frames have an even width and height and hold exactly the three planes, as
  `yuv420p` does.
- Plates.PlateSequence: decoding is a function of the cell, so that a file that changes between two
  reads is not modelled.
- DowngradeRun.Root.Run: paths, symbolic links and the printed lines are left out, and so is the check of
  a name's form. A missing job directory reads like a missing `job.json`, a missing seed like one that
  cannot be parsed. Nobody else is at work, as the procedure demands, so a lock that is there stays there
  until the time-out.
- DowngradeRun.Root.PublishSeed: the size limit of a clip's documents (1 MiB) is not modelled for the
  downgraded seed, which is shorter than one that names its shots; nor is a seed or a revision nested too
  deeply to parse, where `run` does not catch the exception.
- DowngradeRun.Root.WriteClip: a write that fails with an error of the system, which `run` catches, is not
  modelled; neither are such errors at `job.json` and at the lock.
- DowngradeRun.Root.Put: validation is an arbitrary function of the new revision and the seed, except for
  the revision, the parent and the base, which are modelled. Receipts are left out: each save has a new
  key, so no run ever reads the receipt of another.
- QueueLock.LoneProcessCompletes: the size limit of `job.json` is not modelled there, only in `DowngradeRun`.
- QueueLock.EveryStateIsSound: no takeover of a stale lock and no heartbeat; a process number stands for
  its token. Writers that do not take the lock are not modelled.
- Byte counts of rows and pictures are defined by adding, with a lemma that they are the products.
- One loop of the source is sometimes several methods, one per nesting level.
- `markers`, `independent_zone`, `independent_unsafe` and `window_grid`: each is one formula or a call of
  functions that are modelled.
- FFmpeg, OpenCV, HTTP, the report summaries, argument parsing and the label page.
