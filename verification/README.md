# Verified models of the media daemons

The Rust crates `frame-forge`, `jfs-common` and `poster-gen` stitch panoramas, upscale images, cache and prefetch video
frames, and pick poster timestamps.  These Dafny modules model the algorithms at the core of those daemons and prove what
they are for.  `dafny verify dfyconfig.toml` checks everything.

| module | what it models |
|---|---|
| `Images` | pixel grids: values, and the arrays that loops fill |
| `SeamDp` | minimum-cost seams by dynamic programming, shared by both stitchers |
| `AnimeSeam` | the two seam finders of the anime stitcher |
| `LandscapeSeam` | the saturating seam finder of the landscape stitcher |
| `PhaseCorrelation` | from a correlation surface to a displacement |
| `Panorama` | offset chaining with backtracking, canvas size, seam-gated painting |
| `Pyramid`, `LandscapeBlend` | Gaussian and Laplacian pyramids, multi-band blending |
| `Resampling`, `BlendRegions` | what blur and enlargement do to simple images, and which pixel of a blend shows what |
| `Upscale`, `TileBlending` | tiled super-resolution, and how neighbouring tiles fade into each other |
| `CacheNames`, `CacheIndex`, `DiskCache` | the on-disk frame cache: file names, index text, calls, eviction, restarts |
| `CacheThreads` | the same cache under any interleaving of threads |
| `Broadcast`, `BroadcastRuns` | the two frame-index demuxes, and one file's demux and subscribers under any interleaving |
| `DeviceCache` | the shared, reference-counted hardware contexts |
| `Sampling` | poster timestamps moved out of skipped segments |
| `TargetMatching` | matching decoded frames to requested positions |
| `Dedup` | near-duplicate removal before stitching |
| `Prefetch` | reporting of a prefetched window |
| `Calendar` | seconds since 1970 to a calendar date |

Loops, arrays and objects of the source are loops, arrays and classes here; each is proved against a specification
function or predicate, and the theorems are about that.  Interleavings of threads are runs of a state machine whose steps
are the critical sections.

## What is abstract

- `f32` and `f64` are exact reals; rounding, NaN and infinities are not modelled.  What is said to hold exactly holds of
  exact arithmetic; `f32` sums of energies, for one, are exact below 2^24 only, that is for up to 86 rows at full energy.
- The correlation surface, the colour distance's square root, the super-resolution model, the perceptual hash, the
  correlation quality of two frames and the random draws are arbitrary inputs.
- The clock, the file system, the decoder, the cancel flag and the network peer answer arbitrarily, through parameters.
- Iteration order of hash maps and the order unstable sorts leave equal keys in are arbitrary.
- Integers are unbounded except where the text form of the cache index and its file names need the ranges of `i64`, `u64`
  and `u32`; positions parsed from file names wrap as in a release build.

## Where the code and its own words differ

The models follow the code.

- `stitch_anime.rs` says the wrap correction keeps `|dx|` and `|dy|` within half the width and half the height.  Over all
  surfaces that holds exactly for even sizes and for a single column or row (`HalfWidthBoundIffEven`,
  `HalfHeightBoundIffEven`); in general the bound is half of the size plus one (`ShiftIsBounded`), which is still enough for
  the sanity cap never to stop equal-size frames (`CapNeverFires`).  The surfaces of the first two are arbitrary; one that
  the transform itself can yield is `AttainableTie`.
- `try_graphcut_seam` promises the minimum-difference seam.  In exact arithmetic and up to 513 rows it keeps that promise
  exactly for the image pairs that have a connected seam inside their overlap (`FinestIffSomeSeamIsInside`); at any greater
  height some such pair loses its seam to saturation (`FinestExactlyUpTo513Rows`), while a seam that costs less than 1e8 is
  found at every height, which the table's own last row shows.  Where no seam runs inside, as when one image sits lower
  than the other, the seam goes straight down the edge of the zone from the first row that no path inside reaches
  (`SeamHugsTheEdge`), cheaper seams or not (`ShiftedImagesLoseTheSeam`).
- `blend_two` says the smooth blend is kept for the transition zone around the seam.  The finder's mask is 0 or 1
  everywhere, so under it every covered pixel is copied and the result is a hard cut, whatever the pyramids hold
  (`FinderMaskCutsHard`); a pixel shows the blend only where both images reach and a mask lies between 0.001 and 0.999
  (`BlendShowsIff`), as only the gradient mask does.
- `up_img` reads past the edge as zero, so enlarging a one-pixel-wide or -high image fades it out; a constant image stays
  constant exactly when no axis goes from one position to several (`KeepsConstantsIff`).  Collapse undoes analysis all the
  same.
- `DiskCache::write` documents `true` as "the frame is now in cache".  `true` means readable if and only if the recorded
  file was already there, or the frame was stored and outlives the cleanup that ends the call: none runs, or its file
  cannot be removed, or older entries bring the total to the target first (`SuccessIsReadableIff`).  It is unreadable when
  the check finds the file of the frame index it was given and not of the one recorded (`SuccessMayBeUnreadable`), when the
  frame is older than what fills the cache (`StoredFrameMayBeEvicted`), or when a restart kept the total of files that are
  gone (`RestartMayLeaveNoRoom`).  A caller is safe while the total and the frame fit under the cap
  (`FittingWritesAreReadable`).
- After `rebuild_index` no entry has a recorded video time, so an entry is stale for its first reader if and only if the
  video's time reads as other than 0 (`RebuiltIsCurrentIff`); 0 is also what a video that cannot be read gives.
- `server.rs` says the frame numbers of the streamed demux agree with `index_frames`.  The two demuxes find the same frames
  exactly when the parser shows every packet of the stream at the time the packet carries (`DemuxesAgreeIff`), and whether
  all subscribers receive the same depends on that (`StreamsAgreeIff`, `FileStreamsAgreeIff`).
- `get_or_subscribe` checks the cache and registers in two steps, so a subscriber may register for a file that is cached by
  then; that happens exactly when the index was put in after its check and stayed (`RegistersThoughCachedIff`,
  `QueueMayStartForACachedFile`).
- The bridge drains once more after it has seen `done`, to be safe from the race with the last push.  Another race is left:
  a subscriber that reads `done` as false and starts to wait only after the last notification waits forever, and only such a
  one does (`StuckIff`, `StuckForever`, `WakeUpMayBeLost`).  A demux that fails stays registered, and nobody who joins it
  ever gets through (`FailedDemuxBlocksTheFile`).
- `decoder.rs` says its tolerance does not false-match.  Frames up to e off their positions are never mistaken, whatever
  is lost, if and only if the requested positions are further apart than twice e (or than e and the tolerance), and no
  other position of the video comes within e and the tolerance of one, but for those that stay outside the window
  (`NeverMistakesIff`).  The tolerance is two frames, so a request that leaves out the frame after one of its own, up to
  half a second on, can go wrong (`NextFrameCanBeMistaken`, `LostFrameIsReplaced`).  What saves it is order: where
  frames come in the order of the video, no requested one is lost or so early as to be skipped, and no position close to
  a requested one is left out before the last, every position is sent with its own frame (`OrderedRunsAreRight`).  The
  prefetch handler asks for one position at a time; that is answered with its own frame exactly when the frame is not
  early, by however little, and near enough, and with a later frame otherwise (`SingleRequestIsRightIff`,
  `EarlyFrameIsReplaced`).  At 25 frames a second 21 ms are too much even between requested positions
  (`LateFrameStealsANeighbour`).
- `handle_prefetch_range_stream` calls the anchor the first frame reported.  Cached frames come first: what is reported
  first is the miss nearest the anchor exactly when nothing in the window is cached (`NearestMissFirstIff`), and a frame at
  the anchor exactly when the first cached one is, or nothing is cached and one is there (`AnchorFirstIff`,
  `CachedFrameComesBeforeTheAnchor`).
- `apply_skip` keeps timestamps out of the skips exactly when at least 2^-52 seconds are left (`LandsInAvailableTimeIff`,
  `TooLittleTimeLeft`); with nothing left it returns them as they are, inside the skips (`PosterTimestampsAvoidSkips`).
- `epoch_to_parts` is called an approximation; it is the exact Gregorian calendar.

## Model

| member | source | states |
|---|---|---|
| `SeamDp.TracebackIsExtremeOptimum` | crates/frame-forge/src/stitch_landscape.rs:643-692 | a traceback through any table obeying the recurrence is a cheapest connected seam, and step by step the furthest to the preferred side of all cheapest seams |
| `SeamDp.TracebackIsOptimal` | crates/frame-forge/src/stitch_anime.rs:145-195 | the traceback costs no more than any of the exponentially many seams |
| `SeamDp.ExtremeOptimumExists` | crates/frame-forge/src/stitch_anime.rs:145-195 | every cost array has a cheapest connected seam that is furthest to the preferred side of all of them |
| `SeamDp.ExtremeOptimumIsUnique` | crates/frame-forge/src/stitch_anime.rs:186-194 | optimality and the tie rule leave exactly one seam |
| `SeamDp.OnlyFreeSeamIsOptimal` | crates/frame-forge/src/stitch_anime.rs:145-195 | a seam that costs nothing, off which nothing is free, is the only cheapest one |
| `SeamDp.MinInRow` | crates/frame-forge/src/stitch_landscape.rs:673-690 | `min_by` with the tie-breaker picks the specified least entry of a row of the table |
| `SeamDp.MinInColumn` | crates/frame-forge/src/stitch_anime.rs:187-192 | the same over a column |
| `AnimeSeam.FillCost` | crates/frame-forge/src/stitch_anime.rs:145-170 | the cost array holds, for every overlap pixel, the root of the squared distance of canvas and frame, and 0 where either ends |
| `AnimeSeam.DistanceByChannel` | crates/frame-forge/src/stitch_anime.rs:166-169 | the squared distance of two pixels is that of their three channels together, d*d for a channel that differs by d |
| `AnimeSeam.FindHorizontalSeam` | crates/frame-forge/src/stitch_anime.rs:145-195 | returns the topmost of the cheapest left-to-right seams |
| `AnimeSeam.FindVerticalSeam` | crates/frame-forge/src/stitch_anime.rs:200-251 | returns the leftmost of the cheapest top-to-bottom seams |
| `AnimeSeam.HorizontalSeamIsTopmostOptimum` | crates/frame-forge/src/stitch_anime.rs:145-195 | a row sequence is the returned seam if and only if it is in range, moves at most one row per column, is cheapest, and is topmost among the cheapest |
| `AnimeSeam.VerticalIsTransposedHorizontal` | crates/frame-forge/src/stitch_anime.rs:197-251 | the vertical finder is the horizontal finder on transposed images |
| `AnimeSeam.HorizontalSeamFollowsTheAgreement` | crates/frame-forge/src/stitch_anime.rs:145-195 | under a root that vanishes at 0 only: where canvas and frame agree along one connected path across the overlap and differ in some channel everywhere else, the finder returns that path |
| `AnimeSeam.VerticalSeamFollowsTheAgreement` | crates/frame-forge/src/stitch_anime.rs:197-251 | the same for a path from top to bottom |
| `LandscapeSeam.OverlapZone` | crates/frame-forge/src/stitch_landscape.rs:611-621 | finds the first and the last column where both images show something |
| `LandscapeSeam.CompareCentroids` | crates/frame-forge/src/stitch_landscape.rs:633-641 | tells whether the second image's visible pixels lie further right on average |
| `LandscapeSeam.CentroidsFollowTheImages` | crates/frame-forge/src/stitch_landscape.rs:633-641 | where all that one image shows lies to the right of all that the other shows, its centroid does |
| `LandscapeSeam.TryGraphcutSeam` | crates/frame-forge/src/stitch_landscape.rs:606-706 | a mask exactly when sizes match and the overlap is neither too narrow nor too wide; it splits every row at the finder's seam |
| `LandscapeSeam.SaturationAgreesBelowLimit` | crates/frame-forge/src/stitch_landscape.rs:655-665 | the saturating table equals the exact one wherever the exact cost is below 1e8 |
| `LandscapeSeam.SaturationAgreesForShortImages` | crates/frame-forge/src/stitch_landscape.rs:655-665 | up to 513 rows it equals the exact table for every entry that carries no penalty |
| `LandscapeSeam.SeamIsFinestBelowLimit` | crates/frame-forge/src/stitch_landscape.rs:643-692 | if some seam costs less than 1e8, the traced seam is connected, avoids every non-overlap pixel, is cheapest over all connected seams, and is the rightmost or leftmost of the cheapest |
| `LandscapeSeam.LastRowShowsTheLimit` | crates/frame-forge/src/stitch_landscape.rs:667-683 | some seam costs less than 1e8 if and only if some entry of the last row is below it |
| `LandscapeSeam.SeamIsFinestForShortImages` | crates/frame-forge/src/stitch_landscape.rs:643-692 | up to 513 rows, a seam inside the overlap is all that optimality needs |
| `LandscapeSeam.MaskSplitsAtTheFinestSeam` | crates/frame-forge/src/stitch_landscape.rs:606-706 | from images to mask: where a seam runs inside the overlap and the images have at most 513 rows or it costs less than 1e8, the mask splits them at the finest seam |
| `LandscapeSeam.FinestIffSomeSeamIsInside` | crates/frame-forge/src/stitch_landscape.rs:643-692 | up to 513 rows the finder returns the finest seam if and only if some connected seam runs inside the overlap; if none does, its seam ends at the preferred edge of the zone |
| `LandscapeSeam.SeamHugsTheEdge` | crates/frame-forge/src/stitch_landscape.rs:653-692 | from the first row that no connected path inside the overlap reaches, the seam runs straight down the preferred edge |
| `LandscapeSeam.MaskKeepsTheZone` | crates/frame-forge/src/stitch_landscape.rs:694-703 | then the mask keeps the first image's pixels across the whole zone from that row down |
| `LandscapeSeam.ShiftedImagesLoseTheSeam` | crates/frame-forge/src/stitch_landscape.rs:643-692 | at every height above one, an accepted pair without overlap in its upper rows whose seam costs more than another |
| `LandscapeSeam.FinestExactlyUpTo513Rows` | crates/frame-forge/src/stitch_landscape.rs:643-692 | for all image pairs of a height that have a seam inside their overlap the finder is right if and only if the height is at most 513 |
| `LandscapeSeam.SatSeamIsUnique` | crates/frame-forge/src/stitch_landscape.rs:655-692 | the saturating finder's seam is determined by the images |
| `LandscapeSeam.DistanceByChannel` | crates/frame-forge/src/stitch_landscape.rs:643-653 | the energy of two visible pixels is that of their colour channels together, d*d for a channel that differs by d, whatever their opacity |
| `LandscapeSeam.SeamFollowsTheAgreement` | crates/frame-forge/src/stitch_landscape.rs:643-692 | at every height: where the images agree along one connected path through the zone and nowhere else in it, the saturating finder returns that path |
| `LandscapeSeam.MaskIsCutAlongTheAgreement` | crates/frame-forge/src/stitch_landscape.rs:606-706 | from images to mask: then the mask is 1 on the path and on the first image's side of it, 0 on the other |
| `PhaseCorrelation.PhaseCorrelate` | crates/frame-forge/src/stitch_anime.rs:49-79 | scans the surface for its peak, refines it along either axis and takes what lies beyond half the size as negative |
| `PhaseCorrelation.PeakOfIsPeak` | crates/frame-forge/src/stitch_anime.rs:49-61 | the peak is the row-major first among the highest cells, or the origin when none is positive |
| `PhaseCorrelation.RefineStaysWithinHalf` | crates/frame-forge/src/stitch_anime.rs:82-86 | next to a peak the parabola's vertex is at most half a cell away |
| `PhaseCorrelation.RefineIsTheVertex` | crates/frame-forge/src/stitch_anime.rs:82-86 | from three samples of a parabola its highest point is read, or the middle one where they are all but level |
| `PhaseCorrelation.ShiftIsTheRefinedPeak` | crates/frame-forge/src/stitch_anime.rs:71-79 | a displacement is the one returned if and only if, on either axis, it is the refined peak modulo the size, taken between minus and plus half of it, to the nearest integer |
| `PhaseCorrelation.SinglePeakIsReadExactly` | crates/frame-forge/src/stitch_anime.rs:49-79 | a surface whose only positive cell is that of displacement (d, e), negative ones included, is read as exactly (d, e) |
| `PhaseCorrelation.ShiftIsBounded` | crates/frame-forge/src/stitch_anime.rs:63-79 | for every surface twice the displacement is at most the size plus one, and at most an even size |
| `PhaseCorrelation.HalfWidthBoundIffEven` | crates/frame-forge/src/stitch_anime.rs:326-330 | for every height the commented bound of half the width holds of all surfaces exactly for even widths and one column |
| `PhaseCorrelation.HalfHeightBoundIffEven` | crates/frame-forge/src/stitch_anime.rs:326-330 | for every width the commented bound of half the height holds of all surfaces exactly for even heights and one row |
| `PhaseCorrelation.AttainableTie` | crates/frame-forge/src/stitch_anime.rs:49-79 | a surface with a flat spectrum, as the transform yields, that is read as 2 cells across on 3 |
| `Panorama.PlaceFrame` | crates/frame-forge/src/stitch_anime.rs:283-313 | places a frame behind the nearest of the last 40 frames that matches, or where the frame before it is |
| `Panorama.ChainOffsets` | crates/frame-forge/src/stitch_anime.rs:281-317 | every offset of the chain is placed so |
| `Panorama.ChainRecoversPositions` | crates/frame-forge/src/stitch_anime.rs:281-317 | where every match measures where the frames really lie and no frame is without a match, the chain puts every frame where it lies, seen from the first |
| `Panorama.DriftSpread` | crates/frame-forge/src/stitch_anime.rs:281-317 | through any backtracking, two of n offsets differ by at most n-1 half steps |
| `Panorama.CanvasIsBounded` | crates/frame-forge/src/stitch_anime.rs:319-324 | for equal-size frames the canvas exceeds one frame by at most n-1 half frames, rounded up |
| `Panorama.CapNeverFires` | crates/frame-forge/src/stitch_anime.rs:326-341 | so the sanity cap never stops a run over equal-size frames |
| `Panorama.CanvasHoldsEveryFrame` | crates/frame-forge/src/stitch_anime.rs:319-324 | every frame rectangle lies inside the canvas |
| `Panorama.CanvasIsTight` | crates/frame-forge/src/stitch_anime.rs:319-324 | some frame touches each side |
| `Panorama.ChooseCut` | crates/frame-forge/src/stitch_anime.rs:375-403 | a seam is sought only in a large enough, well matched overlap, along the stronger pan axis |
| `Panorama.PaintFrame` | crates/frame-forge/src/stitch_anime.rs:405-431 | every canvas pixel after the loop: the frame's on its side of the seam and where only it reaches, unchanged elsewhere |
| `Panorama.SeamIsTheBoundary` | crates/frame-forge/src/stitch_anime.rs:405-431 | in the overlap a line along the pan shows the new frame from the seam on, or up to it for a pan to the left or upwards, and the old canvas on the other side; outside it the new frame |
| `Panorama.StepJoinsAtTheBestRows` | crates/frame-forge/src/stitch_anime.rs:359-431 | in every run, over an overlap of more than 4 by 4 pixels and on a good match, a step that moves at least as far down or up as across joins the two along the topmost cheapest seam, column by column |
| `Panorama.StepJoinsAtTheBestColumns` | crates/frame-forge/src/stitch_anime.rs:359-431 | a step that moves further across joins them along the leftmost cheapest seam, row by row |
| `Panorama.StepWithoutSeamCopiesTheFrame` | crates/frame-forge/src/stitch_anime.rs:345-431 | any other step copies the whole frame |
| `Panorama.StitchAnime` | crates/frame-forge/src/stitch_anime.rs:255-435 | fails exactly for fewer than two frames or beyond the cap; otherwise the result is the last canvas of a run |
| `Panorama.EqualFramesAreNeverRefused` | crates/frame-forge/src/stitch_anime.rs:326-341 | frames of one size pass the cap |
| `Panorama.CoveredPixelsShowAFrame` | crates/frame-forge/src/stitch_anime.rs:345-432 | for any offsets and seams, every pixel a frame covers ends equal to some covering frame's pixel there |
| `Panorama.UncoveredPixelsStayBlack` | crates/frame-forge/src/stitch_anime.rs:343-432 | all other pixels stay black |
| `Panorama.SceneIsReconstructed` | crates/frame-forge/src/stitch_anime.rs:343-432 | frames cut out of one scene put it back together exactly |
| `Panorama.StitchingRecoversTheScene` | crates/frame-forge/src/stitch_anime.rs:255-435 | from surfaces to picture: frames cut out of one scene, each of whose surfaces against the frame before has one high enough peak where the frame lies, are stitched to that scene, every covered pixel exactly |
| `Panorama.NewFrameOwnsItsLeadingEdge` | crates/frame-forge/src/stitch_anime.rs:410-424 | along the pan the new frame keeps everything from the seam to its leading edge |
| `Panorama.OnlyTheOverlapIsGated` | crates/frame-forge/src/stitch_anime.rs:408-428 | what only the new frame covers is never withheld |
| `Pyramid.GaussMsk` | crates/frame-forge/src/stitch_landscape.rs:437-458 | blurs along rows and then columns with clamped borders |
| `Pyramid.BlurStaysWithin` | crates/frame-forge/src/stitch_landscape.rs:437-458 | blurring never leaves the range of the mask, so constants stay constant |
| `Pyramid.GaussImg` | crates/frame-forge/src/stitch_landscape.rs:412-435 | blurs all four channels along rows and then columns with clamped borders |
| `Pyramid.BlurIsChannelwise` | crates/frame-forge/src/stitch_landscape.rs:412-458 | each channel of the blurred image is that channel blurred as a mask |
| `Resampling.BlurSpreadsAnImpulse` | crates/frame-forge/src/stitch_landscape.rs:437-458 | a single bright pixel spreads by 1, 4, 6, 4, 1 sixteenths across and down |
| `Resampling.ChannelsTellPixelsApart` | crates/frame-forge/src/stitch_landscape.rs:412-435 | those channels are all there is to a pixel |
| `Pyramid.Down` | crates/frame-forge/src/stitch_landscape.rs:460-472 | every second pixel of every second row, sizes rounded up |
| `Pyramid.UpImg` | crates/frame-forge/src/stitch_landscape.rs:474-493 | bilinear enlargement with zero reads past the edge |
| `Pyramid.UpIsLinear` | crates/frame-forge/src/stitch_landscape.rs:474-493 | enlarging a mixture is mixing the enlargements |
| `Pyramid.KeepsConstantsIff` | crates/frame-forge/src/stitch_landscape.rs:474-493 | enlarging keeps every constant image constant exactly when no axis goes from one position to several |
| `Resampling.UpContinuesSlopes` | crates/frame-forge/src/stitch_landscape.rs:474-493 | enlarging a linear slope gives the slope at the place that lies as far between the first and the last pixel |
| `Pyramid.GaussPyrImg` | crates/frame-forge/src/stitch_landscape.rs:514-518 | the four levels of an image |
| `Pyramid.GaussPyrMsk` | crates/frame-forge/src/stitch_landscape.rs:520-524 | the four levels of a mask |
| `Pyramid.LevelsStayWithin` | crates/frame-forge/src/stitch_landscape.rs:520-524 | no level of a mask leaves its range |
| `Pyramid.LevelsAreChannelwise` | crates/frame-forge/src/stitch_landscape.rs:514-524 | each channel of an image's pyramid is that channel's pyramid as a mask |
| `Pyramid.LapPyr` | crates/frame-forge/src/stitch_landscape.rs:526-539 | each level is what the next one enlarged lacks |
| `BlendRegions.DetailAddsUp` | crates/frame-forge/src/stitch_landscape.rs:526-539 | a detail level and the enlarged coarser level add up to the finer one, channel by channel |
| `Pyramid.CollapseLap` | crates/frame-forge/src/stitch_landscape.rs:541-553 | computes the collapse level by level, overwriting the result |
| `Pyramid.CollapseUndoesAnalysis` | crates/frame-forge/src/stitch_landscape.rs:526-553 | collapsing the Laplacian pyramid of any pyramid gives back its finest level exactly |
| `Pyramid.CollapseIsLinear` | crates/frame-forge/src/stitch_landscape.rs:541-553 | mixing all levels alike mixes the collapsed images alike |
| `Pyramid.BlendLevel` | crates/frame-forge/src/stitch_landscape.rs:555-567 | mixes two levels pixel by pixel by the mask |
| `BlendRegions.BlendGoesByTheMask` | crates/frame-forge/src/stitch_landscape.rs:555-567 | at every place a level takes of the first image what the mask says there and of the second the rest: the first's pixel where it is 1, the second's where it is 0 |
| `Pyramid.BlendWithItself` | crates/frame-forge/src/stitch_landscape.rs:555-567 | a level blended with itself is unchanged, whatever the mask |
| `LandscapeBlend.BlendPyramids` | crates/frame-forge/src/stitch_landscape.rs:753-766 | the result is the multi-band blend of the two images under the mask |
| `LandscapeBlend.MultiBandIsUnique` | crates/frame-forge/src/stitch_landscape.rs:753-766 | that blend is determined by images and mask |
| `LandscapeBlend.SameImagesBlendToThemselves` | crates/frame-forge/src/stitch_landscape.rs:753-766 | blending an image with itself gives it back under any mask |
| `LandscapeBlend.ConstantMaskMixes` | crates/frame-forge/src/stitch_landscape.rs:753-766 | a constant mask c gives exactly c of one image and 1-c of the other |
| `BlendRegions.UniformMaskMixes` | crates/frame-forge/src/stitch_landscape.rs:753-766 | where the mask is t throughout the 28 pixels around a place, whatever it is elsewhere, the four-level blend is there exactly t of the first image and 1 - t of the second; the first's own pixel where t is 1, the second's where it is 0 |
| `LandscapeBlend.CollapseUndoesAnalyse` | crates/frame-forge/src/stitch_landscape.rs:526-553 | an image's own pyramid collapses to it |
| `LandscapeBlend.BlendTwo` | crates/frame-forge/src/stitch_landscape.rs:739-799 | every pixel of the finished blend |
| `BlendRegions.TransitionMixesBytes` | crates/frame-forge/src/stitch_landscape.rs:739-799 | where such a uniform stretch lies in the transition and both images cover the pixel, the finished bytes are the mixture of theirs, rounded down |
| `LandscapeBlend.BlendingAnImageWithItself` | crates/frame-forge/src/stitch_landscape.rs:739-799 | in exact arithmetic byte for byte the same image, opaque where a mask covers it |
| `LandscapeBlend.CleanPixelsAreLossless` | crates/frame-forge/src/stitch_landscape.rs:768-788 | away from the transition the covering image's own colour comes out |
| `LandscapeBlend.BlendShowsIff` | crates/frame-forge/src/stitch_landscape.rs:768-788 | a pixel is restored from a source exactly when it is covered and not covered by both under a mask between 0.001 and 0.999 |
| `LandscapeBlend.FinderMaskCutsHard` | crates/frame-forge/src/stitch_landscape.rs:739-799 | from images to result: whenever the finder gives a mask, every covered pixel is the one or the other image's, cut along its seam, the finest where up to 513 rows have one inside the overlap |
| `LandscapeBlend.ByteRoundTrip` | crates/frame-forge/src/stitch_landscape.rs:353-380 | bytes survive the conversion to channels and back |
| `Upscale.TileOrigins` | crates/frame-forge/src/upscale.rs:125-140 | starts at 0, steps at most `step`, and ends exactly at the last possible origin |
| `Upscale.OriginsAscend` | crates/frame-forge/src/upscale.rs:128-140 | origins strictly increase |
| `Upscale.OriginsFit` | crates/frame-forge/src/upscale.rs:125-140 | no tile hangs over the far edge unless the image is smaller than a tile |
| `Upscale.OriginsCover` | crates/frame-forge/src/upscale.rs:125-140 | every position lies in some tile |
| `Upscale.ExtractTile` | crates/frame-forge/src/upscale.rs:142-156 | copies the tile, reads past the edge taking the edge pixel |
| `Upscale.RampBounds` | crates/frame-forge/src/upscale.rs:158-172 | weights lie between 0.001 and 1, and are 1 away from both ends |
| `Upscale.RampsAreComplementary` | crates/frame-forge/src/upscale.rs:158-172 | where one tile fades out and its neighbour fades in the weights add up to 1 |
| `Upscale.AccumulateTile` | crates/frame-forge/src/upscale.rs:80-103 | adds one tile's prediction and weights, and touches no other output pixel |
| `Upscale.UpscaleImage` | crates/frame-forge/src/upscale.rs:32-122 | each output pixel is the quantised weighted mean of what the model predicts for it; a result means that no run failed and none was cancelled, and there is one for every uncancelled call with a model that succeeds on tiles and predicts square multiples of them |
| `TileBlending.PixelIsMixed` | crates/frame-forge/src/upscale.rs:80-120 | in every finished run, each pixel that one tile or two neighbours a full step apart reach along either axis is the mixture of those tiles' predictions by their shares, quantised |
| `TileBlending.NeighboursFadeAcross` | crates/frame-forge/src/upscale.rs:80-120 | over the ov = overlap * scale columns that two such neighbours share, up to 999, the left one keeps (ov - k)/(ov + 1) of column k and the right one has (k + 1)/(ov + 1) |
| `TileBlending.NeighboursFadeDown` | crates/frame-forge/src/upscale.rs:80-120 | the same for two neighbours in a column of tiles |
| `TileBlending.OneTileIsCopied` | crates/frame-forge/src/upscale.rs:80-120 | a pixel that one tile alone reaches is that tile's prediction, quantised |
| `TileBlending.PredictionIsTheModels` | crates/frame-forge/src/upscale.rs:61-103 | a prediction is what the model answers for the tile, read as far into it as the pixel lies behind the tile's scaled origin |
| `TileBlending.QuantiseIs` | crates/frame-forge/src/upscale.rs:107-119 | a value becomes the last byte that is no more than 255 times it, 0 and 255 beyond the ends |
| `Upscale.EveryPixelIsWeighted` | crates/frame-forge/src/upscale.rs:80-120 | every output pixel is covered and its weights sum to at least 1e-6, so the divisor guard never acts |
| `Upscale.MeanStaysWithin` | crates/frame-forge/src/upscale.rs:80-120 | each output value is a convex combination of the predictions for it |
| `Upscale.LocalModelsLeaveNoSeams` | crates/frame-forge/src/upscale.rs:32-122 | for a model that is local per source pixel each output pixel is the model's own value |
| `Upscale.TiledEqualsOnePass` | crates/frame-forge/src/upscale.rs:32-122 | so the tiled result equals the one-pass result |
| `Upscale.ResultExists` | crates/frame-forge/src/upscale.rs:32-122 | every non-empty image has a result under a model that succeeds on tiles and predicts square multiples of them |
| `Upscale.FixedShapeModelsEnlargeTheImage` | crates/frame-forge/src/upscale.rs:32-122 | under a local model that fails on everything but a tile, the result is there and is the local function applied to the whole image |
| `CacheNames.PositionRoundTrip` | crates/jfs-common/src/disk_cache.rs:203-223 | every printed position, negative ones included, parses back to itself |
| `CacheNames.UnitsAddUp` | crates/jfs-common/src/disk_cache.rs:204-210 | truncating division splits a position into units that add up again |
| `CacheNames.ParsePadded` | crates/jfs-common/src/disk_cache.rs:204-222 | a zero-padded printed number parses back |
| `CacheNames.FileNameRoundTrip` | crates/jfs-common/src/disk_cache.rs:331-337 | a printed cache file name parses back to its frame index, position and width |
| `CacheNames.FileNamesAreDistinct` | crates/jfs-common/src/disk_cache.rs:51-53 | no two frames share a file name |
| `CacheIndex.WriteIndex` | crates/jfs-common/src/disk_cache.rs:277-286 | prints the header and one line per entry, in whatever order the map yields them |
| `CacheIndex.LoadIndex` | crates/jfs-common/src/disk_cache.rs:288-317 | the loop over the lines computes the specified index, or fails on the first bad number |
| `CacheIndex.LineRoundTrip` | crates/jfs-common/src/disk_cache.rs:282-310 | a printed line parses back to its entry |
| `CacheIndex.OldLinesAreRead` | crates/jfs-common/src/disk_cache.rs:301-313 | a line without a readable seventh word is read with video time 0, one with fewer than six is skipped |
| `CacheIndex.LastLineEndIsOptional` | crates/jfs-common/src/disk_cache.rs:290-301 | the last line needs no line end |
| `CacheIndex.IndexRoundTrip` | crates/jfs-common/src/disk_cache.rs:277-317 | loading a printed index gives back the total and the entries whose files exist, for any order |
| `CacheIndex.IndexRoundTripIff` | crates/jfs-common/src/disk_cache.rs:277-317 | with all files there, an index survives if and only if every item id is non-empty and free of white space |
| `CacheIndex.RebuildIndex` | crates/jfs-common/src/disk_cache.rs:319-351 | the nested loops over directories and files compute the specified index |
| `CacheIndex.RebuildFindsEveryFile` | crates/jfs-common/src/disk_cache.rs:328-346 | entries for exactly the keys some file is there for, each describing the last such file |
| `CacheIndex.RebuildCountsDisplacedFiles` | crates/jfs-common/src/disk_cache.rs:344-346 | the total is what the entries take and the bytes of every file that a later one of its key displaced |
| `CacheIndex.RebuildNeverUndercounts` | crates/jfs-common/src/disk_cache.rs:344-346 | so it covers the entries, and is exact if and only if no displaced file has a byte |
| `CacheIndex.RebuildRecoversTheCache` | crates/jfs-common/src/disk_cache.rs:319-351 | a directory that holds exactly the files of some entries is rebuilt to exactly those entries, apart from the times |
| `CacheIndex.LoadingKeepsSlack` | crates/jfs-common/src/disk_cache.rs:288-317 | loading a printed index never makes the total under-count, whatever files are gone |
| `CacheIndex.RebuildingKeepsSlack` | crates/jfs-common/src/disk_cache.rs:319-351 | nor does rebuilding |
| `DiskCache.DiskCache.Read` | crates/jfs-common/src/disk_cache.rs:60-93 | what a read returns and the whole state it leaves, the sweep of stale entries included |
| `DiskCache.DiskCache.Exists` | crates/jfs-common/src/disk_cache.rs:95-104 | true exactly when a read would find the frame |
| `DiskCache.DiskCache.Write` | crates/jfs-common/src/disk_cache.rs:109-143 | what a write reports and the whole state it leaves, its cleanup included |
| `DiskCache.DiskCache.Cleanup` | crates/jfs-common/src/disk_cache.rs:159-178 | evicts in age order until the target is reached |
| `DiskCache.DiskCache.Sweep` | crates/jfs-common/src/disk_cache.rs:66-78 | forgets all stale entries of an item and removes their files |
| `DiskCache.ReadsReturnWhatWasLastStored` | crates/jfs-common/src/disk_cache.rs:51-143 | after any calls a read gives nothing, or exactly the bytes last stored for item, position and width, and only for the recorded video time |
| `DiskCache.RestartAgrees` | crates/jfs-common/src/disk_cache.rs:35-49 | loading the printed index, files missing or not, keeps that agreement |
| `DiskCache.RebuiltIsCurrentIff` | crates/jfs-common/src/disk_cache.rs:229-236 | a rebuilt entry is current exactly for a video whose time reads as 0 |
| `DiskCache.RebuiltReadsNothing` | crates/jfs-common/src/disk_cache.rs:60-93 | for any other video nothing is read after a rebuild, and the first read of an item sweeps all that was rebuilt for it |
| `DiskCache.SuccessIsReadableIff` | crates/jfs-common/src/disk_cache.rs:106-178 | after a write that reports success, its cleanup included, the frame is readable if and only if it was there already with the recorded file, or was stored and outlives the cleanup |
| `DiskCache.SurvivesCleanupIff` | crates/jfs-common/src/disk_cache.rs:159-178 | an entry outlives the cleanup exactly when its file cannot be removed or the entries before it bring the total to the target; then its file is untouched |
| `DiskCache.FittingWritesAreReadable` | crates/jfs-common/src/disk_cache.rs:106-143 | while the total and the new frame fit under the cap, what was stored is read back |
| `DiskCache.SuccessMayBeUnreadable` | crates/jfs-common/src/disk_cache.rs:115-117 | two writes and a lost file after which a third write succeeds and leaves nothing readable |
| `DiskCache.StoredFrameMayBeEvicted` | crates/jfs-common/src/disk_cache.rs:139-141 | a run in which a write stores its frame and evicts it before it returns |
| `DiskCache.RestartMayLeaveNoRoom` | crates/jfs-common/src/disk_cache.rs:288-317 | the same after a restart whose files are gone while the total in the header stays |
| `DiskCache.SuccessIsReadable` | crates/jfs-common/src/disk_cache.rs:106-178 | while nothing else removes files, after any calls success means readable exactly unless the write's own cleanup evicts the frame |
| `DiskCache.CleanupEvictsTheOldest` | crates/jfs-common/src/disk_cache.rs:159-178 | evicts the shortest oldest-first prefix of removable files that reaches the target, or all of them |
| `DiskCache.SurvivorsAreNewer` | crates/jfs-common/src/disk_cache.rs:164-178 | what survives is no older than what was evicted, unless it could not be removed |
| `DiskCache.CleanupReachesTheTarget` | crates/jfs-common/src/disk_cache.rs:159-178 | if removals succeed and the total is exact, the target is reached |
| `CacheThreads.StepKeepsInv` | crates/jfs-common/src/disk_cache.rs:60-178 | each critical section changes total minus sum only when it commits over an overlapping write's entry |
| `CacheThreads.ReadStepsAreTheCall` | crates/jfs-common/src/disk_cache.rs:60-93 | the steps of a read, taken together, leave the cache as the call does |
| `CacheThreads.WriteStepsAreTheCall` | crates/jfs-common/src/disk_cache.rs:110-153 | so do the steps of a write, each enabled after the one before, its cleanup included |
| `CacheThreads.TotalNeverUndercounts` | crates/jfs-common/src/disk_cache.rs:60-198 | over all interleavings the total is never below the sum of sizes, and exceeds it by what overlapping same-key writes displaced |
| `CacheThreads.OverlapCountsTwice` | crates/jfs-common/src/disk_cache.rs:112-139 | a run in which two overlapping writes count one entry twice |
| `CacheThreads.StartsNeverUndercount` | crates/jfs-common/src/disk_cache.rs:35-49 | both ways the constructor starts, loading and rebuilding, meet the invariant |
| `CacheThreads.FilesHoldTheLastWrite` | crates/jfs-common/src/disk_cache.rs:60-143 | in every interleaving a file holds what the last write to its path left, or what it held at the start |
| `CacheThreads.ReadsReturnAWriteToTheKey` | crates/jfs-common/src/disk_cache.rs:60-93 | a read interrupted between lookup and file returns what the last write for the same item, position, width and frame index left |
| `CacheThreads.ReadMayReturnAnUncommittedWrite` | crates/jfs-common/src/disk_cache.rs:112-139 | a run with overlapping writes in which a read returns bytes of one that never committed |
| `CacheThreads.ReadsReturnWhatWasLastCommitted` | crates/jfs-common/src/disk_cache.rs:60-93 | while writes to a key do not overlap: a read that finds a current entry and reads its file later returns exactly the bytes committed for it when it looked, unless a write reached the file in between, and then what the last such step left |
| `CacheThreads.UninterruptedReadsAreCommitted` | crates/jfs-common/src/disk_cache.rs:60-93 | so a read with nothing between its halves gives nothing or the bytes last committed |
| `CacheThreads.WriteOvertakesTheRead` | crates/jfs-common/src/disk_cache.rs:60-93 | a run without overlapping writes in which a read returns bytes not yet committed, of a later video |
| `Broadcast.QueueBDemux` | crates/frame-forge/src/server.rs:1784-1860 | what it pushes is the stream of the index it leaves in the cache; then it is done and unregistered |
| `Broadcast.SendCached` | crates/frame-forge/src/server.rs:1877-1895 | the cached branch sends the same stream |
| `Broadcast.IndexFrames` | crates/jfs-common/src/decoder.rs:697-832 | the other demux: skips what the parser holds back, prefers its time, and fails on a file without frames |
| `Broadcast.DemuxesAgreeIff` | crates/jfs-common/src/decoder.rs:753-811 | the two demuxes find the same frames exactly when every packet of the stream is shown at the time it carries |
| `Broadcast.ChunksPartition` | crates/frame-forge/src/server.rs:1610-1619 | batches cover the frames in order, all full but the last, none empty |
| `Broadcast.DemuxedCountsFromTheStart` | crates/frame-forge/src/server.rs:1812-1830 | every packet of the stream is a frame, in file order, at its time since the stream's start, at least 0 |
| `Broadcast.FrameIndexManager.PutIfAbsent` | crates/frame-forge/src/server.rs:121-126 | an index already there stays, a new one can be found at once, the oldest leaves when full |
| `Broadcast.CacheHoldsTheLastTwenty` | crates/frame-forge/src/server.rs:121-126 | after any number of new indexes the cache holds the last twenty, oldest first |
| `Broadcast.FrameIndexManager.GetOrSubscribe` | crates/frame-forge/src/server.rs:143-155 | cached, already being demuxed, or newly registered |
| `BroadcastRuns.DeliveriesAreAPrefix` | crates/frame-forge/src/server.rs:1928-1958 | in every interleaving a subscriber has received a gap-free, duplicate-free prefix of what its queue has pushed |
| `BroadcastRuns.EveryStreamShowsItsIndex` | crates/frame-forge/src/server.rs:1868-1958 | whatever each demux finds, a subscriber answered from the cache has received the stream of the index cached when it looked, one that left its queue the stream of the index that queue was started for |
| `BroadcastRuns.EveryStreamWasBrought` | crates/frame-forge/src/server.rs:121-155 | every stream that is through shows an index that an earlier demux found or an earlier request put in |
| `BroadcastRuns.EveryFinishedStreamIsTheSame` | crates/frame-forge/src/server.rs:1868-1958 | where all of those are one index, every finished subscriber of the run has received its stream |
| `BroadcastRuns.StreamsAgreeIff` | crates/frame-forge/src/server.rs:121-155 | over all runs any two finished subscribers have received the same if and only if all indexes that can be found or put in are equal |
| `BroadcastRuns.FileStreamsAgreeIff` | crates/frame-forge/src/server.rs:1812-1850 | for one unchanging file: if and only if the parser shows no packet, or every packet at the time it carries |
| `BroadcastRuns.StreamsTellIndexesApart` | crates/frame-forge/src/server.rs:1877-1895 | different indexes have different streams |
| `BroadcastRuns.RegistersThoughCachedIff` | crates/frame-forge/src/server.rs:143-155 | a subscriber registers for a file cached by then exactly when the index was put in after its check and not evicted |
| `BroadcastRuns.StuckIff` | crates/frame-forge/src/server.rs:1932-1957 | a subscriber waiting for a queue that is done never goes on if and only if the queue announced it between the reading of the flag and the wait |
| `BroadcastRuns.StuckForever` | crates/frame-forge/src/server.rs:1932-1957 | no later step of any run wakes it |
| `BroadcastRuns.WakeUpMayBeLost` | crates/frame-forge/src/server.rs:1932-1957 | for every index a run in which everything is pushed and a subscriber waits forever with nothing received |
| `BroadcastRuns.FailedDemuxBlocksTheFile` | crates/frame-forge/src/server.rs:1784-1860 | a demux that fails stays registered in all that follows: nobody bridged to it gets through and everyone who registers joins it |
| `BroadcastRuns.OneLiveQueue` | crates/frame-forge/src/server.rs:143-160 | at most one demux per file has not unregistered, and it is the registered one |
| `BroadcastRuns.QueueMayStartForACachedFile` | crates/frame-forge/src/server.rs:143-155 | a run in which a demux starts although the index is cached |
| `DeviceCache.HwDeviceContext.IntoRaw` | crates/jfs-common/src/hwaccel.rs:145-154 | hands the reference over and nulls the guard |
| `DeviceCache.Devices.Lookup` | crates/jfs-common/src/hwaccel.rs:90-98 | a hit returns a new reference to the cached context |
| `DeviceCache.Devices.Publish` | crates/jfs-common/src/hwaccel.rs:121-142 | the first caches its context, every other drops its own and shares the cached one |
| `DeviceCache.Devices.Drop` | crates/jfs-common/src/hwaccel.rs:157-168 | releases the reference unless it was handed over |
| `DeviceCache.Devices.Attach` | crates/jfs-common/src/hwaccel.rs:232-251 | transfers the guard's reference without counting |
| `DeviceCache.StepsAreTheSections` | crates/jfs-common/src/hwaccel.rs:86-251 | the steps of the interleaving leave heap and cache, and hand out contexts, as the methods do |
| `DeviceCache.StepKeepsInv` | crates/jfs-common/src/hwaccel.rs:86-168 | every step keeps counts exact, creators exclusive, handles aliased and keys apart |
| `DeviceCache.CountsByHolder` | crates/jfs-common/src/hwaccel.rs:86-168 | in every interleaving a count is one if cached, plus guards, codecs and creators in flight |
| `DeviceCache.CacheNeverReplaced` | crates/jfs-common/src/hwaccel.rs:121-142 | a cached context is never replaced |
| `DeviceCache.HandlesShareOneContext` | crates/jfs-common/src/hwaccel.rs:86-142 | all handles ever returned for a key refer to the one context cached for it, which is alive |
| `DeviceCache.LosersAreFreedOnce` | crates/jfs-common/src/hwaccel.rs:122-135 | a racing loser's context is freed there and then, exactly once, and no handle refers to it |
| `DeviceCache.OnlyCachedContextsLive` | crates/jfs-common/src/hwaccel.rs:86-168 | nothing leaks: with no creator in flight the live contexts are the cached ones |
| `Sampling.EvenTimestamps` | crates/poster-gen/src/sampling.rs:1-6 | neighbours one gap apart, half a gap left at either end, all strictly inside the video |
| `Sampling.EvenlySpreadIff` | crates/poster-gen/src/sampling.rs:1-6 | only the midpoints of equal stretches are spread so |
| `Sampling.JitteredTimestamps` | crates/poster-gen/src/sampling.rs:8-25 | each timestamp lies where the top 53 bits of its draw point in the window around the even one; evenly spread where the window is empty; all strictly inside, neighbours two seconds apart or the even spacing |
| `Sampling.MaxJitterIsTheWidest` | crates/poster-gen/src/sampling.rs:11 | the window around an even timestamp is the widest of at most a quarter of the spacing to either side that leaves two seconds between windows |
| `Sampling.JitteredTimestampsAreSpread` | crates/poster-gen/src/sampling.rs:8-25 | for every draw strictly inside the video, and the next at least two seconds or the even spacing later |
| `Sampling.AvailableIntervals` | crates/poster-gen/src/sampling.rs:64-83 | sorted, disjoint, and exactly the time in no skip |
| `Sampling.Locate` | crates/poster-gen/src/sampling.rs:51-59 | finds the point with the given un-skipped time before it; the fallback is taken exactly when there is not that much time |
| `Sampling.ApplySkip` | crates/poster-gen/src/sampling.rs:38-62 | where every timestamp goes |
| `Sampling.LandsInAvailableTimeIff` | crates/poster-gen/src/sampling.rs:49-60 | a timestamp lands in available time exactly when it is not negative and 2^-52 seconds are available |
| `Sampling.AvailableTimeIsUnskipped` | crates/poster-gen/src/sampling.rs:64-83 | available time is the video minus the skips |
| `Sampling.RemappingPreservesMeasure` | crates/poster-gen/src/sampling.rs:50-57 | below the clamp the un-skipped time before the result is the timestamp's share of all un-skipped time |
| `Sampling.RemappingKeepsOrder` | crates/poster-gen/src/sampling.rs:47-61 | order is kept, and the place is unique |
| `Sampling.PosterTimestampsAvoidSkips` | crates/poster-gen/src/sampling.rs:1-83 | whatever is skipped, jittered timestamps come out in order, and all inside the video and outside every skip exactly when nothing is to be skipped or 2^-52 seconds are left |
| `Sampling.TooLittleTimeLeft` | crates/poster-gen/src/sampling.rs:50-56 | with less time left a timestamp falls into the skip |
| `TargetMatching.FindNearest` | crates/jfs-common/src/decoder.rs:388-395 | the nearest position within the tolerance, the earlier of two, none only if there is none |
| `TargetMatching.DecodeRange` | crates/jfs-common/src/decoder.rs:233-447 | the two loops compute the specified run, branch by branch |
| `TargetMatching.LastRequestCounts` | crates/jfs-common/src/decoder.rs:247-251 | a position is asked for exactly when some request names it, and carries the frame index of the last that does |
| `TargetMatching.ToleranceIsTwoFrames` | crates/jfs-common/src/decoder.rs:271-277 | the tolerance is twice the first whole number of milliseconds longer than a frame, 66 without a frame rate |
| `TargetMatching.EachTargetAtMostOnce` | crates/jfs-common/src/decoder.rs:351-444 | across both loops each target is sent at most once, with its own frame index, for a frame within two frame durations |
| `TargetMatching.FramesMatchTheirOwnTargets` | crates/jfs-common/src/decoder.rs:351-444 | where requested positions are far enough apart, their frames at most e off and no other frame in the window near one, each match is with the frame's own position, whatever the order, the losses and the stop |
| `TargetMatching.NeverMistakesIff` | crates/jfs-common/src/decoder.rs:386-398 | over all runs with frames of the video up to e off, requested or not, none is mistaken if and only if requested positions are far enough apart and no other position can come within the tolerance of one inside the window |
| `TargetMatching.NextFrameCanBeMistaken` | crates/jfs-common/src/decoder.rs:271-277 | a request that leaves out a position within the tolerance after one of its own can be answered with a wrong frame |
| `TargetMatching.OrderedRunsAreRight` | crates/jfs-common/src/decoder.rs:351-444 | where frames come in order, none requested is lost or early beyond the window and nothing fails, every position is sent with its own frame, whatever follows the last one |
| `TargetMatching.SingleRequestTakesTheFirstNear` | crates/jfs-common/src/decoder.rs:351-444 | a request for one position takes the first frame in the window within the tolerance, whichever it is |
| `TargetMatching.SingleRequestIsRightIff` | crates/frame-forge/src/server.rs:2345-2352 | in order, it is answered with its own frame exactly when that is in the window and within the tolerance, else with the first later frame near it, if any |
| `TargetMatching.EarlyFrameIsReplaced` | crates/jfs-common/src/decoder.rs:383-398 | a frame 1 ms early is skipped and the next one sent in its place |
| `TargetMatching.LostFrameIsReplaced` | crates/jfs-common/src/decoder.rs:386-398 | a lost frame is replaced by the next |
| `TargetMatching.OwnIsNearest` | crates/jfs-common/src/decoder.rs:386-398 | a frame finds its own position if that is within the tolerance, and none otherwise |
| `TargetMatching.EveryDecodedTargetIsSent` | crates/jfs-common/src/decoder.rs:351-444 | if moreover deviations are within the tolerance and nothing fails or is cancelled, every requested position whose frame is looked at in the window is sent with its index |
| `TargetMatching.LateFrameStealsANeighbour` | crates/jfs-common/src/decoder.rs:386-398 | at 25 frames a second a frame 21 ms late takes its neighbour, whose own frame then takes its place |
| `Dedup.BestBridge` | crates/frame-forge/src/server.rs:915-934 | the first of the run's frames that correlate best with the next anchor |
| `Dedup.DistanceCountsDifferingBits` | crates/frame-forge/src/server.rs:1031 | the distance of two hashes is the number of bits in which they differ |
| `Dedup.Deduplicate` | crates/frame-forge/src/server.rs:1022-1051 | keeps exactly the specified positions, in order |
| `Dedup.KeptIsASubsequence` | crates/frame-forge/src/server.rs:1022-1051 | kept frames are in order and include the first and the last |
| `Dedup.KeptIff` | crates/frame-forge/src/server.rs:1022-1051 | exactly the anchors, bridges and the last frame are kept; every frame is within six bits of the anchor in force and the next anchor is not |
| `Dedup.OneBridgePerRun` | crates/frame-forge/src/server.rs:1035-1041 | between two anchors that are not adjacent exactly one frame is kept |
| `Prefetch.NearestIn` | crates/frame-forge/src/server.rs:2264-2267 | the first of the misses nearest the anchor |
| `Prefetch.PrefetchRange` | crates/frame-forge/src/server.rs:2223-2412 | the full stream, or a prefix of its reports without the end mark when the peer leaves or the job is cancelled |
| `Prefetch.EachFrameOnce` | crates/frame-forge/src/server.rs:2223-2412 | every frame of the window is reported exactly once |
| `Prefetch.CountsAddUp` | crates/frame-forge/src/server.rs:2410-2411 | hits, decoded and failed add up to the window, and failed counts the failures reported |
| `Prefetch.FiltersKeepOrder` | crates/frame-forge/src/server.rs:2229-2259 | hits and misses keep the window's order |
| `Prefetch.NearestMissFirstIff` | crates/frame-forge/src/server.rs:2261-2268 | the first report is for the miss nearest the anchor if and only if the window is not empty and holds no hit |
| `Prefetch.AnchorFirstIff` | crates/frame-forge/src/server.rs:2261-2268 | it is for a frame at the anchor if and only if the first cached frame is there, or none is cached and some frame is |
| `Prefetch.CachedFrameComesBeforeTheAnchor` | crates/frame-forge/src/server.rs:2229-2268 | a window whose anchor is missing and not reported first |
| `Calendar.EpochToParts` | crates/frame-forge/src/generation_log.rs:112-120 | a valid date and time whose count of seconds is the input |
| `Calendar.DaysToYear` | crates/frame-forge/src/generation_log.rs:126-135 | takes whole years away until less than one is left, in at most one round for 365 days |
| `Calendar.DaysToMonth` | crates/frame-forge/src/generation_log.rs:137-146 | the month and day of a day of the year |
| `Calendar.ConversionIsTheInverse` | crates/frame-forge/src/generation_log.rs:112-120 | the answer is the only valid one, and later seconds are later in the calendar |
| `Calendar.CountFollowsTheClock` | crates/frame-forge/src/generation_log.rs:112-146 | the count is 0 at the start of 1970 and one more with every second the clock goes on, through months of 28 to 31 days and leap years |
| `Calendar.DaysBeforeYearInClosedForm` | crates/frame-forge/src/generation_log.rs:122-135 | the year loop counts Gregorian leap days |

## Left out

- FFmpeg, OpenCV, ONNX Runtime, WebP and sockets: foreign code; its answers are parameters.
- FFT, Hamming windows and all floating-point rounding: the correlation surface is arbitrary and arithmetic is exact.
- `estimate_homography`, `warp_image`, `displacement_filter`, `cylindrical_project`: geometry around OpenCV calls.
- `seam_mask` and `exposure_compensate`: the blend is proved for every mask and every pair of images, so for theirs too.
- Panorama.StitchAnime: frames smaller than the first, for which the source panics, are excluded by its precondition.
- Upscale.UpscaleImage: a model that predicts different sizes for different tiles is excluded; the source checks only the first. Overflow of `u32` sizes is not modelled.
- TileBlending.PixelIsMixed: places that the last tile, pulled back to the edge, shares with tiles less than a full step
  before it; there the pixel lies between the predictions (`MeanStaysWithin`).
- DiskCache.DiskCache.Write: the write-through of the index text after each call is not part of the state; `RestartAgrees` covers a restart from a text printed at any moment, not one from a text left over from before a failed write, and `RebuiltReadsNothing` a restart without one.
- DiskCache.DiskCache.Cleanup: removal of empty directories. Sorting is a parameter, any order by age.
- Item ids are taken to be single directory names.
- `list_cached`, the sweeps of older cache layouts and the debug dump: no state of the model depends on them.
- Scheduling of the broadcast: which subscribers wait forever is stated, not that the others are run in the end. A push and its own notification are one step.
- Broadcast.IndexFrames: what the codec parser makes of a packet is an input, and so is the conversion to milliseconds; the estimates for a stream without a time base are left out.
- Queue A of the frame-index stream: its messages are merged with the bridge's outside this model.
- The set of prefetch jobs in progress: no clean invariant holds of it.
- Failed allocation in `av_buffer_ref`.
- The random generator and seed parsing of `sampling.rs`, and parsing of skip segments: draws are arbitrary, and skips end after they start, as the parser guarantees.
- Prefetch.PrefetchRange: concurrency inside a batch, since handles are awaited in spawn order; writes to the two caches.
- `now_timestamp`: only the conversion to parts is modelled, not its text.
