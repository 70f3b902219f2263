# Vision pipeline of a ball-and-wall detecting robot

This project models the integer core of `ImageProcessing::processBalls` in
`src/vision/vision.cpp`. Each call of `processBalls` runs one cycle of the
vision pipeline:

- **Colour segmenter.** Two nested row/column loops go over the 640x480 BGR
  frame. They overwrite the single-channel ball mask (red pixels) and the
  single-channel wall mask (blue pixels) byte by byte, with 255 for a member
  and 0 otherwise.
- **Ball pass.** This pass walks the contours found in the ball mask and skips
  every contour of 20 points or fewer. For each other contour it copies the
  points and fits an ellipse. The fitted float sizes are truncated to
  integers, and if the eccentricity of the truncated sizes is below 0.1, the
  ellipse is drawn to the output. Otherwise the contour is drawn into the
  residue raster. A box whose truncated sizes are in the ratio 9:11 (9x11,
  18x22, ...; eccentricity exactly one tenth) goes to the residue, because the
  source compares a float with the double 0.1 and the float nearest one tenth
  is above it. A box of 8.15625 x 9.96875, exactly 9:11 before truncation,
  truncates to 8 x 9 and goes to the output. A Hough circle transform of the
  residue then gives one circle per result.
- **Wall pass.** This pass draws every wall-mask contour of at least 50 points
  into a raster. A probabilistic Hough line transform of that raster then gives
  one line per result.
- **Eccentricity.** The eccentricity of a fitted box is `|h - w| / (h + w)`,
  taken of its width and height truncated toward zero to integers.

Modules:

- `Segmentation` (segmentation.dfy) holds the frame layout, the colour
  constants, the per-pixel rules and the two masks as functions of the frame.
  It also holds a general colour-class rule that the masks are proved to
  follow.
- `Classification` (classification.dfy) holds eccentricity, the routing of a
  ball contour, the ball pass and the wall pass. Each pass appears twice: as a
  specification function and as the loop that computes it.
- `Vision` (vision.dfy) holds the class `ImageProcessing`. Its fields are the
  two mask arrays, which its segmentation methods fill in place. The module
  also holds the Hough emission loops, the whole cycle `ProcessBalls`, and
  `Tick`, the cycle's result as a function of the frame.

The foreign calls are the fields of a `Geometry` value passed to
`ProcessBalls`: `cvSmooth`, `cvFindContours`, `cvFitEllipse2`, `cvHoughCircles`
and `cvHoughLines2`. The 7x7 blur `cvSmooth` writes into the frame itself
(src/vision/vision.cpp:115), so `ProcessBalls` stores the blurred frame back
into the frame buffer before segmenting it. The residue and wall rasters are represented by the sequence
of contours drawn into them. Each raster is cleared before its pass
(`cvZero`, src/vision/vision.cpp:247 and 294), so the sequence starts empty.
`cvFindContours` rewrites the mask it scans (src/vision/vision.cpp:241 and 289),
so the finder's result also carries the image it leaves behind, and
`ProcessBalls` stores that image back into the mask.

The colour constants are those of src/vision/vision.cpp:15-18: the ball
(red) class has a disparity of 100 and a threshold of 60, and the wall (blue)
class a disparity of 25 and a threshold of 10. With these constants the two
classes are mutually exclusive, since red ≥ blue + 100 and blue ≥ red + 25
cannot both hold; `Segmentation.MasksDisjoint` proves this.

The pixel loops read `frame->imageData`, but they compute the index from the
layout of `normalized` (src/vision/vision.cpp:203-204). Both images are
640x480 with 3 channels of 8 bits, so the model uses one row-major layout:
`3 * (i * 640 + j)` for the frame and `i * 640 + j` for a mask.

## Model

| member | source | states |
|---|---|---|
| `Segmentation.BallMask` | src/vision/vision.cpp:198-216 | the ball mask has one byte per pixel (640x480), and every byte is 255 or 0 |
| `Segmentation.WallMask` | src/vision/vision.cpp:217-235 | the wall mask has one byte per pixel (640x480), and every byte is 255 or 0 |
| `Segmentation.MasksFollowColorClasses` | src/vision/vision.cpp:205-233 | a ball-mask pixel is 255 iff red ≥ blue+100, red ≥ green+100 and red ≥ 60, and 0 otherwise; a wall-mask pixel is 255 iff blue ≥ red+25, blue ≥ green+25 and blue ≥ 10, and 0 otherwise; both are stated through the general rule "the dominant channel beats every other channel by the disparity and reaches the threshold" |
| `Segmentation.MasksDisjoint` | src/vision/vision.cpp:205-226 | no pixel is 255 in both masks |
| `Segmentation.NoRedGivesBlankBallMask` | src/vision/vision.cpp:198-216 | a frame in which no pixel passes the red test gives an all-zero ball mask |
| `Vision.ImageProcessing.constructor` | src/vision/vision.cpp:82-83 | allocates two distinct fresh 640x480 single-channel masks |
| `Vision.ImageProcessing.FilterBalls` | src/vision/vision.cpp:198-216 | after the loop, every one of the 640x480 ball-mask bytes equals the ball rule applied to its pixel; the frame and the wall mask are unchanged |
| `Vision.ImageProcessing.FilterWalls` | src/vision/vision.cpp:217-235 | after the loop, every one of the 640x480 wall-mask bytes equals the wall rule applied to its pixel; the frame and the ball mask are unchanged |
| `Classification.Eccentricity` | src/vision/vision.cpp:24-29 | the eccentricity is never negative; it is 0 exactly when w = h; it is below 1 when both sides are positive |
| `Classification.EccentricitySymmetric` | src/vision/vision.cpp:24-29 | swapping width and height leaves the eccentricity unchanged |
| `Classification.EccentricityOfSquare` | src/vision/vision.cpp:24-29 | a square box has eccentricity 0 |
| `Classification.EccentricityBelowThreshold` | src/vision/vision.cpp:263 | the routing test (the source's float eccentricity ≤ 0.1, strict on exact ratios) holds exactly when 10·\|h − w\| < \|h + w\| |
| `Classification.TenthRatioIsNotRound` | src/vision/vision.cpp:263 | a 9 by 11 box has eccentricity exactly one tenth and is not routed to the ellipse output |
| `Classification.TruncationDecidesRoundness` | src/vision/vision.cpp:263 | the test is taken on the truncated sizes: an 8.15625 by 9.96875 box, exactly 9:11, truncates to 8 by 9 and is routed to the ellipse output |
| `Classification.TruncateToInt` | src/vision/vision.cpp:263 | the float-to-int conversion of the fitted sizes truncates toward zero: the result is the integer closest to the value on the side of zero |
| `Classification.RouteOfCharacterized` | src/vision/vision.cpp:253-272 | a contour is skipped iff it has ≤ 20 points; it goes to the ellipse output iff it has > 20 points, its truncated sizes do not sum to 0 and 10·\|h − w\| < \|h + w\|; it goes to the residue iff it has > 20 points and its sizes sum to 0 or 10·\|h − w\| ≥ \|h + w\| |
| `Classification.BallPassPartition` | src/vision/vision.cpp:250-273 | the ellipse output is the fit of exactly the round contours with > 20 points, in list order; the residue is exactly the other contours with > 20 points, in list order |
| `Classification.RoutesCoverList` | src/vision/vision.cpp:250-273 | the skipped, ellipse and residue contours together number exactly the contours of the list |
| `Classification.RoutedMembers` | src/vision/vision.cpp:250-273 | a contour is in a route's list iff it is in the input and has that route |
| `Classification.BallResidueContents` | src/vision/vision.cpp:253-272 | no contour of ≤ 20 points reaches the residue; a contour is in the residue iff it has > 20 points and fails the eccentricity test |
| `Classification.BallEllipseContents` | src/vision/vision.cpp:253-267 | the fit of every contour with > 20 points that passes the eccentricity test is in the ellipse output; every output ellipse passes the test and is the fit of such a contour |
| `Classification.BallPassCount` | src/vision/vision.cpp:250-273 | ellipses plus residue number exactly the contours with > 20 points: each such contour lands in one place |
| `Classification.FitOnlyOnLongContours` | src/vision/vision.cpp:253-262 | the ellipse fit is never consulted on a contour of ≤ 20 points: two fits that agree on the longer contours give the same ball pass |
| `Classification.RouteBallContours` | src/vision/vision.cpp:250-273 | the loop over the contour list, with its inner point-copy loop, produces exactly the ball pass of the list |
| `Classification.WallPassMembers` | src/vision/vision.cpp:296-302 | a wall contour is drawn iff it has at least 50 points; nothing else is drawn |
| `Classification.DrawWallContours` | src/vision/vision.cpp:296-302 | the loop over the wall contour list draws exactly the wall pass of the list |
| `Vision.Round` | src/vision/vision.cpp:283-284 | rounding gives the integer within one half of the value |
| `Vision.EmitCircles` | src/vision/vision.cpp:280-285 | one circle detection per Hough circle, in order, with center and radius rounded |
| `Vision.EmitLines` | src/vision/vision.cpp:308-312 | the wall lines drawn are exactly the Hough segments, one per segment, in order, with the same end points |
| `Vision.ImageProcessing.ProcessBalls` | src/vision/vision.cpp:111-319 | one cycle replaces the frame by its blur, leaves each mask holding what the contour finder left in it after scanning that mask's colour rule applied to the blurred frame, and returns the detections `Tick` of the blurred frame |
| `Vision.TickDetections` | src/vision/vision.cpp:240-312 | the ball detections are as many as the routed ellipses plus the Hough circles; every ellipse detection is round and comes from a contour of > 20 points; the wall lines are as many as the Hough lines |
| `Vision.NoRedNoBalls` | src/vision/vision.cpp:198-285 | a blurred frame (after `cvSmooth`) with no red pixel gives no ball detection, if the contour finder finds nothing in a blank mask and the circle transform finds nothing in an empty residue |

## Left out

- The capture thread `frameCaptureThread`, `killReceived`, `pthread_create` and `pthread_join` are not modelled (src/vision/vision.cpp:31-48, 102, 105-109). They are concurrency on an unsynchronised shared frame pointer. The frame is a parameter of `ProcessBalls`.
- The OpenCV primitives `cvSmooth`, `cvCvtColor`, `cvFindContours`, `cvFitEllipse2`, `cvHoughCircles` and `cvHoughLines2` are foreign calls. `cvCvtColor` feeds only the HSV round trip (see below). The other calls are fields of `Geometry`, and their fixed parameters (blur kernel 7x7; dp 3, minimum distance 5, thresholds 10 and 50; resolution 3, π/180, threshold 50, length 50, gap 10) are not modelled.
- The drawing calls `cvEllipse`, `cvDrawContours`, `cvCircle` and `cvLine` are not modelled. Each raster is the sequence of items drawn into it: ellipses as fitted boxes, residue and wall rasters as contours, and circles and lines as detections.
- The HSV round trip and its loop (src/vision/vision.cpp:173-184) are not modelled. The loop body is empty, and the segmentation loops read the frame and not `normalized`.
- The display, key-wait and logging calls (`cvNamedWindow`, `cvShowImage`, `cvWaitKey`, `cout`) are not modelled. They are UI side effects.
- The commented-out frame-averaging and pyramid-blur blocks are not modelled. They are disabled code and use floats.
- The `extern "C"` factory (src/vision/vision.cpp:322-329) is not modelled. It is a foreign-interface shim.
- The Python files `src/arduino/__init__.py` (process/pipe IPC around a hardware library) and `src/input/__init__.py` (sensor forwarding) are not part of this model.
- Classification.Eccentricity: computed over exact reals, which idealises float rounding. `abs` is read as the floating-point absolute value. It requires w + h ≠ 0 because the source does not guard the division; `IsRound` models what the source does when the sum is zero.
- Classification.IsRound: compares the exact eccentricity strictly with the exact 0.1, while the source compares a float quotient with the double 0.1 using ≤. The two agree on every ratio that is exactly one tenth (the float nearest it is above the double) and on ratios clear of one tenth; a ratio within float rounding of one tenth but not equal to it, or a sum of sizes of 2^24 or more, may be routed differently.
- The fitted box (`Classification.Box`) has exact real sizes, not 32-bit floats.
- Vision.Round: rounds halves upward, while `cvRound` rounds halves to even. The two agree except on exact halves.
- Vision.ImageProcessing.ProcessBalls: what the contour finder leaves in the mask it scans is a field of the finder's result, not computed. The other class buffers (`hsvImage`, `normalized`, `contourImage`, `contourImage3C`, `ellipseImage`, `lineImage`) and the memory storages are represented only by the detection sequences. Aliasing of the storages between the passes is not modelled. The three storages `contourStorage`, `houghStorage` and `pointStorage` (src/vision/vision.cpp:90-92) are never cleared, so they grow every cycle (`pointStorage` by one sequence per ball contour, src/vision/vision.cpp:252, skipped contours included); the model treats each cycle as starting from empty storages and does not capture that growth or its exhaustion.
