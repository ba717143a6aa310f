# Heuristic emergency-video classifier, modelled in Dafny

The application lets a user upload a short video of an emergency. It samples
at most fifteen evenly spaced frames. For each frame it computes the average
blue, green and red values, the brightness and the grayscale change against
the previously sampled frame, and it counts the frames that look like water,
fire, darkness or motion. An ordered chain of thresholds then maps the four
counts to one situation (flood, fire, earthquake, power outage, accident or
general) with a confidence of High or Medium. This project models that core,
in `app_fixed.py` lines 40-41 and 54-140, and proves its properties.

Modules:

- `Wrappers` (`wrappers.dfy`): the `Option` type returned by a frame read.
- `Frames` (`frames.dfy`): a decoded frame reduced to its three channel
  averages (reals in [0, 255]) and its grayscale image. The image has a
  height and a width of at least 1 and one pixel in [0, 255] per cell.
  It defines brightness, the blue and red ratios, and the water, fire and
  dark indicators as exact comparisons over reals. Motion is the mean of
  `absdiff` over two grayscale images of the same shape.
- `Sampling` (`sampling.dfy`): the stride `max(1, total // 15)`, Python's
  `range(0, total, stride)`, a video as a reported frame count plus a read
  function, and `Sampled`: the frames read in order, at most fifteen, up to
  the first failed read.
- `Decision` (`decision.dfy`): the tallies, the if/elif chain `Classify`, and
  its priority order.
- `Analysis` (`analysis.dfy`):
  - `Tally`, the frame-by-frame pass as a fold;
  - `Count` and `Motions`, independent counting definitions of the same tallies;
  - `ScanVideo`, the imperative sampling-and-counting loop, proved equal to
    `Tally(Sampled(v))`;
  - `AnalyzeVideo` and `Assess`, the whole analysis with its general/Medium
    default;
  - end-to-end lemmas.

Two places where the model follows the code rather than what a reader might expect:

- A video with no analysed frames is classified general/Medium. The code
  does not report "analysis unavailable".
- `IsBrownMuddy` is the code's condition: blue and green both above red.
  This is a low-red reading, whatever the variable's name suggests.

The only exception the model covers is the one `cv2.absdiff` raises on two
grayscale images of different shapes: a different height or width, even with
the same number of pixels. It ends the pass, and the result keeps its
general/Medium default (lines 138-140).

## Model

| member | source | states |
|---|---|---|
| `Frames.BlueRatio` | app_fixed.py:85 | the blue ratio lies in [0, 1): the `+ 1` keeps the divisor above the channel sum |
| `Frames.RedRatio` | app_fixed.py:92 | the red ratio lies in [0, 1) for the same reason |
| `Frames.WaterWithoutDivision` | app_fixed.py:84-89 | a frame counts as water iff blue and green exceed red, or 3·blue > 2·(green + red + 1), or the channel sum exceeds 300 and 7·blue > 3·(green + red + 1) |
| `Frames.FireWithoutDivision` | app_fixed.py:92-94 | a frame counts as fire iff 3·red > 2·(blue + green + 1) and the channel sum exceeds 210 |
| `Frames.DarkExcludesFire` | app_fixed.py:92-98 | no frame is both dark and fire |
| `Frames.FireIsNotMuddy` | app_fixed.py:84-94 | in a fire frame red is not at or below both other channels, so the muddy test fails, and red exceeds 84 |
| `Frames.PixelDiff` | app_fixed.py:102 | the per-pixel absolute difference of two 8-bit values is at most 255 |
| `Frames.SumAbsDiff` | app_fixed.py:102-103 | the summed absolute change of two equal-length pixel sequences is at most 255 per pixel |
| `Frames.SameShapeSameSize` | app_fixed.py:101-103 | two grayscale images of the same shape have the same, non-zero, number of pixels, so absdiff and its mean are defined |
| `Frames.MotionLevel` | app_fixed.py:102-103 | the mean absolute grayscale change of two same-shape images lies in [0, 255] |
| `Frames.MotionIsSymmetric` | app_fixed.py:101-105 | the motion indicator does not depend on the order of the two frames |
| `Frames.StillFrameHasNoMotion` | app_fixed.py:101-105 | a frame compared with an identical image never counts as motion |
| `Frames.MotionNeedsChangedPixel` | app_fixed.py:101-105 | motion is counted only when some pixel changed by more than 25 |
| `Sampling.Stride` | app_fixed.py:64 | the stride is at least 1, is 1 below 30 frames, and otherwise is the floor of total / 15 |
| `Sampling.RangeAt` | app_fixed.py:66 | the k-th candidate index is start + k·step, and it exists iff that value is below the stop |
| `Sampling.RangeStep` | app_fixed.py:66 | consecutive candidate indices are one stride apart, and the range ends at the first one past the stop |
| `Sampling.RangeIncreasing` | app_fixed.py:66 | a range lies in [start, stop) and is strictly increasing |
| `Sampling.SampleIndicesCount` | app_fixed.py:63-66 | no candidates for a non-positive count; otherwise between min(total, 15) and total of them |
| `Sampling.SampleIndicesShape` | app_fixed.py:63-66 | the candidates are 0, s, 2s, … for stride s, all in [0, total), strictly increasing, so no frame is read twice |
| `Sampling.ReadUntilFailure` | app_fixed.py:66-73 | sampling yields no more frames than the budget or the candidate indices |
| `Sampling.ReadUntilFailureStops` | app_fixed.py:66-73 | each sampled frame is the successful read at its index; a short result means the next read failed |
| `Sampling.SampledFrames` | app_fixed.py:62-73 | at most 15 frames; the k-th was read at k·stride < total; when sampling stopped early the read at the next candidate failed |
| `Sampling.EmptyVideoIsNotSampled` | app_fixed.py:63-66 | a video reporting no frames is never read |
| `Sampling.FailedReadEndsSampling` | app_fixed.py:70-73 | a failed read at the j-th candidate leaves at most j frames |
| `Sampling.AllReadsSucceed` | app_fixed.py:63-68 | if every read succeeds, min(total, 15) frames are analysed (none for a non-positive total) |
| `Decision.Classify` | app_fixed.py:113-136 | confidence is High iff the situation is flood or fire; the result is general/Medium iff no threshold is reached |
| `Decision.FirstMatchWins` | app_fixed.py:114-136 | the chosen situation's counter reaches its threshold and no higher-priority rule's counter does |
| `Decision.ClassifyMonotone` | app_fixed.py:114-136 | raising any counters never moves the result later in the priority order |
| `Decision.ClassifyExamples` | app_fixed.py:114-136 | water 6 with fire 5 gives flood/High; water 4 gives general and water 5 gives flood; motion 9 gives earthquake; dark 10 with motion 5 gives power_outage |
| `Analysis.MismatchPersists` | app_fixed.py:101-103 | once absdiff has raised, later frames do not change the outcome |
| `Analysis.TallyCounts` | app_fixed.py:75-108 | the pass completes iff consecutive grayscale images have the same height and width; each counter is then the number of frames (for motion, consecutive pairs) meeting its indicator |
| `Analysis.ShapeChangeRaises` | app_fixed.py:101-103 | two consecutive images of different height or width make the pass raise at the second, even when their pixel counts agree |
| `Analysis.TallyMismatchAt` | app_fixed.py:101-102 | a raising pass names the first frame whose image shape differs from its predecessor's |
| `Analysis.DarkAndFireShareFrames` | app_fixed.py:92-98 | the dark and fire counts together never exceed the number of frames |
| `Analysis.TallyBounds` | app_fixed.py:89-108 | the pass counts every frame; each counter is at most the frame count; motion is at most frames − 1 |
| `Analysis.CountFrame` | app_fixed.py:75-108 | the per-frame checks raise exactly when the image's shape differs from the previous one; otherwise they produce the next tallies of the pass |
| `Analysis.ScanVideo` | app_fixed.py:54-108 | the loop's outcome is the pass over the sampled frames; a completed scan has at most 15 frames and every counter within its bound |
| `Analysis.AnalyzeVideo` | app_fixed.py:40-140 | the analysis returns the classification of the scan, or general/Medium when the scan raised; High exactly for flood and fire |
| `Analysis.SampledTallyBounds` | app_fixed.py:62-108 | a completed scan counts at most 15 frames, and dark plus fire is at most 15 |
| `Analysis.EmptyVideoIsGeneral` | app_fixed.py:40-66 | a video reporting no frames leaves every counter at 0 and yields general/Medium |
| `Analysis.MinimumEvidence` | app_fixed.py:89-133 | flood needs 5 analysed frames, fire 4, earthquake 9, power_outage 10, accident 5 |
| `Analysis.FewFramesAreGeneral` | app_fixed.py:89-136 | fewer than 4 analysed frames always yield general/Medium |
| `Analysis.ShortVideoIsGeneral` | app_fixed.py:63-136 | a video reporting fewer than 4 frames yields general/Medium |
| `Analysis.WaterFramesGiveFlood` | app_fixed.py:84-116 | five water frames in a pass where every image has its predecessor's shape give flood/High whatever the other counts |
| `Analysis.ThirtyFrameVideo` | app_fixed.py:63-68 | a 30-frame video is sampled at 0, 2, …, 28: fifteen frames when every read succeeds |

## Left out

- The Streamlit interface: the sidebar, widgets, spinner, success, warning
  and info messages, and the displayed counts. This is presentation.
- Saving the upload to a temporary file, `os.unlink`, `cap.release` and
  `time.sleep` (lines 34-35, 49-52 and 110-111). These are I/O.
- Decoding, seeking, `cvtColor` and `np.mean` over the colour planes. These
  are OpenCV and NumPy calls. Their results are inputs to the model: the
  video's read function, each frame's channel averages and its grayscale image.
- Floating point. Averages, ratios and the motion mean are exact reals, so
  rounding near a threshold is not modelled.
- NaN means. A successful read never yields an empty image, so every frame
  in the model has at least one pixel and no mean is NaN.
- Any exception other than the `absdiff` shape mismatch: a failing import, a
  failing temporary-file write, or a decoder error raised rather than
  reported. The catch-all on lines 138-140 is modelled only for the mismatch.
- The conversion `int(cap.get(...))` of the reported frame count. The model
  takes the count as an integer.
- The situation-specific guidance, resource, location and priority texts
  (lines 143-238), the static bilingual content, the emergency contacts and
  the first-aid lookup. These are static text.
- `app.py`, which has no classification logic.
