/**
 * The analysis pass of the video classifier (app_fixed.py, lines 40-41 and
 * 54-140): sample frames, tally the four indicators frame by frame, and map
 * the tallies to a situation. An exception inside the pass leaves the
 * default result in place.
 */
module Analysis {
  import opened Wrappers
  import opened Frames
  import opened Sampling
  import opened Decision

  /**
   * How the frame-by-frame pass ends: with its tallies, or with the error
   * cv2.absdiff raises when the analysed frame at position `at` (in sampling
   * order) differs in height or width from the one before it.
   */
  datatype ScanOutcome = Completed(counts: Counts) | ShapeMismatch(at: nat)

  const NoCounts := Counts(0, 0, 0, 0, 0)

  function Indicator(b: bool): nat {
    if b then 1 else 0
  }

  /** The grayscale image the loop keeps from the last analysed frame, if any. */
  function LastGray(frames: seq<Frame>): Option<Gray> {
    if frames == [] then None else Some(frames[|frames| - 1].gray)
  }

  /**
   * The indicator checks for one frame, given the tallies so far and the
   * previous grayscale image: absdiff raises on images of different shapes;
   * otherwise each counter whose indicator holds goes up by one.
   */
  function CountStep(c: Counts, prevGray: Option<Gray>, f: Frame): ScanOutcome {
    if prevGray.Some? && !SameShape(prevGray.value, f.gray) then ShapeMismatch(c.frames)
    else Completed(Counts(
      c.frames + 1,
      c.water + Indicator(IsWater(f)),
      c.fire + Indicator(IsFire(f)),
      c.dark + Indicator(IsDark(f)),
      c.motion + Indicator(prevGray.Some? && HasMotion(prevGray.value, f.gray))))
  }

  /**
   * The pass over a sequence of analysed frames, one frame at a time in
   * sampling order, as the loop performs it; the first exception ends it.
   */
  function Tally(frames: seq<Frame>): ScanOutcome
  {
    if frames == [] then Completed(NoCounts)
    else
      var n := |frames| - 1;
      match Tally(frames[..n])
      case ShapeMismatch(at) => ShapeMismatch(at)
      case Completed(c) => CountStep(c, LastGray(frames[..n]), frames[n])
  }

  /** The number of frames that satisfy an indicator. */
  function Count(frames: seq<Frame>, p: Frame -> bool): nat {
    if frames == [] then 0 else Indicator(p(frames[0])) + Count(frames[1..], p)
  }

  /** Every analysed frame has the height and width of the one before it. */
  predicate ShapesAgree(frames: seq<Frame>) {
    forall k :: 0 < k < |frames| ==> SameShape(frames[k - 1].gray, frames[k].gray)
  }

  /** The number of consecutive pairs of frames that show motion. */
  function Motions(frames: seq<Frame>): nat
    requires ShapesAgree(frames)
  {
    if |frames| < 2 then 0
    else Indicator(HasMotion(frames[0].gray, frames[1].gray)) + Motions(frames[1..])
  }

  lemma {:induction false} CountAppend(frames: seq<Frame>, f: Frame, p: Frame -> bool)
    ensures Count(frames + [f], p) == Count(frames, p) + Indicator(p(f))
  {
    if frames != [] {
      assert (frames + [f])[1..] == frames[1..] + [f];
      CountAppend(frames[1..], f, p);
    }
  }

  lemma ShapesAgreeAppend(frames: seq<Frame>, f: Frame)
    ensures ShapesAgree(frames + [f]) <==>
      ShapesAgree(frames) && (frames == [] || SameShape(frames[|frames| - 1].gray, f.gray))
  {
    assert forall k :: 0 <= k < |frames| ==> (frames + [f])[k] == frames[k];
    assert (frames + [f])[|frames|] == f;
  }

  lemma {:induction false} MotionsAppend(frames: seq<Frame>, f: Frame)
    requires frames != [] && ShapesAgree(frames + [f])
    ensures ShapesAgree(frames) && SameShape(frames[|frames| - 1].gray, f.gray)
    ensures Motions(frames + [f]) == Motions(frames) + Indicator(HasMotion(frames[|frames| - 1].gray, f.gray))
  {
    ShapesAgreeAppend(frames, f);
    if |frames| >= 2 {
      assert (frames + [f])[1..] == frames[1..] + [f];
      MotionsAppend(frames[1..], f);
    }
  }

  /** One step of the pass: the tallies after one more frame. */
  lemma TallyAppend(frames: seq<Frame>, f: Frame)
    ensures Tally(frames).Completed? ==>
      Tally(frames + [f]) == CountStep(Tally(frames).counts, LastGray(frames), f)
  {
    assert (frames + [f])[..|frames|] == frames;
  }

  /** Once a pass has raised, analysing further frames does not change that. */
  lemma {:induction false} MismatchPersists(frames: seq<Frame>, more: seq<Frame>)
    requires Tally(frames).ShapeMismatch?
    ensures Tally(frames + more) == Tally(frames)
    decreases |more|
  {
    if more != [] {
      var m := |more| - 1;
      assert frames + more == (frames + more[..m]) + [more[m]];
      MismatchPersists(frames, more[..m]);
      assert (frames + more)[..|frames + more| - 1] == frames + more[..m];
    } else {
      assert frames + more == frames;
    }
  }

  /**
   * The loop's tallies agree with counting each indicator over the whole
   * sequence: the pass completes exactly when all consecutive frames have
   * the same shape, and then each counter is the number of frames (or, for
   * motion, of consecutive pairs) that satisfy its indicator.
   */
  lemma {:induction false} TallyCounts(frames: seq<Frame>)
    ensures Tally(frames).Completed? <==> ShapesAgree(frames)
    ensures Tally(frames).Completed? ==> Tally(frames).counts == Counts(|frames|,
      Count(frames, IsWater), Count(frames, IsFire), Count(frames, IsDark), Motions(frames))
  {
    if frames != [] {
      var n := |frames| - 1;
      var prefix, f := frames[..n], frames[n];
      assert frames == prefix + [f];
      TallyCounts(prefix);
      ShapesAgreeAppend(prefix, f);
      if Tally(prefix).ShapeMismatch? {
        MismatchPersists(prefix, [f]);
      } else {
        TallyAppend(prefix, f);
        if n == 0 || SameShape(prefix[n - 1].gray, f.gray) {
          CountAppend(prefix, f, IsWater);
          CountAppend(prefix, f, IsFire);
          CountAppend(prefix, f, IsDark);
          if n > 0 {
            MotionsAppend(prefix, f);
          }
        }
      }
    }
  }

  /**
   * A pass that raises names the first analysed frame whose shape differs
   * from the one before it.
   */
  lemma {:induction false} TallyMismatchAt(frames: seq<Frame>)
    requires Tally(frames).ShapeMismatch?
    ensures var at := Tally(frames).at;
      0 < at < |frames| && !SameShape(frames[at - 1].gray, frames[at].gray) && ShapesAgree(frames[..at])
  {
    var n := |frames| - 1;
    var prefix, f := frames[..n], frames[n];
    assert frames == prefix + [f];
    if Tally(prefix).ShapeMismatch? {
      TallyMismatchAt(prefix);
      MismatchPersists(prefix, [f]);
      var at := Tally(prefix).at;
      assert frames[..at] == prefix[..at];
      assert frames[at - 1] == prefix[at - 1] && frames[at] == prefix[at];
    } else {
      TallyCounts(prefix);
      TallyAppend(prefix, f);
      assert frames[..n] == prefix;
    }
  }

  /**
   * Two consecutive frames whose grayscale images differ in height or width
   * make the pass raise at the second one, even when both images hold the
   * same number of pixels (a 2x3 frame followed by a 3x2 one, say).
   */
  lemma ShapeChangeRaises(f: Frame, g: Frame)
    requires !SameShape(f.gray, g.gray)
    ensures Tally([f, g]) == ShapeMismatch(1)
  {
    assert [f][..0] == [];
    assert Tally([f]).Completed? && Tally([f]).counts.frames == 1;
    TallyAppend([f], g);
    assert [f] + [g] == [f, g];
  }

  lemma {:induction false} CountAtMost(frames: seq<Frame>, p: Frame -> bool)
    ensures Count(frames, p) <= |frames|
  {
    if frames != [] {
      CountAtMost(frames[1..], p);
    }
  }

  lemma {:induction false} MotionsAtMost(frames: seq<Frame>)
    requires ShapesAgree(frames)
    ensures Motions(frames) <= |frames| - 1 || frames == []
  {
    if |frames| >= 2 {
      MotionsAtMost(frames[1..]);
    }
  }

  /** No frame is both dark and fiery, so the two counts share the frames between them. */
  lemma {:induction false} DarkAndFireShareFrames(frames: seq<Frame>)
    ensures Count(frames, IsDark) + Count(frames, IsFire) <= |frames|
  {
    if frames != [] {
      DarkExcludesFire(frames[0]);
      DarkAndFireShareFrames(frames[1..]);
    }
  }

  /**
   * Bounds on a completed pass: it counts every frame, each counter is at
   * most the frame count, motion misses the first frame, and dark and fire
   * never count the same frame.
   */
  lemma {:induction false} TallyBounds(frames: seq<Frame>)
    requires Tally(frames).Completed?
    ensures Tally(frames).counts.frames == |frames|
    ensures Tally(frames).counts.water <= |frames|
    ensures Tally(frames).counts.fire <= |frames|
    ensures Tally(frames).counts.dark <= |frames|
    ensures Tally(frames).counts.motion <= |frames| - 1 || frames == []
    ensures Tally(frames).counts.dark + Tally(frames).counts.fire <= |frames|
  {
    TallyCounts(frames);
    CountAtMost(frames, IsWater);
    DarkAndFireShareFrames(frames);
    MotionsAtMost(frames);
  }

  /** One more read by the sampler, or the end of sampling, from candidate position k on. */
  lemma ReadStep(read: int -> Option<Frame>, indices: seq<int>, k: nat, budget: nat)
    requires k <= |indices|
    ensures k == |indices| || budget == 0 || read(indices[k]).None? ==>
      ReadUntilFailure(read, indices[k..], budget) == []
    ensures k < |indices| && budget > 0 && read(indices[k]).Some? ==>
      ReadUntilFailure(read, indices[k..], budget) ==
        [read(indices[k]).value] + ReadUntilFailure(read, indices[k + 1..], budget - 1)
  {
    if k < |indices| {
      assert indices[k..][0] == indices[k];
      assert indices[k..][1..] == indices[k + 1..];
    }
  }

  /**
   * The indicator checks for one analysed frame (app_fixed.py, lines 75-108):
   * each counter whose indicator holds goes up by one, the motion check
   * against the previous grayscale image raises when the shapes differ, and
   * the frame count goes up by one.
   */
  method CountFrame(f: Frame, prevGray: Option<Gray>,
                    frameCount: nat, water: nat, fire: nat, dark: nat, motion: nat)
    returns (raised: bool, frameCount': nat, water': nat, fire': nat, dark': nat, motion': nat)
    ensures raised <==> prevGray.Some? && !SameShape(prevGray.value, f.gray)
    ensures raised ==> frameCount' == frameCount
    ensures !raised ==>
      CountStep(Counts(frameCount, water, fire, dark, motion), prevGray, f) ==
      Completed(Counts(frameCount', water', fire', dark', motion'))
  {
    frameCount', water', fire', dark', motion' := frameCount, water, fire, dark, motion;
    raised := false;
    if IsWater(f) {
      water' := water' + 1;
    }
    if IsFire(f) {
      fire' := fire' + 1;
    }
    if IsDark(f) {
      dark' := dark' + 1;
    }
    if prevGray.Some? {
      if !SameShape(prevGray.value, f.gray) {
        raised := true;
        return;
      }
      if HasMotion(prevGray.value, f.gray) {
        motion' := motion' + 1;
      }
    }
    frameCount' := frameCount' + 1;
  }

  /**
   * The sampling and counting loop of app_fixed.py. It walks the candidate
   * indices 0, stride, 2 * stride, ..., stops after fifteen frames or at the
   * first failed read, and raises when a frame's shape differs from the one
   * before it.
   */
  method ScanVideo(v: Video) returns (outcome: ScanOutcome)
    ensures outcome == Tally(Sampled(v))
    ensures outcome.Completed? ==>
      var c := outcome.counts;
      c.frames <= MaxSamples && c.water <= c.frames && c.fire <= c.frames && c.dark <= c.frames
      && (c.frames == 0 || c.motion <= c.frames - 1)
  {
    var total := v.reportedFrames;
    var stride := Stride(total);
    ghost var indices := SampleIndices(total);
    ghost var frames: seq<Frame> := [];
    ghost var rest := Sampled(v);
    assert indices[0..] == indices;
    var frameCount, waterFrames, fireFrames, darkFrames, motionFrames := 0, 0, 0, 0, 0;
    var prevGray: Option<Gray> := None;
    var i := 0;
    while i < total
      invariant 0 <= frameCount <= MaxSamples
      invariant frameCount < |indices| <==> i < total
      invariant frameCount < |indices| ==> indices[frameCount] == i
      invariant |frames| == frameCount <= |indices|
      invariant rest == ReadUntilFailure(v.read, indices[frameCount..], MaxSamples - frameCount)
      invariant Sampled(v) == frames + rest
      invariant Tally(frames) == Completed(Counts(frameCount, waterFrames, fireFrames, darkFrames, motionFrames))
      invariant prevGray == LastGray(frames)
      decreases total - i
    {
      ReadStep(v.read, indices, frameCount, MaxSamples - frameCount);
      if frameCount >= MaxSamples {
        break;
      }
      var frame := v.read(i);
      if frame.None? {
        break;
      }
      var f := frame.value;
      ghost var rest' := ReadUntilFailure(v.read, indices[frameCount + 1..], MaxSamples - frameCount - 1);
      assert rest == [f] + rest';
      assert Sampled(v) == (frames + [f]) + rest';
      TallyAppend(frames, f);
      var raised;
      raised, frameCount, waterFrames, fireFrames, darkFrames, motionFrames :=
        CountFrame(f, prevGray, frameCount, waterFrames, fireFrames, darkFrames, motionFrames);
      if raised {
        MismatchPersists(frames + [f], rest');
        return ShapeMismatch(frameCount);
      }
      RangeStep(0, total, stride, |frames|);
      prevGray := Some(f.gray);
      frames, rest := frames + [f], rest';
      i := i + stride;
    }
    ReadStep(v.read, indices, frameCount, MaxSamples - frameCount);
    assert rest == [];
    assert Sampled(v) == frames;
    TallyBounds(frames);
    outcome := Completed(Counts(frameCount, waterFrames, fireFrames, darkFrames, motionFrames));
  }

  /** The whole analysis: the default result unless the pass completes, then the decision rule. */
  function Assess(v: Video): Detection {
    match Tally(Sampled(v))
    case Completed(c) => Classify(c)
    case ShapeMismatch(_) => Default
  }

  /**
   * The analysis as the source runs it: start from general/Medium, scan,
   * and classify the tallies if the scan did not raise.
   */
  method AnalyzeVideo(v: Video) returns (d: Detection)
    ensures d == Assess(v)
    ensures d.confidence == High <==> d.situation == Flood || d.situation == Fire
  {
    d := Default;
    var outcome := ScanVideo(v);
    if outcome.Completed? {
      d := Classify(outcome.counts);
    }
  }

  /** A completed pass over the analysed frames obeys the counter bounds with at most fifteen frames. */
  lemma SampledTallyBounds(v: Video)
    requires Tally(Sampled(v)).Completed?
    ensures Tally(Sampled(v)).counts.frames <= MaxSamples
    ensures Tally(Sampled(v)).counts.dark + Tally(Sampled(v)).counts.fire <= MaxSamples
  {
    SampledFrames(v);
    TallyBounds(Sampled(v));
  }

  /** A video that reports no frames is never read and is classified general/Medium. */
  lemma EmptyVideoIsGeneral(v: Video)
    requires v.reportedFrames <= 0
    ensures Tally(Sampled(v)) == Completed(NoCounts)
    ensures Assess(v) == Default
  {
    EmptyVideoIsNotSampled(v);
  }

  /**
   * Each situation other than general needs a minimum number of analysed
   * frames: its counter must reach the threshold, and motion is never seen
   * on the first frame.
   */
  lemma MinimumEvidence(v: Video)
    ensures Assess(v).situation == Flood ==> |Sampled(v)| >= FloodThreshold
    ensures Assess(v).situation == Fire ==> |Sampled(v)| >= FireThreshold
    ensures Assess(v).situation == Earthquake ==> |Sampled(v)| >= EarthquakeThreshold + 1
    ensures Assess(v).situation == PowerOutage ==> |Sampled(v)| >= PowerOutageThreshold
    ensures Assess(v).situation == Accident ==> |Sampled(v)| >= AccidentThreshold + 1
  {
    if Tally(Sampled(v)).Completed? {
      TallyBounds(Sampled(v));
    }
  }

  /** Fewer than four analysed frames can only give general/Medium. */
  lemma FewFramesAreGeneral(v: Video)
    requires |Sampled(v)| < FireThreshold
    ensures Assess(v) == Default
  {
    if Tally(Sampled(v)).Completed? {
      TallyBounds(Sampled(v));
    }
  }

  /** A video that reports fewer than four frames is classified general/Medium. */
  lemma ShortVideoIsGeneral(v: Video)
    requires v.reportedFrames < FireThreshold
    ensures Assess(v) == Default
  {
    SampleIndicesCount(v.reportedFrames);
    FewFramesAreGeneral(v);
  }

  /**
   * Five analysed frames showing water give flood/High, whatever the other
   * counters say, provided the pass completes.
   */
  lemma WaterFramesGiveFlood(v: Video)
    requires ShapesAgree(Sampled(v))
    requires Count(Sampled(v), IsWater) >= FloodThreshold
    ensures Assess(v) == Detection(Flood, High)
  {
    TallyCounts(Sampled(v));
  }

  /**
   * A 30-frame video is sampled at 0, 2, ..., 28: fifteen frames when every
   * read succeeds.
   */
  lemma ThirtyFrameVideo(v: Video)
    requires v.reportedFrames == 30
    requires forall i :: 0 <= i < 30 ==> v.read(i).Some?
    ensures |Sampled(v)| == 15
    ensures forall k :: 0 <= k < 15 ==> SampleIndices(30)[k] == 2 * k
  {
    AllReadsSucceed(v);
    SampleIndicesCount(30);
    SampleIndicesShape(30);
  }
}
