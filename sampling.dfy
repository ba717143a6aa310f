/**
 * The frame sampler of the video classifier (app_fixed.py, lines 62-73):
 * an even stride over the reported frame count, at most fifteen frames, and
 * a stop at the first read that fails.
 */
module Sampling {
  import opened Wrappers
  import opened Frames

  /** The sampling budget: at most this many frames are analysed. */
  const MaxSamples := 15

  /**
   * A video as the sampler sees it: the frame count the container reports
   * (int(cap.get(CAP_PROP_FRAME_COUNT)), which may be zero or negative when
   * the file could not be opened) and the outcome of seeking to an index and
   * reading one frame there.
   */
  datatype Video = Video(reportedFrames: int, read: int -> Option<Frame>)

  function Min(a: int, b: int): int {
    if a <= b then a else b
  }

  /**
   * max(1, total // 15). For a positive divisor Python's floor division and
   * Dafny's Euclidean division agree, negative totals included.
   */
  function Stride(total: int): (s: int)
    ensures s >= 1
    ensures total < 2 * MaxSamples ==> s == 1
    ensures total >= MaxSamples ==> MaxSamples * s <= total < MaxSamples * (s + 1)
  {
    if total / MaxSamples > 1 then total / MaxSamples else 1
  }

  /** Python's range(start, stop, step) for a positive step. */
  function Range(start: int, stop: int, step: int): (r: seq<int>)
    requires step >= 1
    decreases stop - start
  {
    if start >= stop then [] else [start] + Range(start + step, stop, step)
  }

  /** A range lies within [start, stop) and is strictly increasing. */
  lemma {:induction false} RangeIncreasing(start: int, stop: int, step: int)
    requires step >= 1
    ensures forall k :: 0 <= k < |Range(start, stop, step)| ==> start <= Range(start, stop, step)[k] < stop
    ensures forall j, k :: 0 <= j < k < |Range(start, stop, step)| ==>
      Range(start, stop, step)[j] < Range(start, stop, step)[k]
    decreases stop - start
  {
    if start < stop {
      RangeIncreasing(start + step, stop, step);
      var r := Range(start, stop, step);
      assert forall k :: 0 < k < |r| ==> r[k] == Range(start + step, stop, step)[k - 1];
    }
  }

  /** The k-th element of a range, and the length of the range, in closed form. */
  lemma {:induction false} RangeAt(start: int, stop: int, step: int, k: nat)
    requires step >= 1
    ensures k < |Range(start, stop, step)| <==> start + k * step < stop
    ensures k < |Range(start, stop, step)| ==> Range(start, stop, step)[k] == start + k * step
    decreases k
  {
    if start < stop && k > 0 {
      RangeAt(start + step, stop, step, k - 1);
      assert start + step + (k - 1) * step == start + k * step;
    }
  }

  /** Consecutive elements of a range are one step apart, and the range ends at the first one past the stop. */
  lemma RangeStep(start: int, stop: int, step: int, k: nat)
    requires step >= 1
    requires k < |Range(start, stop, step)|
    ensures k + 1 < |Range(start, stop, step)| <==> Range(start, stop, step)[k] + step < stop
    ensures k + 1 < |Range(start, stop, step)| ==>
      Range(start, stop, step)[k + 1] == Range(start, stop, step)[k] + step
  {
    RangeAt(start, stop, step, k);
    RangeAt(start, stop, step, k + 1);
    assert start + (k + 1) * step == start + k * step + step;
  }

  /** The candidate indices the sampling loop walks: range(0, total, stride). */
  function SampleIndices(total: int): seq<int> {
    Range(0, total, Stride(total))
  }

  /**
   * There are no candidate indices for a non-positive count, and otherwise
   * at least min(total, 15) and at most total of them.
   */
  lemma SampleIndicesCount(total: int)
    ensures total <= 0 ==> SampleIndices(total) == []
    ensures total > 0 ==> Min(total, MaxSamples) <= |SampleIndices(total)| <= total
  {
    var s := Stride(total);
    if total > 0 {
      RangeAt(0, total, s, total as nat);
      assert total * s >= total;
      var m := Min(total, MaxSamples) - 1;
      assert m * s < total by {
        if total < MaxSamples {
          assert s == 1;
        } else {
          assert m * s <= 14 * s;
        }
      }
      RangeAt(0, total, s, m as nat);
    }
  }

  /**
   * The candidate indices are 0, s, 2s, ... for the stride s, all below the
   * reported count and strictly increasing.
   */
  lemma SampleIndicesShape(total: int)
    ensures forall k :: 0 <= k < |SampleIndices(total)| ==>
      0 <= SampleIndices(total)[k] == k * Stride(total) < total
    ensures forall j, k :: 0 <= j < k < |SampleIndices(total)| ==>
      SampleIndices(total)[j] < SampleIndices(total)[k]
  {
    var idx := SampleIndices(total);
    RangeIncreasing(0, total, Stride(total));
    forall k | 0 <= k < |idx|
      ensures 0 <= idx[k] == k * Stride(total) < total
    {
      RangeAt(0, total, Stride(total), k);
    }
  }

  /**
   * Reads the frames at the given indices in order, while the budget lasts,
   * and stops at the first read that fails.
   */
  function ReadUntilFailure(read: int -> Option<Frame>, indices: seq<int>, budget: nat): (r: seq<Frame>)
    ensures |r| <= budget && |r| <= |indices|
  {
    if indices == [] || budget == 0 then []
    else match read(indices[0])
      case None => []
      case Some(f) => [f] + ReadUntilFailure(read, indices[1..], budget - 1)
  }

  /**
   * What the sampler hands on: every frame in it was read successfully at
   * the matching index, and sampling ended either because the budget or the
   * indices ran out, or because the next read failed.
   */
  lemma {:induction false} ReadUntilFailureStops(read: int -> Option<Frame>, indices: seq<int>, budget: nat)
    ensures forall k :: 0 <= k < |ReadUntilFailure(read, indices, budget)| ==>
      read(indices[k]) == Some(ReadUntilFailure(read, indices, budget)[k])
    ensures |ReadUntilFailure(read, indices, budget)| < Min(budget, |indices|) ==>
      read(indices[|ReadUntilFailure(read, indices, budget)|]).None?
  {
    if indices != [] && budget != 0 && read(indices[0]).Some? {
      ReadUntilFailureStops(read, indices[1..], budget - 1);
      var r := ReadUntilFailure(read, indices, budget);
      forall k | 0 <= k < |r|
        ensures read(indices[k]) == Some(r[k])
      {
        if k > 0 {
          assert indices[k] == indices[1..][k - 1];
        }
      }
    }
  }

  /** The frames the sampling loop analyses. */
  function Sampled(v: Video): seq<Frame> {
    ReadUntilFailure(v.read, SampleIndices(v.reportedFrames), MaxSamples)
  }

  /**
   * The k-th analysed frame was read at index k * stride, below the reported
   * count; no more than fifteen frames are analysed; and when fewer were
   * analysed than the budget and the indices allow, the read at the next
   * candidate index failed.
   */
  lemma SampledFrames(v: Video)
    ensures |Sampled(v)| <= MaxSamples
    ensures forall k :: 0 <= k < |Sampled(v)| ==>
      k * Stride(v.reportedFrames) < v.reportedFrames &&
      v.read(k * Stride(v.reportedFrames)) == Some(Sampled(v)[k])
    ensures |Sampled(v)| < Min(MaxSamples, |SampleIndices(v.reportedFrames)|) ==>
      v.read(|Sampled(v)| * Stride(v.reportedFrames)).None?
  {
    SampleIndicesShape(v.reportedFrames);
    ReadUntilFailureStops(v.read, SampleIndices(v.reportedFrames), MaxSamples);
  }

  /** A video reporting no frames is never read from. */
  lemma EmptyVideoIsNotSampled(v: Video)
    requires v.reportedFrames <= 0
    ensures Sampled(v) == []
  {
    SampleIndicesCount(v.reportedFrames);
  }

  /** A failed read at the j-th candidate index leaves at most j frames analysed. */
  lemma FailedReadEndsSampling(v: Video, j: nat)
    requires j < |SampleIndices(v.reportedFrames)|
    requires v.read(SampleIndices(v.reportedFrames)[j]).None?
    ensures |Sampled(v)| <= j
  {
    ReadUntilFailureStops(v.read, SampleIndices(v.reportedFrames), MaxSamples);
  }

  /** When every read below the reported count succeeds, min(total, 15) frames are analysed. */
  lemma AllReadsSucceed(v: Video)
    requires forall i :: 0 <= i < v.reportedFrames ==> v.read(i).Some?
    ensures |Sampled(v)| == if v.reportedFrames <= 0 then 0 else Min(v.reportedFrames, MaxSamples)
  {
    var idx := SampleIndices(v.reportedFrames);
    SampleIndicesShape(v.reportedFrames);
    SampleIndicesCount(v.reportedFrames);
    ReadUntilFailureStops(v.read, idx, MaxSamples);
  }
}
