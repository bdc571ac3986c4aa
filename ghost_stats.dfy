/** The statistics pass over a decoded replay (`src/ghost_stats.rs`): one
    walk over the frames collecting the sum, minimum and maximum of the frame
    times and the number of jumps. The source prints its results; here they
    are returned. */
module GhostStats {
  import opened Text
  import opened GhostTypes
  import opened GhostParser

  /** The start value of the running minimum. */
  const MinFrameTimeStart: real := 999.9

  /** The five running variables of `collect_stats`. */
  datatype Tally = Tally(
    numJumps: nat,
    minFrameTime: real,
    maxFrameTime: real,
    sumOfFrameTimes: real,
    groundedLastFrame: bool)

  /** What `collect_stats` reports for a ghost. */
  datatype Stats = Stats(
    levelName: string,
    totalTime: real,
    sumOfFrameTimes: real,
    numJumps: nat,
    minFrameTime: real,
    maxFrameTime: real)

  const Start: Tally := Tally(0, MinFrameTimeStart, 0.0, 0.0, false)

  /** One iteration of the loop: add the frame time, raise the maximum, lower
      the minimum over non-zero times, and count a jump when the previous
      frame was grounded and this one is not. */
  function Step(t: Tally, f: GhostFrame): Tally
  {
    Tally(
      if t.groundedLastFrame && !f.grounded then t.numJumps + 1 else t.numJumps,
      if f.frameTime != 0.0 && f.frameTime < t.minFrameTime then f.frameTime else t.minFrameTime,
      if f.frameTime > t.maxFrameTime then f.frameTime else t.maxFrameTime,
      t.sumOfFrameTimes + f.frameTime,
      f.grounded)
  }

  /** The running variables after the loop has seen `frames`. */
  function Fold(frames: seq<GhostFrame>): Tally
  {
    if frames == [] then Start else Step(Fold(frames[..|frames| - 1]), frames[|frames| - 1])
  }

  function Report(levelName: string, totalTime: real, t: Tally): Stats
  {
    Stats(levelName, totalTime, t.sumOfFrameTimes, t.numJumps, t.minFrameTime, t.maxFrameTime)
  }

  /** `collect_stats`. */
  method CollectStats(g: Ghost) returns (stats: Stats)
    ensures stats == Report(g.levelName, g.totalTime, Fold(g.ghostFrames))
  {
    var numJumps: nat := 0;
    var minFrameTime := MinFrameTimeStart;
    var maxFrameTime := 0.0;
    var sumOfFrameTimes := 0.0;
    var groundedLastFrame := false;
    var frames := g.ghostFrames;
    for i := 0 to |frames|
      invariant Tally(numJumps, minFrameTime, maxFrameTime, sumOfFrameTimes, groundedLastFrame)
                == Fold(frames[..i])
    {
      var frame := frames[i];
      assert frames[..i + 1][..i] == frames[..i];
      sumOfFrameTimes := sumOfFrameTimes + frame.frameTime;
      if frame.frameTime > maxFrameTime {
        maxFrameTime := frame.frameTime;
      }
      if frame.frameTime != 0.0 && frame.frameTime < minFrameTime {
        minFrameTime := frame.frameTime;
      }
      if groundedLastFrame && !frame.grounded {
        numJumps := numJumps + 1;
      }
      groundedLastFrame := frame.grounded;
    }
    assert frames[..|frames|] == frames;
    stats := Report(g.levelName, g.totalTime, Tally(numJumps, minFrameTime, maxFrameTime, sumOfFrameTimes, groundedLastFrame));
  }

  // ---------------------------------------------------------------------------
  // Reference definitions

  /** The sum of the frame times, first frame first. */
  function SumOfTimes(frames: seq<GhostFrame>): real
  {
    if frames == [] then 0.0 else frames[0].frameTime + SumOfTimes(frames[1..])
  }

  /** The number of adjacent pairs where a grounded frame is followed by one
      that is not. */
  function Takeoffs(frames: seq<GhostFrame>): nat
  {
    if |frames| < 2 then 0
    else (if frames[0].grounded && !frames[1].grounded then 1 else 0) + Takeoffs(frames[1..])
  }

  /** The number of grounded frames. */
  function GroundedCount(frames: seq<GhostFrame>): nat
  {
    if frames == [] then 0 else (if frames[0].grounded then 1 else 0) + GroundedCount(frames[1..])
  }

  // ---------------------------------------------------------------------------
  // What the pass computes

  lemma {:induction false} SumOfTimesSnoc(frames: seq<GhostFrame>, f: GhostFrame)
    ensures SumOfTimes(frames + [f]) == SumOfTimes(frames) + f.frameTime
  {
    if frames != [] {
      assert (frames + [f])[1..] == frames[1..] + [f];
      SumOfTimesSnoc(frames[1..], f);
    }
  }

  /** The reported sum is the sum of the frame times. */
  lemma {:induction false} FoldSum(frames: seq<GhostFrame>)
    ensures Fold(frames).sumOfFrameTimes == SumOfTimes(frames)
  {
    if frames != [] {
      var init := frames[..|frames| - 1];
      FoldSum(init);
      SumOfTimesSnoc(init, frames[|frames| - 1]);
      assert init + [frames[|frames| - 1]] == frames;
    }
  }

  /** The reported maximum is never negative, is at least every frame time,
      and is either 0.0 or one of the frame times. */
  lemma {:induction false} FoldMax(frames: seq<GhostFrame>)
    ensures 0.0 <= Fold(frames).maxFrameTime
    ensures forall k :: 0 <= k < |frames| ==> frames[k].frameTime <= Fold(frames).maxFrameTime
    ensures Fold(frames).maxFrameTime == 0.0
              || exists k :: 0 <= k < |frames| && frames[k].frameTime == Fold(frames).maxFrameTime
  {
    if frames != [] {
      var init := frames[..|frames| - 1];
      FoldMax(init);
      assert forall k :: 0 <= k < |init| ==> init[k] == frames[k];
    }
  }

  /** The reported minimum is at most 999.9 and at most every non-zero frame
      time, and is either 999.9 or one of the non-zero frame times. */
  lemma {:induction false} FoldMin(frames: seq<GhostFrame>)
    ensures Fold(frames).minFrameTime <= MinFrameTimeStart
    ensures forall k :: 0 <= k < |frames| && frames[k].frameTime != 0.0 ==>
              Fold(frames).minFrameTime <= frames[k].frameTime
    ensures Fold(frames).minFrameTime == MinFrameTimeStart
              || exists k :: 0 <= k < |frames| && frames[k].frameTime != 0.0
                   && frames[k].frameTime == Fold(frames).minFrameTime
  {
    if frames != [] {
      var init := frames[..|frames| - 1];
      FoldMin(init);
      assert forall k :: 0 <= k < |init| ==> init[k] == frames[k];
    }
  }

  lemma {:induction false} TakeoffsSnoc(frames: seq<GhostFrame>, f: GhostFrame)
    requires frames != []
    ensures Takeoffs(frames + [f]) ==
              Takeoffs(frames) + (if frames[|frames| - 1].grounded && !f.grounded then 1 else 0)
  {
    if |frames| >= 2 {
      assert (frames + [f])[1..] == frames[1..] + [f];
      TakeoffsSnoc(frames[1..], f);
    }
  }

  /** The reported jump count is the number of takeoffs, and the loop's flag
      is whether the last frame was grounded. */
  lemma {:induction false} FoldJumps(frames: seq<GhostFrame>)
    ensures Fold(frames).numJumps == Takeoffs(frames)
    ensures Fold(frames).groundedLastFrame <==> frames != [] && frames[|frames| - 1].grounded
  {
    if frames != [] {
      var init := frames[..|frames| - 1];
      FoldJumps(init);
      assert init + [frames[|frames| - 1]] == frames;
      if init != [] {
        TakeoffsSnoc(init, frames[|frames| - 1]);
      }
    }
  }

  /** There are fewer takeoffs than frames, and no more than grounded frames. */
  lemma {:induction false} TakeoffsBound(frames: seq<GhostFrame>)
    ensures frames != [] ==> Takeoffs(frames) < |frames|
    ensures Takeoffs(frames) <= GroundedCount(frames)
  {
    if frames != [] {
      TakeoffsBound(frames[1..]);
    }
  }

  /** Frames with running totals: the sum of the frame times is the last
      frame's cumulative time. */
  lemma {:induction false} FoldSumIsCumulative(frames: seq<GhostFrame>)
    requires PrefixSums(frames) && frames != []
    ensures Fold(frames).sumOfFrameTimes == frames[|frames| - 1].cumulativeTime
  {
    var init := frames[..|frames| - 1];
    if init != [] {
      assert PrefixSums(init);
      FoldSumIsCumulative(init);
    }
  }

  /** Over a frame walk from the start that decodes every token, the reported
      frame-time sum is the cumulative time of the last frame, and the jump
      count is below the number of frames. */
  lemma StatsOfParsed(tokens: seq<string>)
    requires DecodeFrames(tokens, Option.None, 0).failure.None?
    ensures var frames := DecodeFrames(tokens, Option.None, 0).frames;
      && |frames| == |tokens|
      && (frames != [] ==> Fold(frames).sumOfFrameTimes == frames[|frames| - 1].cumulativeTime)
      && (frames != [] ==> Fold(frames).numJumps < |frames|)
  {
    var frames := DecodeFrames(tokens, Option.None, 0).frames;
    DecodeFramesFromStart(tokens);
    if frames != [] {
      FoldSumIsCumulative(frames);
      FoldJumps(frames);
      TakeoffsBound(frames);
    }
  }
}
