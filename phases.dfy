/** How `Animation.exec` turns the global frame number into a position inside the
    animation's period. Every animation variant, including the ones whose render
    is not modelled (the sine fade and the exponential flash), is driven by this
    computation. */
module Phases {
  import opened Numeric

  /** `frame_count = int(duration * frame_rate)`, fixed when the animation is built. */
  function FrameCount(duration: real, frameRate: int): (n: int)
    ensures 0.0 <= duration && 0 <= frameRate ==> 0 <= n
    ensures 1.0 <= duration * frameRate as real ==> 1 <= n
  {
    Trunc(duration * frameRate as real)
  }

  /** The pair `exec` passes to `render`. */
  datatype FramePhase = FramePhase(frameInAnimation: real, completed: real)

  /** A phase as `exec` produces it for a period of `frameCount` frames. */
  predicate InPeriod(p: FramePhase, frameCount: int)
  {
    && 0.0 <= p.completed < 1.0
    && p.frameInAnimation == p.completed * frameCount as real
  }

  /** `exec(frame)`: shift the frame by `offset * frame_rate` (which may be a
      fraction of a frame), reduce it with Python's `%` by `frame_count`, and
      divide by `frame_count`. A zero `frame_count` raises in the source; the
      caller handles that case. */
  function Phase(frame: int, offset: real, frameRate: int, frameCount: int): (p: FramePhase)
    requires frameCount != 0
    ensures InPeriod(p, frameCount)
    ensures 0 < frameCount ==> 0.0 <= p.frameInAnimation < frameCount as real
  {
    var shifted := frame as real + offset * frameRate as real;
    var pos := FloorMod(shifted, frameCount as real);
    DivisionInverse(pos, frameCount as real);
    FramePhase(pos, pos / frameCount as real)
  }

  /** When the offset is a whole number of frames, `frame_in_animation` is a
      whole frame, as it is for every animation without an offset. */
  lemma WholeOffsetWholeFrame(frame: int, offset: real, frameRate: int, frameCount: int)
    requires frameCount != 0 && IsWhole(offset * frameRate as real)
    ensures IsWhole(Phase(frame, offset, frameRate, frameCount).frameInAnimation)
  {
    var s := frame + (offset * frameRate as real).Floor;
    assert frame as real + offset * frameRate as real == s as real;
    FloorModWhole(s, frameCount);
  }

  predicate IsWhole(x: real)
  {
    x == x.Floor as real
  }

  /** `exec(f)` and `exec(f + k * frame_count)` hand `render` the same arguments. */
  lemma {:induction false} PhasePeriodic(frame: int, offset: real, frameRate: int, frameCount: int, cycles: int)
    requires frameCount != 0
    ensures Phase(frame + cycles * frameCount, offset, frameRate, frameCount)
         == Phase(frame, offset, frameRate, frameCount)
  {
    var shift := offset * frameRate as real;
    var n := frameCount as real;
    assert (cycles * frameCount) as real == cycles as real * n;
    assert (frame + cycles * frameCount) as real + shift == (frame as real + shift) + cycles as real * n;
    FloorModPeriodic(frame as real + shift, n, cycles);
  }

  /** Without an offset, the first period maps every frame to itself. */
  lemma FirstPeriodIsIdentity(frame: int, frameRate: int, frameCount: int)
    requires 0 <= frame < frameCount
    ensures Phase(frame, 0.0, frameRate, frameCount).frameInAnimation == frame as real
  {
    FloorModOfRange(frame as real, frameCount as real);
  }
}
