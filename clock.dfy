/** The application's notion of time: seconds since the start of the run, read
    from a monotonic nanosecond clock, and the global frame number derived from
    it. The clock reading itself is a parameter. */
module Clock {
  import opened Numeric

  /** `elapsed = (time.monotonic_ns() - start) / 1_000_000_000`, in seconds. */
  function Elapsed(nowNs: int, startNs: int): (seconds: real)
    ensures startNs <= nowNs ==> 0.0 <= seconds
    ensures seconds * 1_000_000_000.0 == (nowNs - startNs) as real
  {
    (nowNs - startNs) as real / 1_000_000_000.0
  }

  /** `frame_number = int(frame_rate * elapsed)`: the number of whole frames
      since the start. */
  function FrameNumber(frameRate: int, elapsed: real): (frame: int)
    ensures 0 <= frameRate && 0.0 <= elapsed ==>
              0 <= frame && frame as real <= frameRate as real * elapsed < frame as real + 1.0
  {
    Trunc(frameRate as real * elapsed)
  }

  /** Time never runs the frame number backwards. */
  lemma FrameNumberMonotone(frameRate: int, earlier: real, later: real)
    requires 0 <= frameRate && earlier <= later
    ensures FrameNumber(frameRate, earlier) <= FrameNumber(frameRate, later)
  {
    var r := frameRate as real;
    TruncScaledMonotone(r, earlier, later);
    assert FrameNumber(frameRate, earlier) == Trunc(r * earlier);
    assert FrameNumber(frameRate, later) == Trunc(r * later);
  }

  /** Each second of running time adds exactly `frame_rate` frames. */
  lemma OneSecondIsFrameRateFrames(frameRate: int, elapsed: real)
    requires 0 <= frameRate && 0.0 <= elapsed
    ensures FrameNumber(frameRate, elapsed + 1.0) == FrameNumber(frameRate, elapsed) + frameRate
  {
    var r := frameRate as real;
    assert r * (elapsed + 1.0) == r * elapsed + r;
    var x := r * elapsed;
    assert 0.0 <= x;
    assert (x + r).Floor == x.Floor + frameRate;
  }
}
