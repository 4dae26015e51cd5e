/** The animation objects: the variants whose rendering is exact (binary blink,
    one-shot static hold, randomised flicker), what their `render` writes, and
    the `Animation` class whose `exec` maps a global frame onto its period and
    writes the scaled brightness to every LED it owns. */
module Animations {
  import opened Numeric
  import opened Leds
  import opened Phases
  import opened Glitch

  /** The render variants. The sine fade and the exponential flash are not part
      of this model (their `render` is transcendental floating point). */
  datatype Variant =
    | Blink
    | Static(pct: real)
    | RandomGlitch(glitch: Glitch)

  /** A flicker's levels split the period into equal segments; the other
      variants fit any period. */
  predicate FitsFrameCount(v: Variant, frameCount: int)
  {
    v.RandomGlitch? ==>
      1 <= |v.glitch.levels| && v.glitch.framesPerGlitch * |v.glitch.levels| == frameCount
  }

  /** What one `render(frame_in_animation, completed)` hands to `set_all`, or
      None when it writes nothing. Only a static hold that was already applied
      stays silent; a flicker's level lies between the levels of its segment. */
  function RenderValue(v: Variant, isSet: bool, p: FramePhase, frameCount: int): (w: Option<real>)
    requires frameCount != 0 && FitsFrameCount(v, frameCount) && InPeriod(p, frameCount)
    ensures w.None? <==> v.Static? && isSet
    ensures v.Static? && w.Some? ==> w.value == v.pct
    ensures v.RandomGlitch? ==>
              var g := v.glitch;
              var i := SegmentIndex(g.framesPerGlitch, p.frameInAnimation);
              && 0 <= i < |g.levels|
              && Between(w.value, g.levels[i], g.levels[NextSegment(i, |g.levels|)])
  {
    match v
    case Blink => Some(if p.completed <= 0.5 then 0.0 else 1.0)
    case Static(pct) => if isSet then None else Some(pct)
    case RandomGlitch(g) =>
      SegmentOfPhase(|g.levels|, g.framesPerGlitch, p);
      Some(GlitchLevel(g.levels, g.framesPerGlitch, p.frameInAnimation))
  }

  /** `is_set` after one render: a static hold sets it, nothing clears it. */
  function SetAfter(v: Variant, isSet: bool): bool
  {
    isSet || v.Static?
  }

  /** Binary blink without an offset: dark for the first half of every period
      (the midpoint included), lit for the second half. */
  lemma BlinkDarkThenLit(frame: int, frameRate: int, frameCount: int, isSet: bool)
    requires 0 < frameCount
    ensures RenderValue(Blink, isSet, Phase(frame, 0.0, frameRate, frameCount), frameCount)
         == Some(if 2 * (frame % frameCount) <= frameCount then 0.0 else 1.0)
  {
    var p := Phase(frame, 0.0, frameRate, frameCount);
    assert frame as real + 0.0 * frameRate as real == frame as real;
    FloorModMatchesIntMod(frame, frameCount);
    HalfThreshold(p.frameInAnimation, frameCount as real);
  }

  lemma HalfThreshold(x: real, n: real)
    requires 0.0 < n
    ensures x / n <= 0.5 <==> 2.0 * x <= n
  {
    DivisionInverse(x, n);
  }

  /** Two one-second blinkers at 25 frames a second, the second offset by half
      a second (12.5 frames), as scene 1 pairs them: on every frame
      exactly one of the two is lit, except the first frame of each second,
      where the second one sits exactly on the `completed <= 0.5` threshold and
      both are dark. */
  lemma HalfPeriodBlinkersAlternate(frame: int, isSet: bool)
    ensures var first := RenderValue(Blink, isSet, Phase(frame, 0.0, 25, 25), 25);
            var second := RenderValue(Blink, isSet, Phase(frame, 0.5, 25, 25), 25);
            if frame % 25 == 0 then first == second == Some(0.0)
            else (first == Some(0.0) && second == Some(1.0)) || (first == Some(1.0) && second == Some(0.0))
  {
    BlinkDarkThenLit(frame, 25, 25, isSet);
    var p := frame % 25;
    var q := frame / 25;
    var shifted := frame as real + 0.5 * 25 as real;
    assert frame as real == q as real * 25.0 + p as real;
    var pos := Phase(frame, 0.5, 25, 25).frameInAnimation;
    assert pos == FloorMod(shifted, 25.0);
    HalfThreshold(pos, 25.0);
    if p <= 12 {
      assert shifted == (p as real + 12.5) + q as real * 25.0;
      FloorModPeriodic(p as real + 12.5, 25.0, q);
      FloorModOfRange(p as real + 12.5, 25.0);
      assert pos == p as real + 12.5;
    } else {
      assert shifted == (p as real - 12.5) + (q + 1) as real * 25.0;
      FloorModPeriodic(p as real - 12.5, 25.0, q + 1);
      FloorModOfRange(p as real - 12.5, 25.0);
      assert pos == p as real - 12.5;
    }
  }

  /** The values a sequence of `exec` calls writes, threading the static hold's
      flag from one call to the next. */
  function Replay(v: Variant, isSet: bool, frames: seq<int>, offset: real, frameRate: int, frameCount: int)
    : (ws: seq<Option<real>>)
    requires frameCount != 0 && FitsFrameCount(v, frameCount)
    ensures |ws| == |frames|
    decreases |frames|
  {
    if frames == [] then []
    else
      [RenderValue(v, isSet, Phase(frames[0], offset, frameRate, frameCount), frameCount)]
        + Replay(v, SetAfter(v, isSet), frames[1..], offset, frameRate, frameCount)
  }

  /** A static hold writes its level on the first call and never again. */
  lemma {:induction false} StaticWritesOnce(pct: real, isSet: bool, frames: seq<int>, offset: real, frameRate: int, frameCount: int)
    requires frameCount != 0
    ensures forall i :: 0 <= i < |frames| ==>
              Replay(Static(pct), isSet, frames, offset, frameRate, frameCount)[i]
                == if i == 0 && !isSet then Some(pct) else None
    decreases |frames|
  {
    if frames != [] {
      StaticWritesOnce(pct, true, frames[1..], offset, frameRate, frameCount);
    }
  }

  /** Every other variant is purely time-indexed: a call's output depends only on
      its own frame number, whatever was rendered before. */
  lemma {:induction false} ReplayIsTimeIndexed(v: Variant, isSet: bool, frames: seq<int>, offset: real, frameRate: int, frameCount: int)
    requires frameCount != 0 && FitsFrameCount(v, frameCount) && !v.Static?
    ensures forall i :: 0 <= i < |frames| ==>
              Replay(v, isSet, frames, offset, frameRate, frameCount)[i]
                == RenderValue(v, isSet, Phase(frames[i], offset, frameRate, frameCount), frameCount)
    decreases |frames|
  {
    if frames != [] {
      ReplayIsTimeIndexed(v, SetAfter(v, isSet), frames[1..], offset, frameRate, frameCount);
      assert SetAfter(v, isSet) == isSet;
    }
  }

  /** Hence their output repeats with the period: frames that differ by whole
      periods produce the same write. */
  lemma ReplayPeriodic(v: Variant, isSet: bool, frames: seq<int>, offset: real, frameRate: int, frameCount: int,
                       i: int, j: int, cycles: int)
    requires frameCount != 0 && FitsFrameCount(v, frameCount) && !v.Static?
    requires 0 <= i < |frames| && 0 <= j < |frames| && frames[j] == frames[i] + cycles * frameCount
    ensures Replay(v, isSet, frames, offset, frameRate, frameCount)[j]
         == Replay(v, isSet, frames, offset, frameRate, frameCount)[i]
  {
    ReplayIsTimeIndexed(v, isSet, frames, offset, frameRate, frameCount);
    PhasePeriodic(frames[i], offset, frameRate, frameCount, cycles);
  }

  /** What `exec` did: the arguments it passed to `render` and the value
      `render` passed to `set_all` (None: nothing written); or the division by
      a zero `frame_count` that makes it raise. */
  datatype ExecOutcome =
    | Rendered(phase: FramePhase, written: Option<real>)
    | FrameCountZero

  class Animation {
    const leds: seq<Led>
    const duration: real
    const frameRate: int
    const offset: real
    const scaleMax: real
    const frameCount: int
    const variant: Variant
    var isSet: bool

    ghost predicate Valid()
    {
      frameCount == FrameCount(duration, frameRate) && FitsFrameCount(variant, frameCount)
    }

    /** The LEDs this animation writes; other animations may share them. */
    function Owned(): set<Led>
    {
      set l | l in leds
    }

    /** Every owned LED shows `pct`, scaled by `scale_max`. */
    ghost predicate Shows(pct: real)
      reads Owned()
    {
      forall l :: l in leds ==> l.dutyCycle == DutyFor(l.maxDutyCycle, pct * scaleMax)
    }

    /** A single LED is passed as the one-element sequence. */
    constructor (leds: seq<Led>, duration: real, frameRate: int, variant: Variant,
                 offset: real := 0.0, scaleMax: real := 1.0)
      requires FitsFrameCount(variant, FrameCount(duration, frameRate))
      ensures Valid() && !isSet
      ensures this.leds == leds && this.duration == duration && this.frameRate == frameRate
      ensures this.variant == variant && this.offset == offset && this.scaleMax == scaleMax
    {
      this.leds := leds;
      this.duration := duration;
      this.frameRate := frameRate;
      this.offset := offset;
      this.scaleMax := scaleMax;
      this.frameCount := FrameCount(duration, frameRate);
      this.variant := variant;
      isSet := false;
    }

    /** `set_all(pct)`: every owned LED is set to `pct * scale_max`. */
    method SetAll(pct: real)
      modifies Owned()
      ensures Shows(pct)
      ensures forall l :: l in leds ==> l.Valid()
    {
      var scaled := pct * scaleMax;
      for i := 0 to |leds|
        invariant forall l :: l in leds[..i] ==> l.dutyCycle == DutyFor(l.maxDutyCycle, scaled)
        invariant forall l :: l in leds[..i] ==> l.Valid()
      {
        leds[i].Set(scaled);
      }
      assert leds[..|leds|] == leds;
    }

    /** `render(frame_in_animation, completed)` of the three modelled variants. */
    method Render(p: FramePhase) returns (w: Option<real>)
      requires Valid() && frameCount != 0 && InPeriod(p, frameCount)
      modifies Owned(), this`isSet
      ensures w == RenderValue(variant, old(isSet), p, frameCount)
      ensures isSet == SetAfter(variant, old(isSet))
      ensures w.Some? ==> Shows(w.value)
      ensures w.None? ==> unchanged(Owned())
    {
      match variant
      case Blink =>
        if p.completed <= 0.5 {
          SetAll(0.0);
          w := Some(0.0);
        } else {
          SetAll(1.0);
          w := Some(1.0);
        }
      case Static(pct) =>
        if !isSet {
          SetAll(pct);
          isSet := true;
          w := Some(pct);
        } else {
          w := None;
        }
      case RandomGlitch(g) =>
        SegmentOfPhase(|g.levels|, g.framesPerGlitch, p);
        var level := GlitchLevel(g.levels, g.framesPerGlitch, p.frameInAnimation);
        SetAll(level);
        w := Some(level);
    }

    /** `exec(frame_number)`: the phase of the frame is rendered. */
    method Exec(frame: int) returns (r: ExecOutcome)
      requires Valid()
      modifies Owned(), this`isSet
      ensures frameCount == 0 ==> r == FrameCountZero && unchanged(this, Owned())
      ensures frameCount != 0 ==>
                && r.Rendered?
                && r.phase == Phase(frame, offset, frameRate, frameCount)
                && r.written == RenderValue(variant, old(isSet), r.phase, frameCount)
                && isSet == SetAfter(variant, old(isSet))
                && (r.written.Some? ==> Shows(r.written.value))
                && (r.written.None? ==> unchanged(Owned()))
    {
      if frameCount == 0 {
        return FrameCountZero;
      }
      var p := Phase(frame, offset, frameRate, frameCount);
      var w := Render(p);
      r := Rendered(p, w);
    }
  }

  /** `RandomGlitch(leds, duration, frame_rate, glitch_duration=…)`: the base
      animation plus the flicker's levels, or the constructor's error. */
  method NewGlitchAnimation(leds: seq<Led>, duration: real, frameRate: int, glitchDuration: real,
                            uniform: nat -> real, offset: real := 0.0, scaleMax: real := 1.0)
    returns (r: Result<Animation, ConfigError>)
    ensures ShapeFor(duration, frameRate, glitchDuration).Failure? ==>
              r == Failure(ShapeFor(duration, frameRate, glitchDuration).error)
    ensures ShapeFor(duration, frameRate, glitchDuration).Success? ==>
              var shape := ShapeFor(duration, frameRate, glitchDuration).value;
              && r.Success? && fresh(r.value) && r.value.Valid() && !r.value.isSet
              && r.value.leds == leds && r.value.duration == duration && r.value.frameRate == frameRate
              && r.value.offset == offset && r.value.scaleMax == scaleMax
              && r.value.variant.RandomGlitch?
              && r.value.variant.glitch.glitchDuration == shape.glitchDuration
              && r.value.variant.glitch.framesPerGlitch == shape.framesPerGlitch
              && |r.value.variant.glitch.levels| == shape.segments
              && forall i :: 0 <= i < |r.value.variant.glitch.levels| ==> r.value.variant.glitch.levels[i] == uniform(i)
  {
    var g := NewRandomGlitch(duration, frameRate, glitchDuration, uniform);
    match g
    case Failure(e) =>
      r := Failure(e);
    case Success(glitch) =>
      var a := new Animation(leds, duration, frameRate, RandomGlitch(glitch), offset, scaleMax);
      r := Success(a);
  }
}
