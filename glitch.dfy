/** The randomised flicker (`RandomGlitch`): how its constructor splits the
    period into segments and draws one random level per segment, and how
    `render` interpolates linearly between consecutive levels, wrapping from the
    last level back to the first. The random generator is a parameter: the i-th
    call of `random.uniform(0, 1)` is `uniform(i)`. */
module Glitch {
  import opened Numeric
  import opened Phases

  /** The two ways construction fails: a division by zero (a zero glitch
      duration, or fewer than one segment) and the `ValueError` raised when the
      frame count does not split evenly into the segments. */
  datatype ConfigError = ZeroDivision | NotDivisible

  /** The state a successful constructor leaves behind. */
  datatype Glitch = Glitch(glitchDuration: real, levels: seq<real>, framesPerGlitch: int)

  /** The shape of a glitch animation, without its random levels. */
  datatype Shape = Shape(glitchDuration: real, segments: nat, framesPerGlitch: int)

  /** A glitch duration of 0 stands for the default, a tenth of the duration. */
  function EffectiveGlitchDuration(duration: real, glitchDuration: real): real
  {
    if glitchDuration == 0.0 then duration / 10.0 else glitchDuration
  }

  /** The outcome of the constructor's arithmetic: `int(duration / glitch_duration)`
      segments (none when that is negative), which must divide `frame_count`. */
  function ShapeFor(duration: real, frameRate: int, glitchDuration: real): (r: Result<Shape, ConfigError>)
    ensures r.Success? ==> 1 <= r.value.segments
    ensures r.Success? ==> r.value.framesPerGlitch * r.value.segments == FrameCount(duration, frameRate)
    ensures r.Success? ==> r.value.glitchDuration == EffectiveGlitchDuration(duration, glitchDuration) != 0.0
    ensures r.Success? ==> r.value.segments as real <= duration / r.value.glitchDuration < r.value.segments as real + 1.0
  {
    var gd := EffectiveGlitchDuration(duration, glitchDuration);
    if gd == 0.0 then Failure(ZeroDivision)
    else
      var drawn := Trunc(duration / gd);
      var segments := if drawn < 0 then 0 else drawn;
      var frameCount := FrameCount(duration, frameRate);
      if segments == 0 then Failure(ZeroDivision)
      else if frameCount % segments != 0 then Failure(NotDivisible)
      else
        ExactQuotient(frameCount, segments);
        Success(Shape(gd, segments, (frameCount as real / segments as real).Floor))
  }

  /** `math.floor(a / b)` is the exact quotient when `b` divides `a`. */
  lemma ExactQuotient(a: int, b: int)
    requires 0 < b && a % b == 0
    ensures (a as real / b as real).Floor * b == a
  {
    var q := a / b;
    assert a == q * b;
    assert a as real == q as real * b as real;
    DivideBack(a as real, b as real, q as real);
  }

  /** With the default glitch duration there are always ten segments, so
      construction succeeds exactly when `frame_count` is a multiple of ten. */
  lemma DefaultHasTenSegments(duration: real, frameRate: int)
    requires duration != 0.0
    ensures ShapeFor(duration, frameRate, 0.0).Success? <==> FrameCount(duration, frameRate) % 10 == 0
    ensures ShapeFor(duration, frameRate, 0.0).Success? ==>
              ShapeFor(duration, frameRate, 0.0).value.segments == 10 &&
              ShapeFor(duration, frameRate, 0.0).value.framesPerGlitch == FrameCount(duration, frameRate) / 10
  {
    var gd := duration / 10.0;
    assert duration == gd * 10.0;
    DivideBack(duration, gd, 10.0);
    assert Trunc(duration / gd) == 10;
    var fc := FrameCount(duration, frameRate);
    if fc % 10 == 0 {
      ExactQuotient(fc, 10);
    }
  }

  /** The flickers of the scene table build without error at 25 frames a
      second: the 2 s candle with a glitch every fifth of a second, and the
      default-duration flickers of 4 s and 2 s, all with ten segments. */
  lemma SceneGlitchesBuild()
    ensures ShapeFor(2.0, 25, (1.0 / 25.0) * 5.0) == Success(Shape(0.2, 10, 5))
    ensures ShapeFor(4.0, 25, 0.0) == Success(Shape(0.4, 10, 10))
    ensures ShapeFor(2.0, 25, 0.0) == Success(Shape(0.2, 10, 5))
  {
    DefaultHasTenSegments(4.0, 25);
    DefaultHasTenSegments(2.0, 25);
    assert Trunc(2.0 / 0.2) == 10;
  }

  /** Once there is at least one segment, the constructor raises `ValueError`
      exactly when the segments do not divide `frame_count`. */
  lemma RaisesExactlyWhenIndivisible(duration: real, frameRate: int, glitchDuration: real, segments: int)
    requires EffectiveGlitchDuration(duration, glitchDuration) != 0.0
    requires segments == Trunc(duration / EffectiveGlitchDuration(duration, glitchDuration)) && 1 <= segments
    ensures ShapeFor(duration, frameRate, glitchDuration) == Failure(NotDivisible)
        <==> FrameCount(duration, frameRate) % segments != 0
    ensures ShapeFor(duration, frameRate, glitchDuration).Success?
        <==> FrameCount(duration, frameRate) % segments == 0
  {
  }

  /** The constructor: draws `int(duration / glitch_duration)` levels one by one,
      then checks that they split the period evenly. */
  method NewRandomGlitch(duration: real, frameRate: int, glitchDuration: real, uniform: nat -> real)
    returns (r: Result<Glitch, ConfigError>)
    ensures ShapeFor(duration, frameRate, glitchDuration).Failure? ==>
              r == Failure(ShapeFor(duration, frameRate, glitchDuration).error)
    ensures ShapeFor(duration, frameRate, glitchDuration).Success? ==>
              var shape := ShapeFor(duration, frameRate, glitchDuration).value;
              && r.Success?
              && r.value.glitchDuration == shape.glitchDuration
              && r.value.framesPerGlitch == shape.framesPerGlitch
              && |r.value.levels| == shape.segments
              && forall i :: 0 <= i < |r.value.levels| ==> r.value.levels[i] == uniform(i)
  {
    var gd := if glitchDuration == 0.0 then duration / 10.0 else glitchDuration;
    if gd == 0.0 {
      return Failure(ZeroDivision);
    }
    var count := Trunc(duration / gd);
    var levels: seq<real> := [];
    var i := 0;
    while i < count
      invariant 0 <= i && (i <= count || i == 0)
      invariant |levels| == i
      invariant forall j :: 0 <= j < i ==> levels[j] == uniform(j)
    {
      levels := levels + [uniform(i)];
      i := i + 1;
    }
    var frameCount := FrameCount(duration, frameRate);
    if |levels| == 0 {
      return Failure(ZeroDivision);
    }
    if frameCount % |levels| != 0 {
      return Failure(NotDivisible);
    }
    r := Success(Glitch(gd, levels, (frameCount as real / |levels| as real).Floor));
  }

  // ---------------------------------------------------------------------------
  // render

  /** `glitch_index = math.floor(frame_in_animation / frames_per_glitch)`. */
  function SegmentIndex(framesPerGlitch: int, pos: real): int
    requires framesPerGlitch != 0
  {
    (pos / framesPerGlitch as real).Floor
  }

  /** `steps = frame_in_animation - glitch_index * frames_per_glitch`. */
  function SegmentSteps(framesPerGlitch: int, pos: real): real
    requires framesPerGlitch != 0
  {
    pos - SegmentIndex(framesPerGlitch, pos) as real * framesPerGlitch as real
  }

  /** The index of the level a segment heads for, `(glitch_index + 1) % len`. */
  function NextSegment(index: int, segments: int): int
    requires 0 < segments
  {
    (index + 1) % segments
  }

  predicate Between(v: real, a: real, b: real)
  {
    (a <= v <= b) || (b <= v <= a)
  }

  /** The level `render` writes: `g1 + steps * (g2 - g1) / frames_per_glitch`.
      It starts each segment at that segment's level and moves in a straight
      line towards the next one, never leaving the span between the two. */
  function GlitchLevel(levels: seq<real>, framesPerGlitch: int, pos: real): (v: real)
    requires framesPerGlitch != 0 && 0 <= SegmentIndex(framesPerGlitch, pos) < |levels|
    ensures var i := SegmentIndex(framesPerGlitch, pos);
            Between(v, levels[i], levels[NextSegment(i, |levels|)])
    ensures SegmentSteps(framesPerGlitch, pos) == 0.0 ==> v == levels[SegmentIndex(framesPerGlitch, pos)]
  {
    var i := SegmentIndex(framesPerGlitch, pos);
    var g1 := levels[i];
    var g2 := levels[NextSegment(i, |levels|)];
    var step := (g2 - g1) / framesPerGlitch as real;
    var steps := SegmentSteps(framesPerGlitch, pos);
    StepsFraction(framesPerGlitch, pos);
    Interpolate(g1, g2, framesPerGlitch as real, steps);
    g1 + steps * step
  }

  /** `steps / frames_per_glitch` is the fractional part of the segment position. */
  lemma StepsFraction(framesPerGlitch: int, pos: real)
    requires framesPerGlitch != 0
    ensures var t := SegmentSteps(framesPerGlitch, pos) / framesPerGlitch as real;
            0.0 <= t < 1.0
  {
    var n := framesPerGlitch as real;
    var q := pos / n;
    var k := q.Floor as real;
    DivisionInverse(pos, n);
    Distribute(n, q, k);
    assert k * n == n * k;
    var steps := pos - k * n;
    assert steps == n * (q - k);
    DivideBack(steps, n, q - k);
    assert SegmentSteps(framesPerGlitch, pos) == steps;
  }

  /** Moving a fraction `steps / n` of the way from `g1` to `g2` stays between them. */
  lemma Interpolate(g1: real, g2: real, n: real, steps: real)
    requires n != 0.0 && 0.0 <= steps / n < 1.0
    ensures Between(g1 + steps * ((g2 - g1) / n), g1, g2)
  {
    var d := g2 - g1;
    var t := steps / n;
    MultiplyQuotient(steps, d, n);
    ScaleFraction(d, t);
    if d == 0.0 {
      assert d * t == 0.0;
    }
    assert g1 + steps * ((g2 - g1) / n) == g1 + d * t;
  }

  lemma MultiplyQuotient(a: real, b: real, n: real)
    requires n != 0.0
    ensures a * (b / n) == b * (a / n)
  {
  }

  /** For a position inside the period: the segment index is a valid index, the
      steps stay below `frames_per_glitch`, and the last segment heads back to
      the first level. */
  lemma SegmentBounds(segments: int, framesPerGlitch: int, pos: real)
    requires 1 <= segments && 0 < framesPerGlitch
    requires 0.0 <= pos < (framesPerGlitch * segments) as real
    ensures 0 <= SegmentIndex(framesPerGlitch, pos) < segments
    ensures 0.0 <= SegmentSteps(framesPerGlitch, pos) < framesPerGlitch as real
    ensures var i := SegmentIndex(framesPerGlitch, pos);
              NextSegment(i, segments) == if i == segments - 1 then 0 else i + 1
    ensures IsWhole(pos) ==> IsWhole(SegmentSteps(framesPerGlitch, pos))
  {
    IndexBelowSegments(segments, framesPerGlitch, pos);
    NextSegmentWraps(SegmentIndex(framesPerGlitch, pos), segments);
    StepsBelowFrames(framesPerGlitch, pos);
    if IsWhole(pos) {
      WholeSteps(framesPerGlitch, pos);
    }
  }

  /** The segment after `i` is `i + 1`, and the last one wraps to 0. */
  lemma NextSegmentWraps(i: int, segments: int)
    requires 0 <= i < segments
    ensures NextSegment(i, segments) == if i == segments - 1 then 0 else i + 1
  {
    if i == segments - 1 {
      assert i + 1 == segments;
    } else {
      assert 0 <= i + 1 < segments;
    }
  }

  lemma IndexBelowSegments(segments: int, framesPerGlitch: int, pos: real)
    requires 1 <= segments && 0 < framesPerGlitch
    requires 0.0 <= pos < (framesPerGlitch * segments) as real
    ensures 0 <= SegmentIndex(framesPerGlitch, pos) < segments
  {
    var n := framesPerGlitch as real;
    var q := pos / n;
    DivisionInverse(pos, n);
    assert (framesPerGlitch * segments) as real == n * segments as real;
    if q >= segments as real {
      ScaleMonotone(n, segments as real, q);
    }
    assert 0.0 <= q by {
      if q < 0.0 {
        ScaleMonotone(n, q, 0.0);
      }
    }
  }

  lemma StepsBelowFrames(framesPerGlitch: int, pos: real)
    requires 0 < framesPerGlitch
    ensures 0.0 <= SegmentSteps(framesPerGlitch, pos) < framesPerGlitch as real
  {
    var n := framesPerGlitch as real;
    StepsFraction(framesPerGlitch, pos);
    var steps := SegmentSteps(framesPerGlitch, pos);
    DivisionInverse(steps, n);
    ScaleFraction(n, steps / n);
  }

  lemma WholeSteps(framesPerGlitch: int, pos: real)
    requires framesPerGlitch != 0 && IsWhole(pos)
    ensures IsWhole(SegmentSteps(framesPerGlitch, pos))
  {
    var i := SegmentIndex(framesPerGlitch, pos);
    assert i as real * framesPerGlitch as real == (i * framesPerGlitch) as real;
    assert SegmentSteps(framesPerGlitch, pos) == (pos.Floor - i * framesPerGlitch) as real;
  }

  /** A phase inside the period always falls in one of the segments, whatever the
      sign of the frame count. */
  lemma SegmentOfPhase(segments: int, framesPerGlitch: int, p: FramePhase)
    requires 1 <= segments && framesPerGlitch != 0
    requires InPeriod(p, framesPerGlitch * segments)
    ensures 0 <= SegmentIndex(framesPerGlitch, p.frameInAnimation) < segments
  {
    CastProduct(framesPerGlitch, segments);
    FractionOfProduct(p.frameInAnimation, framesPerGlitch as real, segments as real, p.completed);
  }

  /** The first frame of each segment shows exactly that segment's level. */
  lemma SegmentStartsAtItsLevel(levels: seq<real>, framesPerGlitch: int, index: int, pos: real)
    requires framesPerGlitch != 0 && 0 <= index < |levels|
    requires pos == index as real * framesPerGlitch as real
    ensures SegmentIndex(framesPerGlitch, pos) == index
    ensures GlitchLevel(levels, framesPerGlitch, pos) == levels[index]
  {
    var n := framesPerGlitch as real;
    DivideBack(pos, n, index as real);
    assert pos / n == index as real;
    assert SegmentIndex(framesPerGlitch, pos) == index;
    assert SegmentSteps(framesPerGlitch, pos) == 0.0;
  }

  /** Levels drawn from `[0, 1]` give a brightness in `[0, 1]`. */
  lemma LevelInUnitRange(levels: seq<real>, framesPerGlitch: int, pos: real)
    requires framesPerGlitch != 0 && 0 <= SegmentIndex(framesPerGlitch, pos) < |levels|
    requires forall i :: 0 <= i < |levels| ==> 0.0 <= levels[i] <= 1.0
    ensures 0.0 <= GlitchLevel(levels, framesPerGlitch, pos) <= 1.0
  {
    var i := SegmentIndex(framesPerGlitch, pos);
    assert 0.0 <= levels[NextSegment(i, |levels|)] <= 1.0;
  }
}
