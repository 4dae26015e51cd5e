/** Which scene (set of animations) the application shows. Scene 0 is the
    intro; once two seconds have passed the application moves to scene 1, and
    from then on it steps through scenes 1..5 every `switch_every` seconds,
    never returning to the intro. The check runs once a second. */
module Scenes {
  import opened Numeric

  /** The number of scenes in the application's table. */
  const SceneCount: int := 6

  /** `switch_every`: seconds between two scene changes. */
  const SwitchEvery: int := 15

  /** The scene after one `update_animation_set` check at `elapsed` seconds.
      Nothing happens during the first two seconds; the intro is left at the
      first check after that; any other scene moves on when the whole seconds
      of `elapsed % switch_every` are zero, and the last scene wraps to 1. */
  function RotateScene(current: int, elapsed: real): (next: int)
    ensures elapsed <= 2.0 ==> next == current
    ensures 0 <= current < SceneCount ==> 0 <= next < SceneCount
    ensures 1 <= current ==> 1 <= next
    ensures current == 0 && 2.0 < elapsed ==> next == 1
    ensures next == current || next == current + 1 || next == 1
  {
    if elapsed <= 2.0 then current
    else if current == 0 || Trunc(FloorMod(elapsed, SwitchEvery as real)) == 0 then
      if current + 1 >= SceneCount then 1 else current + 1
    else current
  }

  /** `int(elapsed % switch_every) == 0` holds exactly when the whole seconds
      elapsed are a multiple of `switch_every`. */
  lemma SwitchSecond(elapsed: real, switchEvery: int)
    requires 0 < switchEvery
    ensures Trunc(FloorMod(elapsed, switchEvery as real)) == 0 <==> elapsed.Floor % switchEvery == 0
  {
    var n := switchEvery as real;
    var k := (elapsed / n).Floor;
    var r := FloorMod(elapsed, n);
    assert r == elapsed - n * k as real;
    assert n * k as real == (switchEvery * k) as real;
    assert elapsed == r + (switchEvery * k) as real;
    assert elapsed.Floor == r.Floor + switchEvery * k;
    assert 0 <= r.Floor < switchEvery;
    ModOfShift(r.Floor, switchEvery, k);
  }

  lemma ModOfShift(a: int, m: int, k: int)
    requires 0 <= a < m
    ensures (a + m * k) % m == a
  {
    var q := (a + m * k) / m;
    var s := (a + m * k) % m;
    assert a + m * k == m * q + s && 0 <= s < m;
    assert m * (q - k) == a - s;
    MultipleOutside(m, q - k);
  }

  lemma MultipleOutside(m: int, d: int)
    requires 0 < m
    ensures d >= 1 ==> m * d >= m
    ensures d <= -1 ==> m * d <= -m
  {
    assert m * d == m + m * (d - 1);
    assert m * d == -m + m * (d + 1);
  }

  /** Past the intro, a check changes the scene exactly on the seconds that are
      multiples of `switch_every`, and then to the next scene, wrapping from the
      last to scene 1. */
  lemma {:induction false} RotatesOnSwitchSeconds(current: int, elapsed: real)
    requires 1 <= current < SceneCount && 2.0 < elapsed
    ensures RotateScene(current, elapsed) != current <==> elapsed.Floor % SwitchEvery == 0
    ensures RotateScene(current, elapsed) != current ==>
              RotateScene(current, elapsed) == if current == SceneCount - 1 then 1 else current + 1
  {
    SwitchSecond(elapsed, SwitchEvery);
  }

  /** The scene after a run of checks at the given elapsed times. */
  function RotateAll(current: int, checks: seq<real>): (last: int)
    ensures 0 <= current < SceneCount ==> 0 <= last < SceneCount
    decreases |checks|
  {
    if checks == [] then current else RotateAll(RotateScene(current, checks[0]), checks[1..])
  }

  /** Once the intro is left it never comes back. */
  lemma {:induction false} IntroNeverReturns(current: int, checks: seq<real>)
    requires 1 <= current
    ensures 1 <= RotateAll(current, checks)
    decreases |checks|
  {
    if checks != [] {
      IntroNeverReturns(RotateScene(current, checks[0]), checks[1..]);
    }
  }

  /** Any check later than two seconds leaves the intro for good. */
  lemma {:induction false} IntroEndsAfterTwoSeconds(current: int, checks: seq<real>, i: int)
    requires 0 <= current && 0 <= i < |checks| && 2.0 < checks[i]
    ensures 1 <= RotateAll(current, checks)
    decreases |checks|
  {
    if i == 0 {
      IntroNeverReturns(RotateScene(current, checks[0]), checks[1..]);
    } else {
      IntroEndsAfterTwoSeconds(RotateScene(current, checks[0]), checks[1..], i - 1);
    }
  }

  /** The check looks at whole seconds, so two checks that fall inside the same
      switch second, as a check scheduled "once a second" can, both advance the
      scene: at 15.2 s and 15.7 s the show skips from scene 1 to scene 3. */
  lemma TwoChecksInOneSwitchSecond()
    ensures RotateAll(1, [15.2, 15.7]) == 3
  {
    RotatesOnSwitchSeconds(1, 15.2);
    assert (15.2).Floor == 15;
    RotatesOnSwitchSeconds(2, 15.7);
    assert (15.7).Floor == 15;
    assert [15.2, 15.7][1..] == [15.7];
  }
}
