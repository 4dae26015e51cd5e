/** The application object: the LEDs it registers, the state file it keeps
    across power cycles, the start of the run and the index of the scene
    being shown. The scheduler that drives it is not modelled; its effect on
    start-up is the outcome `Run` returns. */
module Application {
  import opened Numeric
  import opened Leds
  import opened Clock
  import opened Scenes
  import opened Activation

  class App {
    /** The state file: None when it does not exist. */
    var stateFile: Option<string>
    var leds: seq<Led>
    var currentAnimation: int
    /** The monotonic clock reading, in nanoseconds, when the run started. */
    var start: int
    const frameRate: int

    function LedSet(): set<Led>
      reads this`leds
    {
      set l | l in leds
    }

    /** The scene index stays within the scene table. */
    ghost predicate Valid()
      reads this`currentAnimation
    {
      0 <= currentAnimation < SceneCount
    }

    /** Every registered LED is off. */
    ghost predicate AllDark()
      reads this`leds, LedSet()
    {
      forall l :: l in leds ==> l.dutyCycle == 0
    }

    /** Building the application: without USB the state file is created if
        missing; four LEDs are registered (two of them capped at a quarter of
        full scale), all switched off, and the intro scene is selected. */
    constructor (stored: Option<string>, usb: bool, frameRate: int := 25)
      ensures Valid() && AllDark()
      ensures stateFile == BootStorage(stored, usb)
      ensures |leds| == 4 && fresh(LedSet())
      ensures forall i, j :: 0 <= i < j < |leds| ==> leds[i] != leds[j]
      ensures leds[0].maxDutyCycle == MaxDutyCycle && leds[1].maxDutyCycle == 16384
      ensures leds[2].maxDutyCycle == MaxDutyCycle && leds[3].maxDutyCycle == 16384
      ensures currentAnimation == 0 && start == 0 && this.frameRate == frameRate
    {
      stateFile := stored;
      this.frameRate := frameRate;
      start := 0;
      leds := [];
      currentAnimation := 0;
      new;
      if !usb {
        InitStateFile(usb);
      }
      // The light-green, star, red and green channels, in that order; the
      // scene table that would refer to them by name is not modelled.
      var _ := RegisterLed(MaxDutyCycle);
      var _ := RegisterLed(16384);
      var _ := RegisterLed(MaxDutyCycle);
      var _ := RegisterLed(16384);
      Blank();
    }

    /** `register_led`: a new LED at zero duty cycle, appended to the registry. */
    method RegisterLed(maxDutyCycle: nat) returns (led: Led)
      modifies this`leds
      ensures fresh(led) && led.maxDutyCycle == maxDutyCycle && led.dutyCycle == 0
      ensures leds == old(leds) + [led]
    {
      led := new Led(maxDutyCycle);
      leds := leds + [led];
    }

    /** `blank`: every registered LED off. */
    method Blank()
      modifies LedSet()
      ensures AllDark()
    {
      for i := 0 to |leds|
        invariant forall j :: 0 <= j < i ==> leds[j].dutyCycle == 0
      {
        leds[i].Off();
      }
    }

    /** `set_state`: writes `state` unless USB is connected. */
    method SetState(state: string, usb: bool)
      modifies this`stateFile
      ensures stateFile == Persist(old(stateFile), state, usb)
    {
      if usb {
        return;
      }
      stateFile := Some(state);
    }

    /** `init_state_file`: a missing file is created holding ACTIVE. */
    method InitStateFile(usb: bool)
      modifies this`stateFile
      ensures old(stateFile).Some? ==> stateFile == old(stateFile)
      ensures old(stateFile).None? ==> stateFile == Persist(old(stateFile), Active, usb)
    {
      if stateFile.None? {
        SetState(Active, usb);
      }
    }

    /** `halt`: stores SLEEP, switches every LED off and stops the program. */
    method Halt(usb: bool) returns (r: RunOutcome)
      modifies this`stateFile, LedSet()
      ensures r == Halted && AllDark()
      ensures stateFile == Shutdown(old(stateFile), usb)
    {
      SetState(Sleep, usb);
      Blank();
      r := Halted;
    }

    /** `run`: the start-up decision on the stored state, then (when the board
        does not halt) the start of the run at clock reading `nowNs`. */
    method Run(usb: bool, nowNs: int) returns (r: RunOutcome)
      modifies this`stateFile, this`start, LedSet()
      ensures (r, stateFile) == Startup(old(stateFile), usb)
      ensures r == Halted ==> AllDark() && start == old(start)
      ensures r == Scheduled ==> start == nowNs && unchanged(LedSet())
    {
      if LastState(stateFile) == Active && !usb {
        r := Halt(usb);
        return;
      }
      if LastState(stateFile) == Sleep {
        SetState(Active, usb);
      }
      start := nowNs;
      r := Scheduled;
    }

    /** `update_animation_set` at clock reading `nowNs`: the scene index moves
        as `RotateScene` says and stays within the table. */
    method UpdateAnimationSet(nowNs: int)
      requires Valid()
      modifies this`currentAnimation
      ensures Valid()
      ensures currentAnimation == RotateScene(old(currentAnimation), Elapsed(nowNs, start))
    {
      var elapsed := Elapsed(nowNs, start);
      if elapsed <= 2.0 {
        return;
      }
      if currentAnimation == 0 || Trunc(FloorMod(elapsed, SwitchEvery as real)) == 0 {
        currentAnimation := currentAnimation + 1;
        if currentAnimation >= SceneCount {
          currentAnimation := 1;
        }
      }
    }
  }

  /** The program's top level: build the application and run it. A halt leaves
      the board dark; otherwise the run starts at `nowNs` on the intro scene,
      every LED still off. */
  method StartDevice(stored: Option<string>, usb: bool, nowNs: int) returns (app: App, r: RunOutcome)
    ensures fresh(app) && app.Valid()
    ensures (r, app.stateFile) == PowerOn(stored, usb)
    ensures app.AllDark()
    ensures r == Scheduled ==> app.start == nowNs && app.currentAnimation == 0
  {
    app := new App(stored, usb);
    r := app.Run(usb, nowNs);
  }
}
