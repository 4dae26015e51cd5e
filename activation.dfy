/** The on/off protocol kept in a one-line state file across power cycles. A
    press of the reset button mid-run is read as "stop": a run that ends early
    leaves ACTIVE behind, and the next boot goes to sleep. A run that reaches its
    timed shutdown leaves SLEEP behind, and the next boot wakes up. While a USB
    host is connected the file system is read-only to the board: nothing is
    written and the power-on check never halts (the timed shutdown still
    does, without writing).

    The file is a value here: None when it does not exist, Some(text) when it
    does. Whether USB is connected is a parameter. */
module Activation {
  import opened Numeric

  const Unknown: string := "UNKNOWN"
  const Active: string := "ACTIVE"
  const Sleep: string := "SLEEP"

  /** The characters `str.strip()` removes: space and `\t` through `\r`. */
  predicate IsSpace(c: char)
  {
    c == ' ' || '\t' <= c <= '\r'
  }

  /** `s` without its leading whitespace. */
  function TrimStart(s: string): (r: string)
    ensures |r| <= |s| && r == s[|s| - |r|..]
    ensures r == [] || !IsSpace(r[0])
    ensures forall i :: 0 <= i < |s| - |r| ==> IsSpace(s[i])
  {
    if s != [] && IsSpace(s[0]) then TrimStart(s[1..]) else s
  }

  /** `s` without its trailing whitespace. */
  function TrimEnd(s: string): (r: string)
    ensures |r| <= |s| && r == s[..|r|]
    ensures r == [] || !IsSpace(r[|r| - 1])
    ensures forall i :: |r| <= i < |s| ==> IsSpace(s[i])
  {
    if s != [] && IsSpace(s[|s| - 1]) then TrimEnd(s[..|s| - 1]) else s
  }

  /** `s.strip()`: the slice of `s` left once the whitespace before and after it
      is removed; it neither starts nor ends with whitespace, and is `s` itself
      when `s` already does not. */
  function Strip(s: string): (r: string)
    ensures exists lo, hi ::
              && 0 <= lo <= hi <= |s| && r == s[lo..hi]
              && (forall i :: 0 <= i < lo ==> IsSpace(s[i]))
              && (forall i :: hi <= i < |s| ==> IsSpace(s[i]))
    ensures r == [] || (!IsSpace(r[0]) && !IsSpace(r[|r| - 1]))
    ensures s == [] || (!IsSpace(s[0]) && !IsSpace(s[|s| - 1])) ==> r == s
  {
    var t := TrimStart(s);
    var r := TrimEnd(t);
    TrimmedSlice(s, t, r);
    r
  }

  /** Trimming the start and then the end leaves a slice of `s` with only
      whitespace before and after it. */
  lemma TrimmedSlice(s: string, t: string, r: string)
    requires |t| <= |s| && t == s[|s| - |t|..] && forall i :: 0 <= i < |s| - |t| ==> IsSpace(s[i])
    requires |r| <= |t| && r == t[..|r|] && forall i :: |r| <= i < |t| ==> IsSpace(t[i])
    ensures var lo := |s| - |t|;
            && r == s[lo..lo + |r|]
            && (forall i :: 0 <= i < lo ==> IsSpace(s[i]))
            && (forall i :: lo + |r| <= i < |s| ==> IsSpace(s[i]))
  {
    var lo := |s| - |t|;
    forall i | lo + |r| <= i < |s|
      ensures IsSpace(s[i])
    {
      assert s[i] == t[i - lo];
    }
  }

  /** Stripping a line written with a trailing newline gives the token back. */
  lemma StripNewline(token: string)
    requires token != [] && !IsSpace(token[0]) && !IsSpace(token[|token| - 1])
    ensures Strip(token + "\n") == token
  {
    var s := token + "\n";
    assert TrimStart(s) == s;
    assert s[..|s| - 1] == token;
  }

  /** `get_last_state()`: the stripped content of the state file, or UNKNOWN when
      there is none. */
  function LastState(file: Option<string>): (state: string)
    ensures file.None? ==> state == Unknown
    ensures file.Some? ==> exists lo, hi :: 0 <= lo <= hi <= |file.value| && state == file.value[lo..hi]
    ensures file == Some(Active) ==> state == Active
    ensures file == Some(Sleep) ==> state == Sleep
  {
    match file
    case None => Unknown
    case Some(text) => Strip(text)
  }

  /** `set_state(state)`: the file afterwards. With USB connected nothing is
      written; otherwise the file holds exactly `state`. */
  function Persist(file: Option<string>, state: string, usb: bool): (after: Option<string>)
    ensures usb ==> after == file
    ensures !usb ==> after.Some? && after.value == state
  {
    if usb then file else Some(state)
  }

  /** What `set_state` writes, `get_last_state` reads back, for any state without
      surrounding whitespace (ACTIVE and SLEEP among them); with USB connected
      the previous state is read instead. */
  lemma WrittenStateReadsBack(file: Option<string>, state: string, usb: bool)
    requires state == [] || (!IsSpace(state[0]) && !IsSpace(state[|state| - 1]))
    ensures LastState(Persist(file, state, usb)) == if usb then LastState(file) else state
  {
  }

  /** `init_state_file()` as the application runs it while building itself (only
      without USB): a missing file is created holding ACTIVE; an existing one is
      left alone. */
  function BootStorage(file: Option<string>, usb: bool): (after: Option<string>)
    ensures file.Some? || usb ==> after == file
    ensures file.None? && !usb ==> after == Some(Active)
  {
    if !usb && file.None? then Persist(file, Active, usb) else file
  }

  /** How `run()` ends before its scheduler starts: it halts (and the board
      waits forever) or it schedules the animations. */
  datatype RunOutcome = Halted | Scheduled

  /** `run()`'s decision and the file after it. A stored ACTIVE without USB
      halts, and `halt()` stores SLEEP; a stored SLEEP wakes up and stores
      ACTIVE; anything else runs with the file untouched. */
  function Startup(file: Option<string>, usb: bool): (r: (RunOutcome, Option<string>))
    ensures usb ==> r.1 == file
    ensures r.0 == Halted <==> LastState(file) == Active && !usb
    ensures r.0 == Halted ==> r.1 == Some(Sleep)
    ensures LastState(file) == Sleep && !usb ==> r == (Scheduled, Some(Active))
    ensures LastState(file) != Active && LastState(file) != Sleep ==> r == (Scheduled, file)
  {
    var state := LastState(file);
    if state == Active && !usb then (Halted, Persist(file, Sleep, usb))
    else if state == Sleep then (Scheduled, Persist(file, Active, usb))
    else (Scheduled, file)
  }

  /** Building the application and calling `run()`, from power-on. The board
      goes to sleep exactly when no USB host is connected and the file is
      missing or says ACTIVE. */
  function PowerOn(file: Option<string>, usb: bool): (r: (RunOutcome, Option<string>))
    ensures r.0 == Halted <==> !usb && (file.None? || LastState(file) == Active)
    ensures r.0 == Halted ==> r.1 == Some(Sleep)
  {
    Startup(BootStorage(file, usb), usb)
  }

  /** The timed shutdown at the end of a full run: `halt()`'s write. */
  function Shutdown(file: Option<string>, usb: bool): (after: Option<string>)
    ensures !usb ==> after == Some(Sleep)
    ensures usb ==> after == file
  {
    Persist(file, Sleep, usb)
  }

  /** The very first boot without USB creates the file holding ACTIVE, reads it
      back as ACTIVE and therefore goes straight to sleep: a fresh board stays
      dark until the second power-on. */
  lemma FirstBootSleeps()
    ensures PowerOn(None, false) == (Halted, Some(Sleep))
  {
  }

  /** With USB connected the power-on check never halts and nothing is written. */
  lemma UsbPowerOnRunsWithoutWriting(file: Option<string>)
    ensures PowerOn(file, true) == (Scheduled, file)
  {
  }

  /** A stored SLEEP wakes the board up, storing ACTIVE. */
  lemma SleepWakes(file: Option<string>, usb: bool)
    requires LastState(file) == Sleep
    ensures PowerOn(file, usb).0 == Scheduled
    ensures !usb ==> PowerOn(file, usb).1 == Some(Active)
  {
  }

  /** The button: when a woken-up run is cut short (the file still says ACTIVE),
      the next power-on without USB goes to sleep. */
  lemma InterruptedRunStopsNextBoot(file: Option<string>)
    requires LastState(file) == Sleep
    ensures PowerOn(PowerOn(file, false).1, false) == (Halted, Some(Sleep))
  {
    assert PowerOn(file, false).1 == Some(Active);
    assert LastState(Some(Active)) == Active;
    assert BootStorage(Some(Active), false) == Some(Active);
  }

  /** A run that reaches its timed shutdown leaves SLEEP behind, so the next
      power-on runs again. */
  lemma CompletedRunWakesNextBoot(file: Option<string>)
    requires PowerOn(file, false).0 == Scheduled
    ensures PowerOn(Shutdown(PowerOn(file, false).1, false), false) == (Scheduled, Some(Active))
  {
  }

  /** Without USB, power-ons alternate while the file is missing or holds one
      of the two tokens: a halted boot leaves SLEEP, so the next one runs; a
      running boot cut short leaves ACTIVE, so the next one halts. */
  lemma {:induction false} BootsAlternate(file: Option<string>)
    requires file.None? || LastState(file) == Active || LastState(file) == Sleep
    ensures PowerOn(file, false).0 == Halted ==> PowerOn(PowerOn(file, false).1, false).0 == Scheduled
    ensures PowerOn(file, false).0 == Scheduled ==> PowerOn(PowerOn(file, false).1, false).0 == Halted
  {
    var stored := BootStorage(file, false);
    assert LastState(stored) == Active || LastState(stored) == Sleep;
    assert |Active| != |Sleep|;
    var after := PowerOn(file, false).1;
    if LastState(stored) == Active {
      assert after == Some(Sleep);
      assert LastState(BootStorage(after, false)) == Sleep;
    } else {
      assert after == Some(Active);
      assert LastState(BootStorage(after, false)) == Active;
    }
  }

  /** A file holding anything else is neither state: every boot runs and leaves
      it untouched, until a run reaches its timed shutdown and stores SLEEP. */
  lemma UnrecognisedFileAlwaysRuns(file: Option<string>, usb: bool)
    requires file.Some? && LastState(file) != Active && LastState(file) != Sleep
    ensures PowerOn(file, usb) == (Scheduled, file)
  {
  }
}
