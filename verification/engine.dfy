/**
 * The macro engine (`class MacroEngine`): it plays a macro's actions through
 * the keyboard and mouse library, tracks the keys it holds down, and obeys
 * stop requests, the trigger-key state and the focus of the target window.
 *
 * Calls into the input library and sleeps are recorded as `Event`s. What
 * other threads and the system tell the engine arrives through an `Env`,
 * queried at the engine's numbered checks (`tick`): before each action and
 * before each pass of a repeating macro.
 */
module Engine {
  import opened Wrappers
  import opened Model
  import opened Config

  /** A call into the input library, or a sleep (in microseconds). */
  datatype Event =
    | KeyPressed(key: Key)
    | KeyReleased(key: Key)
    | KeyTapped(key: Key)
    | MouseClicked(button: Button)
    | MouseDoubleClicked(button: Button)
    | Slept(us: int)

  /**
   * What the engine learns at its n-th check: whether `stop_macro` has been
   * called from another thread since the previous check, whether the trigger
   * key is still held (`key_state_checker`), and whether the target window is
   * in front (`WindowMonitor.is_target_window_active`).
   */
  datatype Env = Env(stopRequested: nat -> bool, keyHeld: nat -> bool, windowActive: nat -> bool)

  predicate NoDuplicates(keys: seq<Key>) {
    forall i, j :: 0 <= i < j < |keys| ==> keys[i] != keys[j]
  }

  /** The engine's fields that the actions change, and the calls made so far. */
  datatype EngineState = EngineState(pressed: seq<Key>, stopFlag: bool, events: seq<Event>, tick: nat)

  function Released(keys: seq<Key>): seq<Event> {
    seq(|keys|, i requires 0 <= i < |keys| => KeyReleased(keys[i]))
  }

  function PressedEvents(keys: seq<Key>): seq<Event> {
    seq(|keys|, i requires 0 <= i < |keys| => KeyPressed(keys[i]))
  }

  /** `list.remove(key)`: the first occurrence taken out. */
  function Remove(keys: seq<Key>, key: Key): seq<Key>
    requires key in keys
  {
    if keys[0] == key then keys[1..] else [keys[0]] + Remove(keys[1..], key)
  }

  /** The tracked keys after an action: keydown adds a key once, keyup takes it out. */
  function Tracked(pressed: seq<Key>, a: Action): seq<Key> {
    match a
    case KeyDown(k) => if k in pressed then pressed else pressed + [k]
    case KeyUp(k) => if k in pressed then Remove(pressed, k) else pressed
    case _ => pressed
  }

  /** `count` rounds of `press_and_release` followed by the press interval. */
  function Taps(key: Key, count: nat): seq<Event> {
    if count == 0 then [] else [KeyTapped(key), Slept(KeyPressInterval)] + Taps(key, count - 1)
  }

  /** The sleeps of an interruptible delay: slices of at most `DelayCheckInterval`. */
  function DelaySlices(d: int): seq<Event>
    decreases d
  {
    if d <= 0 then []
    else
      var slice := if d < DelayCheckInterval then d else DelayCheckInterval;
      [Slept(slice)] + DelaySlices(d - slice)
  }

  /**
   * The calls one action makes when no stop interrupts it. A hold with a
   * negative duration stops after the press: `time.sleep` raises, and the
   * handler swallows the error.
   */
  function ActionEvents(a: Action): seq<Event> {
    match a
    case Press(k) => Taps(k, 1)
    case Hold(k, d) => [KeyPressed(k)] + (if d >= 0 then [Slept(d), KeyReleased(k)] else [])
    case Delay(d) => DelaySlices(d)
    case KeyDown(k) => [KeyPressed(k)]
    case KeyUp(k) => [KeyReleased(k)]
    case Click(b) => [MouseClicked(b)]
    case DoubleClick(b) => [MouseDoubleClicked(b)]
  }

  /** How many checks an action makes when no stop interrupts it. */
  function ActionChecks(a: Action): nat {
    match a
    case Press(_) => 1
    case Delay(d) => |DelaySlices(d)|
    case _ => 0
  }

  /**
   * `_handle_press`: `count` rounds, each reading the stop flag again first
   * (a check), then tapping the key and waiting the press interval.
   */
  function TapRun(s: EngineState, env: Env, key: Key, count: nat): EngineState
    decreases count
  {
    if count == 0 then s
    else
      var s' := Checkpoint(s, env);
      if s'.stopFlag then s'
      else TapRun(s'.(events := s'.events + [KeyTapped(key), Slept(KeyPressInterval)]), env, key, count - 1)
  }

  /**
   * `_handle_delay`: while time is left, read the stop flag again (a check)
   * and sleep one slice of at most `DelayCheckInterval`.
   */
  function DelayRun(s: EngineState, env: Env, d: int): EngineState
    decreases d
  {
    if d <= 0 then s
    else
      var s' := Checkpoint(s, env);
      if s'.stopFlag then s'
      else
        var slice := if d < DelayCheckInterval then d else DelayCheckInterval;
        DelayRun(s'.(events := s'.events + [Slept(slice)]), env, d - slice)
  }

  /** `execute_action`: nothing once the stop flag is up; otherwise the action's handler. */
  function Perform(s: EngineState, env: Env, a: Action): EngineState {
    if s.stopFlag then s
    else
      match a
      case Press(k) => TapRun(s, env, k, 1)
      case Delay(d) => DelayRun(s, env, d)
      case _ => s.(pressed := Tracked(s.pressed, a), events := s.events + ActionEvents(a))
  }

  /** `reset_keys`: every tracked key released, then the modifiers when forced. */
  function Reset(s: EngineState, force: bool): EngineState {
    s.(pressed := [],
       events := s.events + Released(s.pressed) + (if force then Released(ForceReleaseModifierKeys) else []))
  }

  /** `stop_macro`. */
  function Stop(s: EngineState): EngineState {
    Reset(s.(stopFlag := true), false)
  }

  /** A check: a stop requested meanwhile is carried out, and the check is counted. */
  function Checkpoint(s: EngineState, env: Env): EngineState {
    (if env.stopRequested(s.tick) then Stop(s) else s).(tick := s.tick + 1)
  }

  /** The `start_actions` and `finish_actions` loops: check, then act, until stopped. */
  function RunList(s: EngineState, env: Env, acts: seq<Action>): EngineState
    decreases |acts|
  {
    if acts == [] then s
    else
      var s' := Checkpoint(s, env);
      if s'.stopFlag then s' else RunList(Perform(s', env, acts[0]), env, acts[1..])
  }

  /**
   * `run_actions`: one pass over the actions. Before each action it checks the
   * stop flag, the trigger key and the window; a lost window forces a reset.
   * The flag says whether the pass got through the whole list.
   */
  function Pass(s: EngineState, env: Env, acts: seq<Action>, skipWindowCheck: bool): (EngineState, bool)
    decreases |acts|
  {
    if acts == [] then (s, true)
    else
      var t := s.tick;
      var s' := Checkpoint(s, env);
      if s'.stopFlag || !env.keyHeld(t) then (s', false)
      else if !skipWindowCheck && !env.windowActive(t) then (Reset(s', true), false)
      else Pass(Perform(s', env, acts[0]), env, acts[1..], skipWindowCheck)
  }

  /**
   * The loop of the `loop` and `hold` modes, allowed `fuel` more passes;
   * `passes` counts the passes begun. The flag says the fuel ran out.
   */
  function Repeat(s: EngineState, env: Env, acts: seq<Action>, skipWindowCheck: bool, fuel: nat, passes: nat)
    : (EngineState, nat, bool)
    decreases fuel
  {
    if fuel == 0 then (s, passes, true)
    else
      var t := s.tick;
      var s' := Checkpoint(s, env);
      if s'.stopFlag || !env.keyHeld(t) then (s', passes, false)
      else
        var p := Pass(s', env, acts, skipWindowCheck);
        if !p.1 then (p.0, passes + 1, false)
        else Repeat(p.0, env, acts, skipWindowCheck, fuel - 1, passes + 1)
  }

  /** The start of `execute_macro`: flag down, and the optional reset with the extra keys pressed again. */
  function Prepare(s: EngineState, m: Macro, extra: seq<Key>): EngineState {
    var s0 := s.(stopFlag := false);
    if m.resetKeys then
      var s1 := Reset(s0, true);
      s1.(events := s1.events + PressedEvents(extra))
    else s0
  }

  /** The main part of `execute_macro`: one pass, or the repeat loop. */
  function Body(s: EngineState, env: Env, m: Macro, mode: RepeatMode, fuel: nat): (EngineState, nat, bool) {
    if mode == OnceMode then (Pass(s, env, m.actions, m.skipWindowCheck).0, 1, false)
    else Repeat(s, env, m.actions, m.skipWindowCheck, fuel, 0)
  }

  /** How a run of `execute_macro` went. */
  datatype Report = Report(passes: nat, outOfFuel: bool, finishRan: bool)

  /** `execute_macro`, up to where the fuel of a repeating macro runs out. */
  function Execute(s: EngineState, env: Env, m: Macro, mode: RepeatMode, extra: seq<Key>, fuel: nat)
    : (EngineState, Report)
  {
    var b := Body(RunList(Prepare(s, m, extra), env, m.startActions), env, m, mode, fuel);
    if b.2 then (b.0, Report(b.1, true, false))
    else if m.finishActions != [] && !b.0.stopFlag then (RunList(b.0, env, m.finishActions), Report(b.1, false, true))
    else (b.0, Report(b.1, false, false))
  }

  class MacroEngine {
    var pressedKeys: seq<Key>
    var stopFlag: bool
    var running: bool
    var events: seq<Event>
    var tick: nat

    function State(): EngineState
      reads this
    {
      EngineState(pressedKeys, stopFlag, events, tick)
    }

    /** `pressed_keys` never holds a key twice. */
    predicate Valid()
      reads this
    {
      NoDuplicates(pressedKeys)
    }

    constructor ()
      ensures State() == EngineState([], false, [], 0) && !running && Valid()
    {
      pressedKeys := [];
      stopFlag := false;
      running := false;
      events := [];
      tick := 0;
    }

    /** `_handle_press`: up to `count` taps, the stop flag read again before each. */
    method HandlePress(key: Key, count: nat, env: Env)
      requires Valid()
      modifies this`pressedKeys, this`events, this`stopFlag, this`tick
      ensures Valid() && State() == TapRun(old(State()), env, key, count)
    {
      for i := 0 to count
        invariant Valid()
        invariant TapRun(State(), env, key, count - i) == TapRun(old(State()), env, key, count)
      {
        Poll(env);
        if stopFlag {
          return;
        }
        events := events + [KeyTapped(key), Slept(KeyPressInterval)];
      }
    }

    /** `_handle_hold`: press, sleep, release; a negative duration raises after the press. */
    method HandleHold(key: Key, duration: int)
      modifies this`events
      ensures events == old(events) + ActionEvents(Hold(key, duration))
    {
      events := events + [KeyPressed(key)];
      if duration >= 0 {
        events := events + [Slept(duration), KeyReleased(key)];
      }
    }

    /** `_handle_delay`: sleeps in slices, reading the stop flag again before each. */
    method HandleDelay(duration: int, env: Env)
      requires Valid()
      modifies this`pressedKeys, this`events, this`stopFlag, this`tick
      ensures Valid() && State() == DelayRun(old(State()), env, duration)
    {
      var elapsed := 0;
      while elapsed < duration
        invariant 0 <= elapsed && (duration > 0 ==> elapsed <= duration)
        invariant Valid()
        invariant DelayRun(State(), env, duration - elapsed) == DelayRun(old(State()), env, duration)
        decreases duration - elapsed
      {
        Poll(env);
        if stopFlag {
          return;
        }
        var remaining := duration - elapsed;
        var sleepTime := if DelayCheckInterval < remaining then DelayCheckInterval else remaining;
        events := events + [Slept(sleepTime)];
        elapsed := elapsed + sleepTime;
      }
    }

    /** `_handle_click`. */
    method HandleClick(button: Button)
      modifies this`events
      ensures events == old(events) + [MouseClicked(button)]
    {
      events := events + [MouseClicked(button)];
    }

    /** `_handle_doubleclick`. */
    method HandleDoubleClick(button: Button)
      modifies this`events
      ensures events == old(events) + [MouseDoubleClicked(button)]
    {
      events := events + [MouseDoubleClicked(button)];
    }

    /** `_handle_keydown`: press, and track the key unless it is tracked already. */
    method HandleKeyDown(key: Key)
      requires Valid()
      modifies this`pressedKeys, this`events
      ensures Valid() && key in pressedKeys
      ensures pressedKeys == Tracked(old(pressedKeys), KeyDown(key))
      ensures events == old(events) + [KeyPressed(key)]
    {
      events := events + [KeyPressed(key)];
      if key !in pressedKeys {
        pressedKeys := pressedKeys + [key];
      }
      TrackedKeepsNoDuplicates(old(pressedKeys), KeyDown(key));
    }

    /** `_handle_keyup`: release, and stop tracking the key. */
    method HandleKeyUp(key: Key)
      requires Valid()
      modifies this`pressedKeys, this`events
      ensures Valid() && key !in pressedKeys
      ensures pressedKeys == Tracked(old(pressedKeys), KeyUp(key))
      ensures events == old(events) + [KeyReleased(key)]
    {
      events := events + [KeyReleased(key)];
      if key in pressedKeys {
        RemoveTakesOut(pressedKeys, key);
        pressedKeys := Remove(pressedKeys, key);
      }
      TrackedKeepsNoDuplicates(old(pressedKeys), KeyUp(key));
    }

    /** `reset_keys`: releases the tracked keys, forgets them, and releases the modifiers when forced. */
    method ResetKeys(force: bool)
      modifies this`pressedKeys, this`events
      ensures pressedKeys == [] && Valid()
      ensures events == old(events) + Released(old(pressedKeys)) +
        (if force then Released(ForceReleaseModifierKeys) else [])
    {
      ReleaseEach(pressedKeys);
      pressedKeys := [];
      if force {
        ReleaseEach(ForceReleaseModifierKeys);
      }
    }

    /** `keyboard.release` on each key in turn. */
    method ReleaseEach(keys: seq<Key>)
      modifies this`events
      ensures events == old(events) + Released(keys)
    {
      for i := 0 to |keys|
        invariant events == old(events) + Released(keys[..i])
      {
        events := events + [KeyReleased(keys[i])];
        assert Released(keys[..i + 1]) == Released(keys[..i]) + [KeyReleased(keys[i])];
      }
      assert keys[..|keys|] == keys;
    }

    /** `keyboard.press` on each key in turn. */
    method PressEach(keys: seq<Key>)
      modifies this`events
      ensures events == old(events) + PressedEvents(keys)
    {
      for i := 0 to |keys|
        invariant events == old(events) + PressedEvents(keys[..i])
      {
        events := events + [KeyPressed(keys[i])];
        assert PressedEvents(keys[..i + 1]) == PressedEvents(keys[..i]) + [KeyPressed(keys[i])];
      }
      assert keys[..|keys|] == keys;
    }

    /** `execute_action` with the default count of one, which is all it is ever given. */
    method ExecuteAction(action: Action, env: Env)
      requires Valid()
      modifies this`pressedKeys, this`events, this`stopFlag, this`tick
      ensures Valid() && State() == Perform(old(State()), env, action)
    {
      if stopFlag {
        return;
      }
      match action
      case Press(k) => HandlePress(k, 1, env);
      case Hold(k, d) => HandleHold(k, d);
      case Delay(d) => HandleDelay(d, env);
      case Click(b) => HandleClick(b);
      case DoubleClick(b) => HandleDoubleClick(b);
      case KeyDown(k) => HandleKeyDown(k);
      case KeyUp(k) => HandleKeyUp(k);
    }

    /** The opening of `execute_macro`: lower the flag, then the optional reset. */
    method PrepareRun(m: Macro, extra: seq<Key>)
      requires Valid()
      modifies this`pressedKeys, this`events, this`stopFlag
      ensures Valid() && State() == Prepare(old(State()), m, extra)
    {
      stopFlag := false;
      if m.resetKeys {
        ResetKeys(true);
        if extra != [] {
          PressEach(extra);
        }
      }
    }

    /** `stop_macro`: raise the flag and release the tracked keys. */
    method StopMacro()
      modifies this`pressedKeys, this`events, this`stopFlag
      ensures State() == Stop(old(State()))
      ensures stopFlag && pressedKeys == []
    {
      stopFlag := true;
      ResetKeys(false);
    }

    /** One check: a stop requested since the last check takes effect now. */
    method Poll(env: Env)
      requires Valid()
      modifies this`pressedKeys, this`events, this`stopFlag, this`tick
      ensures Valid() && State() == Checkpoint(old(State()), env)
    {
      if env.stopRequested(tick) {
        StopMacro();
      }
      tick := tick + 1;
    }

    /** The `start_actions` / `finish_actions` loop. */
    method PerformEach(acts: seq<Action>, env: Env)
      requires Valid()
      modifies this`pressedKeys, this`events, this`stopFlag, this`tick
      ensures Valid() && State() == RunList(old(State()), env, acts)
    {
      for i := 0 to |acts|
        invariant Valid()
        invariant RunList(State(), env, acts[i..]) == RunList(old(State()), env, acts)
      {
        assert acts[i..][1..] == acts[i + 1..];
        Poll(env);
        if stopFlag {
          return;
        }
        ExecuteAction(acts[i], env);
      }
    }

    /** `run_actions`: one pass; false when it was cut short. */
    method RunActions(acts: seq<Action>, env: Env, skipWindowCheck: bool) returns (completed: bool)
      requires Valid()
      modifies this`pressedKeys, this`events, this`stopFlag, this`tick
      ensures Valid() && (State(), completed) == Pass(old(State()), env, acts, skipWindowCheck)
    {
      for i := 0 to |acts|
        invariant Valid()
        invariant Pass(State(), env, acts[i..], skipWindowCheck) == Pass(old(State()), env, acts, skipWindowCheck)
      {
        assert acts[i..][1..] == acts[i + 1..];
        var t := tick;
        Poll(env);
        if stopFlag || !env.keyHeld(t) {
          return false;
        }
        if !skipWindowCheck && !env.windowActive(t) {
          ResetKeys(true);
          return false;
        }
        ExecuteAction(acts[i], env);
      }
      return true;
    }

    /** The `while not self.stop_flag` loop of the `loop` and `hold` modes, bounded by `fuel`. */
    method RepeatActions(acts: seq<Action>, env: Env, skipWindowCheck: bool, fuel: nat)
      returns (passes: nat, outOfFuel: bool)
      requires Valid()
      modifies this`pressedKeys, this`events, this`stopFlag, this`tick
      ensures Valid() && (State(), passes, outOfFuel) == Repeat(old(State()), env, acts, skipWindowCheck, fuel, 0)
    {
      passes := 0;
      var left := fuel;
      while true
        invariant Valid()
        invariant Repeat(State(), env, acts, skipWindowCheck, left, passes) ==
          Repeat(old(State()), env, acts, skipWindowCheck, fuel, 0)
        decreases left
      {
        if left == 0 {
          return passes, true;
        }
        var t := tick;
        Poll(env);
        if stopFlag || !env.keyHeld(t) {
          return passes, false;
        }
        var completed := RunActions(acts, env, skipWindowCheck);
        passes := passes + 1;
        if !completed {
          return passes, false;
        }
        left := left - 1;
      }
    }

    /**
     * `execute_macro`. `extra` are the additional keys pressed again after a
     * reset; `fuel` bounds the passes of a repeating macro, and a run that
     * exhausts it stops there with the engine still running.
     */
    method ExecuteMacro(m: Macro, mode: RepeatMode, env: Env, extra: seq<Key>, fuel: nat) returns (report: Report)
      requires Valid()
      modifies this
      ensures Valid() && (State(), report) == Execute(old(State()), env, m, mode, extra, fuel)
      ensures running == report.outOfFuel
    {
      running := true;
      PrepareRun(m, extra);
      ghost var prepared := State();
      if m.startActions != [] {
        PerformEach(m.startActions, env);
      }
      ghost var started := State();
      assert started == RunList(prepared, env, m.startActions);
      var passes: nat := 1;
      var outOfFuel := false;
      if mode == OnceMode {
        var _ := RunActions(m.actions, env, m.skipWindowCheck);
      } else {
        passes, outOfFuel := RepeatActions(m.actions, env, m.skipWindowCheck, fuel);
      }
      ghost var b := Body(started, env, m, mode, fuel);
      assert (State(), passes, outOfFuel) == b;
      if outOfFuel {
        return Report(passes, true, false);
      }
      var finishRan := false;
      if m.finishActions != [] && !stopFlag {
        PerformEach(m.finishActions, env);
        finishRan := true;
      }
      running := false;
      return Report(passes, false, finishRan);
    }
  }

  // Properties of the tracked keys

  lemma {:induction false} RemoveTakesOut(keys: seq<Key>, key: Key)
    requires key in keys && NoDuplicates(keys)
    ensures NoDuplicates(Remove(keys, key))
    ensures forall k :: k in Remove(keys, key) <==> k in keys && k != key
    decreases |keys|
  {
    if keys[0] != key {
      assert NoDuplicates(keys[1..]) by {
        forall i, j | 0 <= i < j < |keys| - 1 ensures keys[1..][i] != keys[1..][j] {
          assert keys[1..][i] == keys[i + 1] && keys[1..][j] == keys[j + 1];
        }
      }
      RemoveTakesOut(keys[1..], key);
      var r := Remove(keys[1..], key);
      forall j | 0 <= j < |keys| - 1 ensures keys[1..][j] != keys[0] {
        assert keys[1..][j] == keys[j + 1];
      }
      assert Remove(keys, key) == [keys[0]] + r;
      forall i, j | 0 <= i < j < |[keys[0]] + r| ensures ([keys[0]] + r)[i] != ([keys[0]] + r)[j] {
        if i == 0 {
          assert ([keys[0]] + r)[j] == r[j - 1];
          assert r[j - 1] in r;
        }
      }
      forall k ensures k in Remove(keys, key) <==> k in keys && k != key {
        assert k in keys <==> k == keys[0] || k in keys[1..];
      }
    } else {
      forall k ensures k in keys[1..] <==> k in keys && k != key {
        if k in keys[1..] {
          var j :| 0 <= j < |keys[1..]| && keys[1..][j] == k;
          assert keys[j + 1] == k;
        }
        assert k in keys <==> k == keys[0] || k in keys[1..];
      }
      forall i, j | 0 <= i < j < |keys| - 1 ensures keys[1..][i] != keys[1..][j] {
        assert keys[1..][i] == keys[i + 1] && keys[1..][j] == keys[j + 1];
      }
    }
  }

  /** Every action keeps the tracked keys free of duplicates. */
  lemma TrackedKeepsNoDuplicates(pressed: seq<Key>, a: Action)
    requires NoDuplicates(pressed)
    ensures NoDuplicates(Tracked(pressed, a))
  {
    match a
    case KeyDown(k) =>
      if k !in pressed {
        var r := pressed + [k];
        forall i, j | 0 <= i < j < |r| ensures r[i] != r[j] {
          if j == |pressed| {
            assert r[i] == pressed[i];
          }
        }
      }
    case KeyUp(k) =>
      if k in pressed {
        RemoveTakesOut(pressed, k);
      }
    case _ =>
  }

  /** After a keydown the key is tracked; after a keyup it is not; no other key changes. */
  lemma KeyDownAndUp(pressed: seq<Key>, k: Key)
    requires NoDuplicates(pressed)
    ensures k in Tracked(pressed, KeyDown(k))
    ensures forall j :: j != k ==> (j in Tracked(pressed, KeyDown(k)) <==> j in pressed)
    ensures k !in Tracked(pressed, KeyUp(k))
    ensures forall j :: j != k ==> (j in Tracked(pressed, KeyUp(k)) <==> j in pressed)
  {
    if k in pressed {
      RemoveTakesOut(pressed, k);
    }
  }

  /** A keydown of a key already held neither presses it twice in the list nor moves it. */
  lemma KeyDownTwiceTracksOnce(pressed: seq<Key>, k: Key)
    ensures Tracked(Tracked(pressed, KeyDown(k)), KeyDown(k)) == Tracked(pressed, KeyDown(k))
  {
  }

  // Properties of delays and holds

  /** The total of the sleeps among some calls. */
  function SleptTotal(es: seq<Event>): int {
    if es == [] then 0 else (if es[0].Slept? then es[0].us else 0) + SleptTotal(es[1..])
  }

  /**
   * An interruptible delay sleeps exactly its duration (nothing when it is not
   * positive), in slices of at most `DelayCheckInterval`, as few as possible.
   */
  lemma {:induction false} DelaySlicesAddUp(d: int)
    ensures SleptTotal(DelaySlices(d)) == (if d > 0 then d else 0)
    ensures forall e <- DelaySlices(d) :: e.Slept? && 0 < e.us <= DelayCheckInterval
    ensures |DelaySlices(d)| == (if d > 0 then (d + DelayCheckInterval - 1) / DelayCheckInterval else 0)
    decreases d
  {
    if d > 0 {
      var slice := if d < DelayCheckInterval then d else DelayCheckInterval;
      DelaySlicesAddUp(d - slice);
      assert DelaySlices(d)[1..] == DelaySlices(d - slice);
    }
  }

  /**
   * A hold with a negative duration presses the key and never releases it, and
   * the key is not tracked, so a later reset does not release it either.
   */
  lemma NegativeHoldLeavesKeyDown(s: EngineState, env: Env, k: Key, d: int)
    requires !s.stopFlag && d < 0 && k !in s.pressed
    ensures var held := Perform(s, env, Hold(k, d));
      held.events == s.events + [KeyPressed(k)] && k !in held.pressed &&
      KeyReleased(k) !in Reset(held, false).events[|s.events|..]
  {
    var held := Perform(s, env, Hold(k, d));
    var after := Reset(held, false).events[|s.events|..];
    assert after == [KeyPressed(k)] + Released(s.pressed);
  }

  /** A press run that no check stops taps the key `count` times, one check per tap. */
  lemma {:induction false} TapRunUninterrupted(s: EngineState, env: Env, key: Key, count: nat)
    requires !s.stopFlag
    requires forall t: nat :: s.tick <= t < s.tick + count ==> !env.stopRequested(t)
    ensures TapRun(s, env, key, count) == s.(events := s.events + Taps(key, count), tick := s.tick + count)
    decreases count
  {
    if count > 0 {
      assert Checkpoint(s, env) == s.(tick := s.tick + 1);
      var next := s.(events := s.events + [KeyTapped(key), Slept(KeyPressInterval)], tick := s.tick + 1);
      TapRunUninterrupted(next, env, key, count - 1);
      assert next.events + Taps(key, count - 1) == s.events + Taps(key, count);
    }
  }

  /**
   * A stop requested at the `k`-th check of a press run ends it there: `k`
   * taps are made and no more, and `stop_macro` releases the tracked keys.
   */
  lemma {:induction false} TapRunInterrupted(s: EngineState, env: Env, key: Key, count: nat, k: nat)
    requires !s.stopFlag && k < count
    requires forall t: nat :: s.tick <= t < s.tick + k ==> !env.stopRequested(t)
    requires env.stopRequested(s.tick + k)
    ensures TapRun(s, env, key, count) == Stop(s.(events := s.events + Taps(key, k))).(tick := s.tick + k + 1)
    decreases k
  {
    if k == 0 {
      assert s.(events := s.events + Taps(key, 0)) == s;
    } else {
      assert Checkpoint(s, env) == s.(tick := s.tick + 1);
      var next := s.(events := s.events + [KeyTapped(key), Slept(KeyPressInterval)], tick := s.tick + 1);
      TapRunInterrupted(next, env, key, count - 1, k - 1);
      assert next.events + Taps(key, k - 1) == s.events + Taps(key, k);
    }
  }

  /** A delay that no check stops sleeps all its slices, one check per slice. */
  lemma {:induction false} DelayUninterrupted(s: EngineState, env: Env, d: int)
    requires !s.stopFlag
    requires forall t: nat :: s.tick <= t < s.tick + |DelaySlices(d)| ==> !env.stopRequested(t)
    ensures DelayRun(s, env, d) == s.(events := s.events + DelaySlices(d), tick := s.tick + |DelaySlices(d)|)
    decreases d
  {
    if d > 0 {
      var slice := if d < DelayCheckInterval then d else DelayCheckInterval;
      assert DelaySlices(d) == [Slept(slice)] + DelaySlices(d - slice);
      assert Checkpoint(s, env) == s.(tick := s.tick + 1);
      var next := s.(events := s.events + [Slept(slice)], tick := s.tick + 1);
      DelayUninterrupted(next, env, d - slice);
      assert next.events + DelaySlices(d - slice) == s.events + DelaySlices(d);
    }
  }

  /**
   * A stop requested while a delay runs takes effect at the next check: when
   * the `k`-th check sees it, the first `k` slices are slept and no more, and
   * `stop_macro` releases the tracked keys. Since every slice is at most
   * `DelayCheckInterval`, a stop waits at most that long.
   */
  lemma {:induction false} DelayInterrupted(s: EngineState, env: Env, d: int, k: nat)
    requires !s.stopFlag && k < |DelaySlices(d)|
    requires forall t: nat :: s.tick <= t < s.tick + k ==> !env.stopRequested(t)
    requires env.stopRequested(s.tick + k)
    ensures DelayRun(s, env, d) == Stop(s.(events := s.events + DelaySlices(d)[..k])).(tick := s.tick + k + 1)
    decreases k
  {
    var slice := if d < DelayCheckInterval then d else DelayCheckInterval;
    assert DelaySlices(d) == [Slept(slice)] + DelaySlices(d - slice);
    if k == 0 {
      assert s.(events := s.events + DelaySlices(d)[..0]) == s;
    } else {
      assert Checkpoint(s, env) == s.(tick := s.tick + 1);
      var next := s.(events := s.events + [Slept(slice)], tick := s.tick + 1);
      DelayInterrupted(next, env, d - slice, k - 1);
      assert DelaySlices(d)[..k] == [Slept(slice)] + DelaySlices(d - slice)[..k - 1];
      assert next.events + DelaySlices(d - slice)[..k - 1] == s.events + DelaySlices(d)[..k];
    }
  }

  /** An action that no check stops makes its calls and updates the tracked keys. */
  lemma PerformWithoutStop(s: EngineState, env: Env, a: Action)
    requires !s.stopFlag
    requires forall t: nat :: s.tick <= t < s.tick + ActionChecks(a) ==> !env.stopRequested(t)
    ensures Perform(s, env, a) ==
      s.(pressed := Tracked(s.pressed, a), events := s.events + ActionEvents(a), tick := s.tick + ActionChecks(a))
  {
    match a
    case Press(k) =>
      TapRunUninterrupted(s, env, k, 1);
    case Delay(d) =>
      DelayUninterrupted(s, env, d);
    case _ =>
  }

  // Properties of whole runs

  /** No other thread ever calls `stop_macro`. */
  ghost predicate NoStop(env: Env) {
    forall t: nat :: !env.stopRequested(t)
  }

  /** Nothing interrupts: no stop, the trigger key held, the window in front. */
  const Undisturbed: Env := Env(t => false, t => true, t => true)

  /** The calls the actions make, one after the other. */
  function AllEvents(acts: seq<Action>): seq<Event> {
    if acts == [] then [] else ActionEvents(acts[0]) + AllEvents(acts[1..])
  }

  /** The calls of `n` passes over a list. */
  function Passes(es: seq<Event>, n: nat): seq<Event> {
    if n == 0 then [] else es + Passes(es, n - 1)
  }

  /** The checks a list of actions makes when nothing interrupts it: one before each action, and the action's own. */
  function ListChecks(acts: seq<Action>): nat {
    if acts == [] then 0 else 1 + ActionChecks(acts[0]) + ListChecks(acts[1..])
  }

  /** Without a stop, a start or finish loop performs every action. */
  lemma RunListWithoutStop(s: EngineState, env: Env, acts: seq<Action>)
    requires NoStop(env) && !s.stopFlag
    ensures var r := RunList(s, env, acts);
      !r.stopFlag && r.events == s.events + AllEvents(acts) && r.tick == s.tick + ListChecks(acts)
  {
    RunListIgnoresQuietEnv(s, env, acts);
    RunListQuiet(s, acts);
    RunListTicks(s, acts);
  }

  /** A loop never told to stop runs as it would undisturbed. */
  lemma {:induction false} RunListIgnoresQuietEnv(s: EngineState, env: Env, acts: seq<Action>)
    requires NoStop(env)
    ensures RunList(s, env, acts) == RunList(s, Undisturbed, acts)
    decreases |acts|
  {
    if acts != [] {
      assert !env.stopRequested(s.tick);
      var s' := Checkpoint(s, env);
      assert s' == Checkpoint(s, Undisturbed);
      if !s'.stopFlag {
        PerformWithoutStop(s', env, acts[0]);
        PerformWithoutStop(s', Undisturbed, acts[0]);
        RunListIgnoresQuietEnv(Perform(s', env, acts[0]), env, acts[1..]);
      }
    }
  }

  lemma {:induction false} RunListQuiet(s: EngineState, acts: seq<Action>)
    requires !s.stopFlag
    ensures var r := RunList(s, Undisturbed, acts);
      !r.stopFlag && r.events == s.events + AllEvents(acts)
    decreases |acts|
  {
    if acts != [] {
      var s2 := RunListStep(s, acts);
      RunListQuiet(s2, acts[1..]);
      assert s2.events + AllEvents(acts[1..]) == s.events + AllEvents(acts);
    }
  }

  lemma {:induction false} RunListTicks(s: EngineState, acts: seq<Action>)
    requires !s.stopFlag
    ensures RunList(s, Undisturbed, acts).tick == s.tick + ListChecks(acts)
    decreases |acts|
  {
    if acts != [] {
      var s2 := RunListStep(s, acts);
      RunListQuiet(s2, acts[1..]);
      RunListTicks(s2, acts[1..]);
      assert s2.tick + ListChecks(acts[1..]) == s.tick + ListChecks(acts);
    }
  }

  /** One unstopped step of a start or finish loop: the first action is performed. */
  lemma RunListStep(s: EngineState, acts: seq<Action>) returns (next: EngineState)
    requires acts != [] && !s.stopFlag
    ensures RunList(s, Undisturbed, acts) == RunList(next, Undisturbed, acts[1..])
    ensures !next.stopFlag && next.tick == s.tick + 1 + ActionChecks(acts[0])
    ensures next.events == s.events + ActionEvents(acts[0])
    ensures AllEvents(acts) == ActionEvents(acts[0]) + AllEvents(acts[1..])
    ensures ListChecks(acts) == 1 + ActionChecks(acts[0]) + ListChecks(acts[1..])
  {
    var s1 := s.(tick := s.tick + 1);
    assert Checkpoint(s, Undisturbed) == s1;
    PerformWithoutStop(s1, Undisturbed, acts[0]);
    next := Perform(s1, Undisturbed, acts[0]);
  }

  /** A stop flag never goes down inside a start or finish loop. */
  lemma {:induction false} RunListKeepsStop(s: EngineState, env: Env, acts: seq<Action>)
    requires s.stopFlag
    ensures RunList(s, env, acts).stopFlag
  {
  }

  /** An uninterrupted pass performs every action and completes. */
  lemma PassQuiet(s: EngineState, acts: seq<Action>, skipWindowCheck: bool)
    requires !s.stopFlag
    ensures var r := Pass(s, Undisturbed, acts, skipWindowCheck);
      r.1 && !r.0.stopFlag && r.0.events == s.events + AllEvents(acts) && r.0.tick == s.tick + ListChecks(acts)
  {
    QuietPassRunsList(s, acts, skipWindowCheck);
    RunListQuiet(s, acts);
    RunListTicks(s, acts);
  }

  /** Undisturbed, a pass does what a start or finish loop does, and completes. */
  lemma {:induction false} QuietPassRunsList(s: EngineState, acts: seq<Action>, skipWindowCheck: bool)
    requires !s.stopFlag
    ensures Pass(s, Undisturbed, acts, skipWindowCheck) == (RunList(s, Undisturbed, acts), true)
    decreases |acts|
  {
    if acts != [] {
      var s1 := Checkpoint(s, Undisturbed);
      assert s1 == s.(tick := s.tick + 1);
      PerformWithoutStop(s1, Undisturbed, acts[0]);
      QuietPassRunsList(Perform(s1, Undisturbed, acts[0]), acts[1..], skipWindowCheck);
    }
  }

  /** Without a stop, a pass ends with the flag down, however it ends. */
  lemma {:induction false} PassWithoutStop(s: EngineState, env: Env, acts: seq<Action>, skipWindowCheck: bool)
    requires NoStop(env) && !s.stopFlag
    ensures !Pass(s, env, acts, skipWindowCheck).0.stopFlag
    decreases |acts|
  {
    if acts != [] {
      assert !env.stopRequested(s.tick);
      var s' := Checkpoint(s, env);
      PerformWithoutStop(s', env, acts[0]);
      PassWithoutStop(Perform(s', env, acts[0]), env, acts[1..], skipWindowCheck);
    }
  }

  /** Without a stop, the repeat loop ends with the flag down, however it ends. */
  lemma {:induction false} RepeatWithoutStop(s: EngineState, env: Env, acts: seq<Action>, skipWindowCheck: bool,
                                             fuel: nat, passes: nat)
    requires NoStop(env) && !s.stopFlag
    ensures !Repeat(s, env, acts, skipWindowCheck, fuel, passes).0.stopFlag
    decreases fuel
  {
    if fuel > 0 {
      assert !env.stopRequested(s.tick);
      var s' := Checkpoint(s, env);
      PassWithoutStop(s', env, acts, skipWindowCheck);
      RepeatWithoutStop(Pass(s', env, acts, skipWindowCheck).0, env, acts, skipWindowCheck, fuel - 1, passes + 1);
    }
  }

  /** An uninterrupted repeat loop makes every pass it has fuel for, and never ends by itself. */
  lemma {:induction false} RepeatQuiet(s: EngineState, acts: seq<Action>, skipWindowCheck: bool,
                                       fuel: nat, passes: nat)
    requires !s.stopFlag
    ensures var r := Repeat(s, Undisturbed, acts, skipWindowCheck, fuel, passes);
      r.1 == passes + fuel && r.2 && !r.0.stopFlag && r.0.events == s.events + Passes(AllEvents(acts), fuel)
    decreases fuel
  {
    if fuel > 0 {
      var s' := Checkpoint(s, Undisturbed);
      assert s' == s.(tick := s.tick + 1);
      PassQuiet(s', acts, skipWindowCheck);
      var p := Pass(s', Undisturbed, acts, skipWindowCheck);
      RepeatQuiet(p.0, acts, skipWindowCheck, fuel - 1, passes + 1);
      assert Repeat(s, Undisturbed, acts, skipWindowCheck, fuel, passes)
          == Repeat(p.0, Undisturbed, acts, skipWindowCheck, fuel - 1, passes + 1);
      assert Passes(AllEvents(acts), fuel) == AllEvents(acts) + Passes(AllEvents(acts), fuel - 1);
    }
  }

  /** The repeat loop begins at most as many passes as it has fuel for. */
  lemma {:induction false} RepeatPassesBounded(s: EngineState, env: Env, acts: seq<Action>, skipWindowCheck: bool,
                                               fuel: nat, passes: nat)
    ensures passes <= Repeat(s, env, acts, skipWindowCheck, fuel, passes).1 <= passes + fuel
    decreases fuel
  {
    if fuel > 0 {
      var s' := Checkpoint(s, env);
      var p := Pass(s', env, acts, skipWindowCheck);
      RepeatPassesBounded(p.0, env, acts, skipWindowCheck, fuel - 1, passes + 1);
    }
  }

  /**
   * In `once` mode the actions get exactly one pass and the run ends; in the
   * other modes a run begins at most `fuel` passes.
   */
  lemma PassesOfRun(s: EngineState, env: Env, m: Macro, mode: RepeatMode, extra: seq<Key>, fuel: nat)
    ensures var r := Execute(s, env, m, mode, extra, fuel).1;
      (mode == OnceMode ==> r.passes == 1 && !r.outOfFuel) &&
      (mode != OnceMode ==> r.passes <= fuel)
  {
    var started := RunList(Prepare(s, m, extra), env, m.startActions);
    RepeatPassesBounded(started, env, m.actions, m.skipWindowCheck, fuel, 0);
  }

  /**
   * Without a stop request, the finish actions run whenever there are any,
   * even after the trigger key was let go or the window was lost.
   */
  lemma FinishRunsWithoutStop(s: EngineState, env: Env, m: Macro, mode: RepeatMode, extra: seq<Key>, fuel: nat)
    requires NoStop(env) && m.finishActions != []
    requires !Execute(s, env, m, mode, extra, fuel).1.outOfFuel
    ensures Execute(s, env, m, mode, extra, fuel).1.finishRan
  {
    var prepared := Prepare(s, m, extra);
    RunListWithoutStop(prepared, env, m.startActions);
    var started := RunList(prepared, env, m.startActions);
    PassWithoutStop(started, env, m.actions, m.skipWindowCheck);
    RepeatWithoutStop(started, env, m.actions, m.skipWindowCheck, fuel, 0);
  }

  /** Where an undisturbed `once` run stands after its start actions and its one pass. */
  lemma OnceBodyUndisturbed(s: EngineState, m: Macro, extra: seq<Key>)
    ensures var env := Undisturbed; var body := Pass(RunList(Prepare(s, m, extra), env, m.startActions), env, m.actions, m.skipWindowCheck);
      body.1 && !body.0.stopFlag &&
      body.0.events == Prepare(s, m, extra).events + AllEvents(m.startActions) + AllEvents(m.actions)
  {
    var prepared := Prepare(s, m, extra);
    RunListWithoutStop(prepared, Undisturbed, m.startActions);
    PassQuiet(RunList(prepared, Undisturbed, m.startActions), m.actions, m.skipWindowCheck);
  }

  /**
   * An undisturbed `once` run makes the calls of its start actions, its
   * actions and its finish actions, each performed once, in that order.
   */
  lemma OnceRunUndisturbed(s: EngineState, m: Macro, extra: seq<Key>, fuel: nat)
    ensures var r := Execute(s, Undisturbed, m, OnceMode, extra, fuel);
      r.1 == Report(1, false, m.finishActions != []) &&
      r.0.events == Prepare(s, m, extra).events + AllEvents(m.startActions) + AllEvents(m.actions) + AllEvents(m.finishActions)
  {
    var env := Undisturbed;
    OnceBodyUndisturbed(s, m, extra);
    var body := Pass(RunList(Prepare(s, m, extra), env, m.startActions), env, m.actions, m.skipWindowCheck).0;
    RunListWithoutStop(body, env, m.finishActions);
    ghost var fin := RunList(body, env, m.finishActions);
    assert fin.events == body.events + AllEvents(m.finishActions);
    ExecuteOnce(s, env, m, extra, fuel);
  }

  /** A `once` run: its one pass, then the finish actions unless the flag is up. */
  lemma ExecuteOnce(s: EngineState, env: Env, m: Macro, extra: seq<Key>, fuel: nat)
    ensures var body := Pass(RunList(Prepare(s, m, extra), env, m.startActions), env, m.actions, m.skipWindowCheck).0;
      Execute(s, env, m, OnceMode, extra, fuel) ==
        if m.finishActions != [] && !body.stopFlag then (RunList(body, env, m.finishActions), Report(1, false, true))
        else (body, Report(1, false, false))
  {
  }

  /**
   * An undisturbed `loop` or `hold` run never ends by itself: it uses up any
   * fuel, one whole pass per unit, and never reaches its finish actions.
   */
  lemma RepeatingRunUndisturbed(s: EngineState, m: Macro, mode: RepeatMode, extra: seq<Key>, fuel: nat)
    requires mode != OnceMode
    ensures var r := Execute(s, Undisturbed, m, mode, extra, fuel);
      r.1 == Report(fuel, true, false) &&
      r.0.events == Prepare(s, m, extra).events + AllEvents(m.startActions) + Passes(AllEvents(m.actions), fuel)
  {
    var env := Undisturbed;
    var prepared := Prepare(s, m, extra);
    RunListWithoutStop(prepared, env, m.startActions);
    var started := RunList(prepared, env, m.startActions);
    RepeatQuiet(started, m.actions, m.skipWindowCheck, fuel, 0);
  }

  /** The repeat count a macro may carry has no effect on its run. */
  lemma RepeatCountIgnored(s: EngineState, env: Env, m: Macro, mode: RepeatMode, extra: seq<Key>, fuel: nat,
                           count: Option<nat>)
    ensures Execute(s, env, m.(repeatCount := count), mode, extra, fuel) == Execute(s, env, m, mode, extra, fuel)
  {
  }

  // The tracked keys stay free of duplicates through whole runs

  lemma ResetKeepsNoDuplicates(s: EngineState, force: bool)
    ensures Reset(s, force).pressed == [] && NoDuplicates(Reset(s, force).pressed)
  {
  }

  /** A press run leaves the tracked keys as they were, or empty after a stop. */
  lemma {:induction false} TapRunPressed(s: EngineState, env: Env, key: Key, count: nat)
    ensures TapRun(s, env, key, count).pressed in {s.pressed, []}
    decreases count
  {
    if count > 0 {
      var s' := Checkpoint(s, env);
      if !s'.stopFlag {
        TapRunPressed(s'.(events := s'.events + [KeyTapped(key), Slept(KeyPressInterval)]), env, key, count - 1);
      }
    }
  }

  /** A delay leaves the tracked keys as they were, or empty after a stop. */
  lemma {:induction false} DelayRunPressed(s: EngineState, env: Env, d: int)
    ensures DelayRun(s, env, d).pressed in {s.pressed, []}
    decreases d
  {
    if d > 0 {
      var s' := Checkpoint(s, env);
      if !s'.stopFlag {
        var slice := if d < DelayCheckInterval then d else DelayCheckInterval;
        DelayRunPressed(s'.(events := s'.events + [Slept(slice)]), env, d - slice);
      }
    }
  }

  lemma PerformKeepsNoDuplicates(s: EngineState, env: Env, a: Action)
    requires NoDuplicates(s.pressed)
    ensures NoDuplicates(Perform(s, env, a).pressed)
  {
    match a
    case Press(k) => TapRunPressed(s, env, k, 1);
    case Delay(d) => DelayRunPressed(s, env, d);
    case _ => TrackedKeepsNoDuplicates(s.pressed, a);
  }

  lemma CheckpointKeepsNoDuplicates(s: EngineState, env: Env)
    requires NoDuplicates(s.pressed)
    ensures NoDuplicates(Checkpoint(s, env).pressed)
  {
  }

  lemma {:induction false} RunListKeepsNoDuplicates(s: EngineState, env: Env, acts: seq<Action>)
    requires NoDuplicates(s.pressed)
    ensures NoDuplicates(RunList(s, env, acts).pressed)
    decreases |acts|
  {
    if acts != [] {
      var s' := Checkpoint(s, env);
      CheckpointKeepsNoDuplicates(s, env);
      PerformKeepsNoDuplicates(s', env, acts[0]);
      RunListKeepsNoDuplicates(Perform(s', env, acts[0]), env, acts[1..]);
    }
  }

  lemma {:induction false} PassKeepsNoDuplicates(s: EngineState, env: Env, acts: seq<Action>, skipWindowCheck: bool)
    requires NoDuplicates(s.pressed)
    ensures NoDuplicates(Pass(s, env, acts, skipWindowCheck).0.pressed)
    decreases |acts|
  {
    if acts != [] {
      var s' := Checkpoint(s, env);
      CheckpointKeepsNoDuplicates(s, env);
      PerformKeepsNoDuplicates(s', env, acts[0]);
      PassKeepsNoDuplicates(Perform(s', env, acts[0]), env, acts[1..], skipWindowCheck);
    }
  }

  lemma {:induction false} RepeatKeepsNoDuplicates(s: EngineState, env: Env, acts: seq<Action>, skipWindowCheck: bool,
                                                   fuel: nat, passes: nat)
    requires NoDuplicates(s.pressed)
    ensures NoDuplicates(Repeat(s, env, acts, skipWindowCheck, fuel, passes).0.pressed)
    decreases fuel
  {
    if fuel > 0 {
      var s' := Checkpoint(s, env);
      CheckpointKeepsNoDuplicates(s, env);
      PassKeepsNoDuplicates(s', env, acts, skipWindowCheck);
      RepeatKeepsNoDuplicates(Pass(s', env, acts, skipWindowCheck).0, env, acts, skipWindowCheck, fuel - 1, passes + 1);
    }
  }

  /** A whole run keeps `pressed_keys` free of duplicates. */
  lemma ExecuteKeepsNoDuplicates(s: EngineState, env: Env, m: Macro, mode: RepeatMode, extra: seq<Key>, fuel: nat)
    requires NoDuplicates(s.pressed)
    ensures NoDuplicates(Execute(s, env, m, mode, extra, fuel).0.pressed)
  {
    var prepared := Prepare(s, m, extra);
    RunListKeepsNoDuplicates(prepared, env, m.startActions);
    var started := RunList(prepared, env, m.startActions);
    PassKeepsNoDuplicates(started, env, m.actions, m.skipWindowCheck);
    RepeatKeepsNoDuplicates(started, env, m.actions, m.skipWindowCheck, fuel, 0);
    var b := Body(started, env, m, mode, fuel);
    RunListKeepsNoDuplicates(b.0, env, m.finishActions);
  }
}
