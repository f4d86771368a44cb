/**
 * The hotkey front end (`class MacroRunner`): it maps trigger keys to
 * macros, decides whether a trigger starts, interrupts or queues a macro,
 * keeps the additional keys held for a macro while its trigger is down, and
 * handles the control hotkeys (pause, reload, exit, double Esc).
 *
 * Every callback is one atomic step. Timestamps are whole milliseconds and
 * are passed in; the worker thread a start would launch is recorded in
 * `currentWorker` and played by `RunWorker`.
 */
module Runner {
  import opened Wrappers
  import opened Text
  import opened Model
  import opened Config
  import opened Engine

  // The hotkey map

  /** `macro.get('trigger_key')` is present and not empty. */
  predicate HasTrigger(m: Macro) {
    m.triggerKey.Some? && m.triggerKey.value != ""
  }

  /** The macro answers to the (lower-case) hotkey `key`. */
  predicate Binds(m: Macro, key: string) {
    HasTrigger(m) && Lower(m.triggerKey.value) == key
  }

  /** The map `_build_hotkey_map` builds, the macros read from the first. */
  function HotkeyTable(macros: seq<Macro>): map<string, Macro>
    decreases |macros|
  {
    if macros == [] then map[]
    else
      var m := macros[|macros| - 1];
      var table := HotkeyTable(macros[..|macros| - 1]);
      if HasTrigger(m) then table[Lower(m.triggerKey.value) := m] else table
  }

  /** A hotkey is in the map exactly when some macro with a trigger answers to it. */
  lemma {:induction false} HotkeyBound(macros: seq<Macro>, key: string)
    ensures key in HotkeyTable(macros) <==> exists i :: 0 <= i < |macros| && Binds(macros[i], key)
    decreases |macros|
  {
    if macros != [] {
      var init := macros[..|macros| - 1];
      HotkeyBound(init, key);
      if exists i :: 0 <= i < |init| && Binds(init[i], key) {
        var i :| 0 <= i < |init| && Binds(init[i], key);
        assert macros[i] == init[i];
      }
      if exists i :: 0 <= i < |macros| && Binds(macros[i], key) {
        var i :| 0 <= i < |macros| && Binds(macros[i], key);
        if i < |init| {
          assert init[i] == macros[i];
        }
      }
    }
  }

  /** A hotkey is bound to the last macro in the list that answers to it. */
  lemma {:induction false} HotkeyLastWins(macros: seq<Macro>, key: string)
    requires key in HotkeyTable(macros)
    ensures exists i :: 0 <= i < |macros| && HotkeyTable(macros)[key] == macros[i] && Binds(macros[i], key) &&
                        (forall j :: i < j < |macros| ==> !Binds(macros[j], key))
    decreases |macros|
  {
    var init := macros[..|macros| - 1];
    var last := |macros| - 1;
    if Binds(macros[last], key) {
      assert HotkeyTable(macros)[key] == macros[last];
    } else {
      HotkeyLastWins(init, key);
      var i :| 0 <= i < |init| && HotkeyTable(init)[key] == init[i] && Binds(init[i], key) &&
               (forall j :: i < j < |init| ==> !Binds(init[j], key));
      assert macros[i] == init[i];
      forall j | i < j < |macros| ensures !Binds(macros[j], key) {
        if j < |init| {
          assert macros[j] == init[j];
        }
      }
    }
  }

  // The additional keys held for each macro

  /** `macro_additional_keys`: macro names with the keys held for them, in insertion order. */
  type KeyTable = seq<(string, seq<Key>)>

  /** The keys held for `name`, if it has an entry. */
  function Find(t: KeyTable, name: string): Option<seq<Key>>
    decreases |t|
  {
    if t == [] then None
    else if t[0].0 == name then Some(t[0].1)
    else Find(t[1..], name)
  }

  /** No macro has two entries. */
  predicate UniqueNames(t: KeyTable)
    decreases |t|
  {
    t == [] || (Find(t[1..], t[0].0).None? && UniqueNames(t[1..]))
  }

  /** `d[name] = keys`: an existing entry is replaced where it stands, a new one goes last. */
  function Put(t: KeyTable, name: string, keys: seq<Key>): KeyTable
    decreases |t|
  {
    if t == [] then [(name, keys)]
    else if t[0].0 == name then [(name, keys)] + t[1..]
    else [t[0]] + Put(t[1..], name, keys)
  }

  /** `del d[name]`. */
  function Delete(t: KeyTable, name: string): KeyTable
    decreases |t|
  {
    if t == [] then []
    else if t[0].0 == name then t[1..]
    else [t[0]] + Delete(t[1..], name)
  }

  /** Every held key, entry by entry (`for keys in d.values(): for key in keys`). */
  function HeldKeys(t: KeyTable): seq<Key>
    decreases |t|
  {
    if t == [] then [] else HeldKeys(t[..|t| - 1]) + t[|t| - 1].1
  }

  /** After a `Put`, the name finds the new keys and every other name what it found before. */
  lemma {:induction false} PutFinds(t: KeyTable, name: string, keys: seq<Key>, other: string)
    ensures Find(Put(t, name, keys), other) == if other == name then Some(keys) else Find(t, other)
    decreases |t|
  {
    if t != [] && t[0].0 != name {
      PutFinds(t[1..], name, keys, other);
    }
  }

  /** A `Put` keeps one entry per name. */
  lemma {:induction false} PutKeepsUnique(t: KeyTable, name: string, keys: seq<Key>)
    requires UniqueNames(t)
    ensures UniqueNames(Put(t, name, keys))
    decreases |t|
  {
    if t != [] && t[0].0 != name {
      PutKeepsUnique(t[1..], name, keys);
      PutFinds(t[1..], name, keys, t[0].0);
    }
  }

  /** After a `Delete`, the name finds nothing and every other name what it found before. */
  lemma {:induction false} DeleteForgets(t: KeyTable, name: string, other: string)
    requires UniqueNames(t)
    ensures Find(Delete(t, name), other) == if other == name then None else Find(t, other)
    ensures UniqueNames(Delete(t, name))
    decreases |t|
  {
    if t != [] {
      if t[0].0 == name {
        if other != name {
          assert Find(t, other) == Find(t[1..], other);
        }
      } else {
        DeleteForgets(t[1..], name, other);
        DeleteForgets(t[1..], name, t[0].0);
      }
    }
  }

  // Starting a macro

  /** `last_macro_trigger_time.get(name, 0)`. */
  function LastTrigger(times: map<string, int>, name: string): int {
    if name in times then times[name] else 0
  }

  /**
   * `_should_buffer_macro`: a hold macro always interrupts; any other waits
   * in the queue when it was last started less than the threshold ago.
   */
  function ShouldBuffer(m: Macro, now: int, times: map<string, int>): (r: bool)
    ensures r ==> m.repeatMode != HoldMode
  {
    m.repeatMode != HoldMode && now - LastTrigger(times, m.name) < RapidPressThreshold
  }

  /** What `start_macro` does with a trigger. */
  datatype Launch = Ignored | Buffered | Dropped | Started

  /** The decision of `start_macro`, from the state it reads. */
  function Decide(paused: bool, running: bool, m: Macro, now: int, times: map<string, int>, queued: nat): (r: Launch)
    ensures paused <==> r == Ignored
    ensures r == Buffered ==> queued < InputBufferSize
  {
    if paused then Ignored
    else if running && ShouldBuffer(m, now, times) then
      if queued >= InputBufferSize then Dropped else Buffered
    else Started
  }

  /** A hold macro is never queued: unless paused, it starts. */
  lemma HoldMacroNeverBuffered(running: bool, m: Macro, now: int, times: map<string, int>, queued: nat)
    requires m.repeatMode == HoldMode
    ensures Decide(false, running, m, now, times, queued) == Started
  {
  }

  /** Only a running engine and a repeat within the threshold make a trigger wait. */
  lemma QueuedOnlyOnRapidRepeat(paused: bool, running: bool, m: Macro, now: int, times: map<string, int>, queued: nat)
    ensures Decide(paused, running, m, now, times, queued) in {Buffered, Dropped} <==>
      !paused && running && m.repeatMode != HoldMode && now - LastTrigger(times, m.name) < RapidPressThreshold
  {
  }

  /**
   * A macro started at `start` and triggered again at `now` while the engine
   * runs waits exactly when fewer than the threshold milliseconds have passed.
   */
  lemma RepeatAfterStart(m: Macro, start: int, now: int, times: map<string, int>, queued: nat)
    requires m.repeatMode != HoldMode && queued < InputBufferSize
    ensures Decide(false, true, m, now, times[m.name := start], queued) == Buffered <==> now - start < RapidPressThreshold
  {
  }

  /** A macro never started counts as started at time 0. */
  lemma NeverStartedCountsFromZero(m: Macro, now: int, times: map<string, int>)
    requires m.name !in times && m.repeatMode != HoldMode
    ensures ShouldBuffer(m, now, times) <==> now < RapidPressThreshold
  {
  }

  /** `_stop_current_macro` on the engine: a running macro is stopped, an idle engine left alone. */
  function Interrupt(s: EngineState, running: bool): EngineState {
    if running then Stop(s) else s
  }

  /** A stopped engine has let go of every key it held and has its flag raised. */
  lemma InterruptReleases(s: EngineState, running: bool)
    ensures var r := Interrupt(s, running);
      r.events == s.events + (if running then Released(s.pressed) else []) &&
      r.stopFlag == (s.stopFlag || running) &&
      (running ==> r.pressed == [])
  {
  }

  /** The environment of a worker: `check_key_still_held` answers yes unless the macro is a hold macro. */
  function WorkerEnv(m: Macro, env: Env): (e: Env)
    ensures e.stopRequested == env.stopRequested && e.windowActive == env.windowActive
    ensures forall t :: m.repeatMode != HoldMode ==> e.keyHeld(t)
  {
    if m.repeatMode == HoldMode then env else env.(keyHeld := t => true)
  }

  /** The trigger recorded in `held_trigger_keys`: `macro.get('trigger_key', '')`. */
  function TriggerOf(m: Macro): string {
    if m.triggerKey.Some? then m.triggerKey.value else ""
  }

  /** Everything `_force_release_all_keys` lets go of, in order. */
  function ForceReleased(pressed: seq<Key>, table: KeyTable): seq<Event> {
    Released(pressed) + Released(ForceReleaseModifierKeys) + Released(HeldKeys(table))
  }

  /** `Released` of two key lists one after the other. */
  lemma ReleasedAppend(a: seq<Key>, b: seq<Key>)
    ensures Released(a + b) == Released(a) + Released(b)
  {
    assert forall k :: 0 <= k < |a + b| ==> Released(a + b)[k] == (Released(a) + Released(b))[k];
  }

  class MacroRunner {
    const engine: MacroEngine
    var macros: seq<Macro>
    var hotkeyMap: map<string, Macro>
    var paused: bool
    var lastEscTime: int
    var additionalKeys: KeyTable
    var inputBuffer: seq<Macro>
    var lastPauseTime: int
    var lastReloadTime: int
    var lastExitTime: int
    var lastMacroTriggerTime: map<string, int>
    var heldTriggerKeys: set<string>
    var currentHoldMacroName: Option<string>
    /** The macro of the worker thread started last, if any. */
    var currentWorker: Option<Macro>
    /** `sys.exit` has been called. */
    var exited: bool

    /** The queue stays within its bound, each macro has one entry of held keys, and the engine is valid. */
    predicate Valid()
      reads this, engine
    {
      |inputBuffer| <= InputBufferSize && UniqueNames(additionalKeys) && engine.Valid()
    }

    /** Nothing is held: no tracked key, no additional key, no trigger, no hold macro. */
    predicate AllLetGo()
      reads this, engine
    {
      engine.pressedKeys == [] && additionalKeys == [] && heldTriggerKeys == {} && currentHoldMacroName.None?
    }

    /** `__init__`, with `loaded` standing for the macros `load_file` reads. */
    constructor (loaded: seq<Macro>)
      ensures fresh(engine) && Valid() && !engine.running && engine.events == []
      ensures macros == loaded && hotkeyMap == HotkeyTable(loaded)
      ensures !paused && inputBuffer == [] && additionalKeys == [] && heldTriggerKeys == {}
      ensures lastEscTime == 0 && lastPauseTime == 0 && lastReloadTime == 0 && lastExitTime == 0
      ensures lastMacroTriggerTime == map[] && currentHoldMacroName.None? && currentWorker.None? && !exited
    {
      engine := new MacroEngine();
      macros := [];
      hotkeyMap := map[];
      paused := false;
      lastEscTime := 0;
      additionalKeys := [];
      inputBuffer := [];
      lastPauseTime := 0;
      lastReloadTime := 0;
      lastExitTime := 0;
      lastMacroTriggerTime := map[];
      heldTriggerKeys := {};
      currentHoldMacroName := None;
      currentWorker := None;
      exited := false;
      new;
      LoadConfig(loaded);
    }

    /** `load_config`: an empty file keeps the previous hotkey map. */
    method LoadConfig(loaded: seq<Macro>)
      modifies this`macros, this`hotkeyMap
      ensures macros == loaded
      ensures hotkeyMap == if loaded == [] then old(hotkeyMap) else HotkeyTable(loaded)
    {
      macros := loaded;
      if loaded == [] {
        return;
      }
      BuildHotkeyMap();
    }

    /** `_build_hotkey_map`: every macro with a trigger, under its lower-cased trigger. */
    method BuildHotkeyMap()
      modifies this`hotkeyMap
      ensures hotkeyMap == HotkeyTable(macros)
    {
      hotkeyMap := map[];
      for i := 0 to |macros|
        invariant hotkeyMap == HotkeyTable(macros[..i])
      {
        var m := macros[i];
        assert macros[..i + 1][..i] == macros[..i];
        if m.triggerKey.Some? && m.triggerKey.value != "" {
          hotkeyMap := hotkeyMap[Lower(m.triggerKey.value) := m];
        }
      }
      assert macros[..|macros|] == macros;
    }

    /** `_stop_current_macro`, without the wait for the worker. */
    method StopCurrentMacro()
      requires engine.Valid()
      modifies engine`pressedKeys, engine`events, engine`stopFlag
      ensures engine.State() == Interrupt(old(engine.State()), engine.running)
      ensures engine.Valid()
    {
      if engine.running {
        engine.StopMacro();
      }
    }

    /** `clear_input_buffer`. */
    method ClearInputBuffer()
      modifies this`inputBuffer
      ensures inputBuffer == []
    {
      inputBuffer := [];
    }

    /**
     * `start_macro`: ignored while paused; a rapid repeat while the engine
     * runs is queued, or dropped when the queue is full; otherwise the
     * running macro is stopped, the start time recorded and a worker launched.
     */
    method StartMacro(m: Macro, now: int) returns (outcome: Launch)
      requires Valid()
      modifies this`inputBuffer, this`lastMacroTriggerTime, this`currentWorker
      modifies engine`pressedKeys, engine`events, engine`stopFlag
      ensures Valid()
      ensures outcome == Decide(old(paused), old(engine.running), m, now, old(lastMacroTriggerTime), |old(inputBuffer)|)
      ensures inputBuffer == if outcome == Buffered then old(inputBuffer) + [m] else old(inputBuffer)
      ensures outcome != Started ==>
        engine.State() == old(engine.State()) &&
        lastMacroTriggerTime == old(lastMacroTriggerTime) && currentWorker == old(currentWorker)
      ensures outcome == Started ==>
        engine.State() == Interrupt(old(engine.State()), old(engine.running)) &&
        lastMacroTriggerTime == old(lastMacroTriggerTime)[m.name := now] && currentWorker == Some(m)
    {
      if paused {
        return Ignored;
      }
      if engine.running {
        var wait := ShouldBuffer(m, now, lastMacroTriggerTime);
        if wait {
          if |inputBuffer| >= InputBufferSize {
            return Dropped;
          }
          inputBuffer := inputBuffer + [m];
          return Buffered;
        }
      }
      StopCurrentMacro();
      lastMacroTriggerTime := lastMacroTriggerTime[m.name := now];
      currentWorker := Some(m);
      return Started;
    }

    /** `_process_next_in_queue`: the oldest queued macro gets a worker; its start time is not recorded. */
    method ProcessNextInQueue()
      modifies this`inputBuffer, this`currentWorker
      ensures old(inputBuffer) == [] ==> inputBuffer == [] && currentWorker == old(currentWorker)
      ensures old(inputBuffer) != [] ==> inputBuffer == old(inputBuffer)[1..] && currentWorker == Some(old(inputBuffer)[0])
    {
      if |inputBuffer| > 0 {
        var next := inputBuffer[0];
        inputBuffer := inputBuffer[1..];
        currentWorker := Some(next);
      }
    }

    /**
     * `_execute_macro_with_queue`: the worker plays the macro in its own
     * repeat mode with its additional keys, then hands over to the next
     * queued macro. A run cut off by the fuel bound hands over nothing.
     */
    method RunWorker(m: Macro, env: Env, fuel: nat) returns (report: Report)
      requires Valid()
      modifies engine, this`inputBuffer, this`currentWorker
      ensures Valid()
      ensures (engine.State(), report) ==
        Execute(old(engine.State()), WorkerEnv(m, env), m, m.repeatMode, m.additionalKeys, fuel)
      ensures engine.running == report.outOfFuel
      ensures report.outOfFuel ==> inputBuffer == old(inputBuffer) && currentWorker == old(currentWorker)
      ensures !report.outOfFuel && old(inputBuffer) != [] ==>
        inputBuffer == old(inputBuffer)[1..] && currentWorker == Some(old(inputBuffer)[0])
      ensures !report.outOfFuel && old(inputBuffer) == [] ==>
        inputBuffer == [] && currentWorker == old(currentWorker)
    {
      ExecuteKeepsNoDuplicates(engine.State(), WorkerEnv(m, env), m, m.repeatMode, m.additionalKeys, fuel);
      report := engine.ExecuteMacro(m, m.repeatMode, WorkerEnv(m, env), m.additionalKeys, fuel);
      if !report.outOfFuel {
        ProcessNextInQueue();
      }
    }

    /** The keys held in `t`, released entry by entry. */
    method ReleaseTable(t: KeyTable)
      modifies engine`events
      ensures engine.events == old(engine.events) + Released(HeldKeys(t))
    {
      for i := 0 to |t|
        invariant engine.events == old(engine.events) + Released(HeldKeys(t[..i]))
      {
        engine.ReleaseEach(t[i].1);
        assert t[..i + 1][..i] == t[..i];
        ReleasedAppend(HeldKeys(t[..i]), t[i].1);
      }
      assert t[..|t|] == t;
    }

    /**
     * `_force_release_all_keys`: a forced engine reset, then every
     * additional key released and the held state forgotten.
     */
    method ForceReleaseAllKeys()
      modifies engine`pressedKeys, engine`events
      modifies this`additionalKeys, this`heldTriggerKeys, this`currentHoldMacroName
      ensures AllLetGo()
      ensures engine.events == old(engine.events) + ForceReleased(old(engine.pressedKeys), old(additionalKeys))
    {
      engine.ResetKeys(true);
      ReleaseTable(additionalKeys);
      additionalKeys := [];
      heldTriggerKeys := {};
      currentHoldMacroName := None;
    }

    /**
     * `_on_trigger_press`: the trigger is recorded as held (and the macro
     * as the hold macro in hold mode), its additional keys are pressed and
     * recorded, and the macro is started.
     */
    method OnTriggerPress(m: Macro, now: int) returns (outcome: Launch)
      requires Valid()
      modifies this`heldTriggerKeys, this`currentHoldMacroName, this`additionalKeys
      modifies this`inputBuffer, this`lastMacroTriggerTime, this`currentWorker
      modifies engine`pressedKeys, engine`events, engine`stopFlag
      ensures Valid()
      ensures heldTriggerKeys == old(heldTriggerKeys) + {TriggerOf(m)}
      ensures currentHoldMacroName == if m.repeatMode == HoldMode then Some(m.name) else old(currentHoldMacroName)
      ensures additionalKeys ==
        if m.additionalKeys != [] then Put(old(additionalKeys), m.name, m.additionalKeys) else old(additionalKeys)
      ensures outcome == Decide(old(paused), old(engine.running), m, now, old(lastMacroTriggerTime), |old(inputBuffer)|)
      ensures inputBuffer == if outcome == Buffered then old(inputBuffer) + [m] else old(inputBuffer)
      ensures var held := old(engine.State()).(events := old(engine.events) + PressedEvents(m.additionalKeys));
        engine.State() == if outcome == Started then Interrupt(held, old(engine.running)) else held
      ensures lastMacroTriggerTime ==
        if outcome == Started then old(lastMacroTriggerTime)[m.name := now] else old(lastMacroTriggerTime)
    {
      HoldTrigger(m);
      outcome := StartMacro(m, now);
    }

    /** The part of `_on_trigger_press` before the start: the trigger and the additional keys are held. */
    method HoldTrigger(m: Macro)
      requires Valid()
      modifies this`heldTriggerKeys, this`currentHoldMacroName, this`additionalKeys, engine`events
      ensures Valid()
      ensures heldTriggerKeys == old(heldTriggerKeys) + {TriggerOf(m)}
      ensures currentHoldMacroName == if m.repeatMode == HoldMode then Some(m.name) else old(currentHoldMacroName)
      ensures additionalKeys ==
        if m.additionalKeys != [] then Put(old(additionalKeys), m.name, m.additionalKeys) else old(additionalKeys)
      ensures engine.events == old(engine.events) + PressedEvents(m.additionalKeys)
    {
      heldTriggerKeys := heldTriggerKeys + {TriggerOf(m)};
      if m.repeatMode == HoldMode {
        currentHoldMacroName := Some(m.name);
      }
      if m.additionalKeys != [] {
        PutKeepsUnique(additionalKeys, m.name, m.additionalKeys);
        additionalKeys := Put(additionalKeys, m.name, m.additionalKeys);
        engine.PressEach(m.additionalKeys);
      }
    }

    /** `_release_additional_keys`: the keys held for the macro are released and its entry removed. */
    method ReleaseAdditionalKeys(name: string)
      requires UniqueNames(additionalKeys)
      modifies engine`events, this`additionalKeys
      ensures UniqueNames(additionalKeys) && Find(additionalKeys, name).None?
      ensures Find(old(additionalKeys), name).None? ==>
        additionalKeys == old(additionalKeys) && engine.events == old(engine.events)
      ensures Find(old(additionalKeys), name).Some? ==>
        additionalKeys == Delete(old(additionalKeys), name) &&
        engine.events == old(engine.events) + Released(Find(old(additionalKeys), name).value)
    {
      var entry := Find(additionalKeys, name);
      if entry.Some? {
        engine.ReleaseEach(entry.value);
        DeleteForgets(additionalKeys, name, name);
        additionalKeys := Delete(additionalKeys, name);
      }
    }

    /**
     * `_on_trigger_release`: the trigger is no longer held, the hold macro
     * forgotten if it is this one, its additional keys released, and a
     * running hold macro stopped.
     */
    method OnTriggerRelease(m: Macro)
      requires Valid()
      modifies this`heldTriggerKeys, this`currentHoldMacroName, this`additionalKeys
      modifies engine`pressedKeys, engine`events, engine`stopFlag
      ensures Valid()
      ensures heldTriggerKeys == old(heldTriggerKeys) - {TriggerOf(m)}
      ensures currentHoldMacroName ==
        if old(currentHoldMacroName) == Some(m.name) then None else old(currentHoldMacroName)
      ensures Find(additionalKeys, m.name).None?
      ensures forall other :: other != m.name ==> Find(additionalKeys, other) == Find(old(additionalKeys), other)
      ensures var keys := Find(old(additionalKeys), m.name);
        var released := old(engine.State()).(events := old(engine.events) + (if keys.Some? then Released(keys.value) else []));
        engine.State() == Interrupt(released, m.repeatMode == HoldMode && engine.running)
    {
      heldTriggerKeys := heldTriggerKeys - {TriggerOf(m)};
      if currentHoldMacroName == Some(m.name) {
        currentHoldMacroName := None;
      }
      ghost var before := additionalKeys;
      ReleaseAdditionalKeys(m.name);
      forall other | other != m.name ensures Find(additionalKeys, other) == Find(before, other) {
        DeleteForgets(before, m.name, other);
      }
      if m.repeatMode == HoldMode && engine.running {
        engine.StopMacro();
      }
    }

    /**
     * `emergency_stop`: a second Esc within the interval stops everything
     * and resets the detector; any other Esc only records its time.
     */
    method EmergencyStop(now: int)
      requires Valid()
      modifies this`lastEscTime, this`inputBuffer, this`additionalKeys, this`heldTriggerKeys, this`currentHoldMacroName
      modifies engine`pressedKeys, engine`events, engine`stopFlag
      ensures Valid()
      ensures now - old(lastEscTime) <= EscDoubleClickInterval ==>
        lastEscTime == 0 && inputBuffer == [] && AllLetGo() &&
        engine.stopFlag == (old(engine.stopFlag) || engine.running) &&
        engine.events == old(engine.events) + ForceReleased(old(engine.pressedKeys), old(additionalKeys))
      ensures now - old(lastEscTime) > EscDoubleClickInterval ==>
        lastEscTime == now && inputBuffer == old(inputBuffer) && additionalKeys == old(additionalKeys) &&
        heldTriggerKeys == old(heldTriggerKeys) && currentHoldMacroName == old(currentHoldMacroName) &&
        engine.State() == old(engine.State())
    {
      if now - lastEscTime <= EscDoubleClickInterval {
        StopCurrentMacro();
        ClearInputBuffer();
        ForceReleaseAllKeys();
        lastEscTime := 0;
      } else {
        lastEscTime := now;
      }
    }

    /** `toggle_pause`: pausing stops the macro, empties the queue and lets go of every key. */
    method TogglePause()
      requires Valid()
      modifies this`paused, this`inputBuffer, this`additionalKeys, this`heldTriggerKeys, this`currentHoldMacroName
      modifies engine`pressedKeys, engine`events, engine`stopFlag
      ensures Valid()
      ensures paused == !old(paused)
      ensures paused ==>
        inputBuffer == [] && AllLetGo() &&
        engine.stopFlag == (old(engine.stopFlag) || engine.running) &&
        engine.events == old(engine.events) + ForceReleased(old(engine.pressedKeys), old(additionalKeys))
      ensures !paused ==>
        inputBuffer == old(inputBuffer) && additionalKeys == old(additionalKeys) &&
        heldTriggerKeys == old(heldTriggerKeys) && currentHoldMacroName == old(currentHoldMacroName) &&
        engine.State() == old(engine.State())
    {
      paused := !paused;
      if paused {
        StopCurrentMacro();
        ClearInputBuffer();
        ForceReleaseAllKeys();
      }
    }

    /** `reload_config`, without re-registering the hotkeys. */
    method ReloadConfig(loaded: seq<Macro>)
      requires Valid()
      modifies this`macros, this`hotkeyMap, this`inputBuffer, this`additionalKeys, this`heldTriggerKeys
      modifies this`currentHoldMacroName, engine`pressedKeys, engine`events, engine`stopFlag
      ensures Valid() && inputBuffer == [] && AllLetGo()
      ensures engine.stopFlag == (old(engine.stopFlag) || engine.running)
      ensures engine.events == old(engine.events) + ForceReleased(old(engine.pressedKeys), old(additionalKeys))
      ensures macros == loaded && hotkeyMap == if loaded == [] then old(hotkeyMap) else HotkeyTable(loaded)
    {
      StopCurrentMacro();
      ClearInputBuffer();
      ForceReleaseAllKeys();
      LoadConfig(loaded);
    }

    /** `stop`: the macro is stopped and every key let go before the program exits. */
    method Stop()
      requires Valid()
      modifies this`exited, this`additionalKeys, this`heldTriggerKeys, this`currentHoldMacroName
      modifies engine`pressedKeys, engine`events, engine`stopFlag
      ensures Valid() && exited && AllLetGo()
      ensures engine.stopFlag == (old(engine.stopFlag) || engine.running)
      ensures engine.events == old(engine.events) + ForceReleased(old(engine.pressedKeys), old(additionalKeys))
    {
      StopCurrentMacro();
      ForceReleaseAllKeys();
      exited := true;
    }

    /** `_handle_pause_key`: presses closer than the debounce interval to the last accepted one are ignored. */
    method HandlePauseKey(now: int)
      requires Valid()
      modifies this`lastPauseTime, this`paused, this`inputBuffer, this`additionalKeys, this`heldTriggerKeys
      modifies this`currentHoldMacroName, engine`pressedKeys, engine`events, engine`stopFlag
      ensures Valid()
      ensures now - old(lastPauseTime) > ControlKeyDebounce ==> lastPauseTime == now && paused == !old(paused)
      ensures now - old(lastPauseTime) > ControlKeyDebounce && paused ==>
        inputBuffer == [] && AllLetGo() &&
        engine.stopFlag == (old(engine.stopFlag) || engine.running) &&
        engine.events == old(engine.events) + ForceReleased(old(engine.pressedKeys), old(additionalKeys))
      ensures now - old(lastPauseTime) > ControlKeyDebounce && !paused ==>
        inputBuffer == old(inputBuffer) && additionalKeys == old(additionalKeys) &&
        heldTriggerKeys == old(heldTriggerKeys) && currentHoldMacroName == old(currentHoldMacroName) &&
        engine.State() == old(engine.State())
      ensures now - old(lastPauseTime) <= ControlKeyDebounce ==>
        lastPauseTime == old(lastPauseTime) && paused == old(paused) && inputBuffer == old(inputBuffer) &&
        additionalKeys == old(additionalKeys) && heldTriggerKeys == old(heldTriggerKeys) &&
        currentHoldMacroName == old(currentHoldMacroName) && engine.State() == old(engine.State())
    {
      if now - lastPauseTime > ControlKeyDebounce {
        lastPauseTime := now;
        TogglePause();
      }
    }

    /** `_handle_reload_key`, with `loaded` standing for the macros read again from the file. */
    method HandleReloadKey(now: int, loaded: seq<Macro>)
      requires Valid()
      modifies this`lastReloadTime, this`macros, this`hotkeyMap, this`inputBuffer, this`additionalKeys
      modifies this`heldTriggerKeys, this`currentHoldMacroName, engine`pressedKeys, engine`events, engine`stopFlag
      ensures Valid()
      ensures now - old(lastReloadTime) > ControlKeyDebounce ==>
        lastReloadTime == now && macros == loaded && inputBuffer == [] && AllLetGo() &&
        hotkeyMap == (if loaded == [] then old(hotkeyMap) else HotkeyTable(loaded)) &&
        engine.stopFlag == (old(engine.stopFlag) || engine.running) &&
        engine.events == old(engine.events) + ForceReleased(old(engine.pressedKeys), old(additionalKeys))
      ensures now - old(lastReloadTime) <= ControlKeyDebounce ==>
        lastReloadTime == old(lastReloadTime) && macros == old(macros) && hotkeyMap == old(hotkeyMap) &&
        inputBuffer == old(inputBuffer) && additionalKeys == old(additionalKeys) &&
        heldTriggerKeys == old(heldTriggerKeys) && currentHoldMacroName == old(currentHoldMacroName) &&
        engine.State() == old(engine.State())
    {
      if now - lastReloadTime > ControlKeyDebounce {
        lastReloadTime := now;
        ReloadConfig(loaded);
      }
    }

    /** `_handle_exit_key`. */
    method HandleExitKey(now: int)
      requires Valid()
      modifies this`lastExitTime, this`exited, this`additionalKeys, this`heldTriggerKeys, this`currentHoldMacroName
      modifies engine`pressedKeys, engine`events, engine`stopFlag
      ensures Valid()
      ensures now - old(lastExitTime) > ControlKeyDebounce ==>
        lastExitTime == now && exited && AllLetGo() &&
        engine.stopFlag == (old(engine.stopFlag) || engine.running) &&
        engine.events == old(engine.events) + ForceReleased(old(engine.pressedKeys), old(additionalKeys))
      ensures now - old(lastExitTime) <= ControlKeyDebounce ==>
        lastExitTime == old(lastExitTime) && exited == old(exited) && additionalKeys == old(additionalKeys) &&
        heldTriggerKeys == old(heldTriggerKeys) && currentHoldMacroName == old(currentHoldMacroName) &&
        engine.State() == old(engine.State())
    {
      if now - lastExitTime > ControlKeyDebounce {
        lastExitTime := now;
        Stop();
      }
    }
  }
}
