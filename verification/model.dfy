/**
 * The records the configuration compiler produces and the engine consumes:
 * macros and their actions (the dictionaries built in source/macro.py).
 */
module Model {
  import opened Wrappers

  /** A key name as the input library understands it, e.g. "a", "shift", "keypad 0". */
  type Key = string

  datatype Button = Left | Right | Middle | X1 | X2

  /**
   * One step of a macro. Durations are whole microseconds; the configuration
   * language writes them in seconds or milliseconds.
   */
  datatype Action =
    | Press(key: Key)
    | Hold(key: Key, duration: int)
    | Delay(duration: int)
    | KeyDown(key: Key)
    | KeyUp(key: Key)
    | Click(button: Button)
    | DoubleClick(button: Button)

  datatype RepeatMode = OnceMode | LoopMode | HoldMode

  /** The three action lists of a macro, named as in the configuration. */
  datatype Section = StartActions | Actions | FinishActions

  datatype Macro = Macro(
    name: string,
    triggerKey: Option<string>,
    repeatMode: RepeatMode,
    repeatCount: Option<nat>,
    actions: seq<Action>,
    startActions: seq<Action>,
    finishActions: seq<Action>,
    resetKeys: bool,
    additionalKeys: seq<Key>,
    defaultDelay: Option<int>,
    skipWindowCheck: bool)
  {
    function ActionsOf(section: Section): seq<Action> {
      match section
      case StartActions => startActions
      case Actions => actions
      case FinishActions => finishActions
    }

    function WithActions(section: Section, list: seq<Action>): (m: Macro)
      ensures m.ActionsOf(section) == list
      ensures forall other :: other != section ==> m.ActionsOf(other) == ActionsOf(other)
      ensures m.name == name
    {
      match section
      case StartActions => this.(startActions := list)
      case Actions => this.(actions := list)
      case FinishActions => this.(finishActions := list)
    }
  }

  /** The record opened by a `[name]` header: no trigger, mode once, no actions. */
  function NewMacro(name: string): (m: Macro)
    ensures m.name == name && m.triggerKey.None? && m.repeatMode == OnceMode
    ensures m.actions == [] && m.startActions == [] && m.finishActions == []
  {
    Macro(name, None, OnceMode, None, [], [], [], false, [], None, false)
  }
}
