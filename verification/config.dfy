/**
 * The program's fixed settings (`class Config` in source/macro.py), with
 * times converted to whole milliseconds (timestamps) or microseconds
 * (action durations).
 */
module Config {
  /** Maximum length of the input buffer queue. */
  const InputBufferSize: nat := 3
  /** Repeated triggers closer than this (ms) are buffered instead of interrupting. */
  const RapidPressThreshold: int := 200
  /** Pause after each press-and-release (us). */
  const KeyPressInterval: int := 10_000
  /** Slice length of an interruptible delay (us). */
  const DelayCheckInterval: int := 50_000
  /** Duration used when a delay cannot be read (us). */
  const DefaultDelayFallback: int := 100_000
  /** Window of the emergency-stop double press (ms). */
  const EscDoubleClickInterval: int := 500
  /** Minimum distance between two accepted presses of a control hotkey (ms). */
  const ControlKeyDebounce: int := 100
  /** Modifier keys released unconditionally by a forced reset. */
  const ForceReleaseModifierKeys: seq<string> := ["shift", "ctrl", "alt", "win"]
}
