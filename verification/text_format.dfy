/**
 * The text configuration format (`parse_text_format` and
 * `_parse_config_line` with its `_handle_*` handlers): `[name]` headers open
 * macros, `key = value` lines configure the open macro or switch the action
 * section, and every other line holds actions for the current section.
 */
module TextFormat {
  import opened Wrappers
  import opened Text
  import opened Language
  import opened Model
  import opened Values
  import opened ActionLine
  import opened DefaultDelays

  /** A boolean setting: the value, translated and lower-cased, reads "true". */
  predicate IsTrue(value: string) {
    Lower(Translate(value)) == "true"
  }

  /** `str.isdigit()` on ASCII text. */
  predicate IsDecimal(value: string) {
    value != [] && AllDigits(value)
  }

  /**
   * The handler `_config_handlers` selects for a translated key, applied to
   * the trimmed value; an unknown key changes nothing. No handler touches the
   * name or the action lists.
   */
  function HandleConfig(key: string, value: string, m: Macro): (r: Macro)
    ensures r.name == m.name
    ensures r.actions == m.actions && r.startActions == m.startActions && r.finishActions == m.finishActions
  {
    match key
    case "trigger_key" => m.(triggerKey := Some(Lower(value)))
    case "loop" =>
      var t := Lower(Translate(value));
      if t == "true" then m.(repeatMode := LoopMode)
      else if t == "false" then m.(repeatMode := OnceMode)
      else m
    case "repeat" =>
      if Translate(value) == "hold" then m.(repeatMode := HoldMode)
      else if IsDecimal(value) then m.(repeatCount := Some(DigitsValue(value)))
      else m
    case "reset_keys" => m.(resetKeys := IsTrue(value))
    case "additional_keys" =>
      var keys := SeparatedKeys(value);
      m.(additionalKeys := seq(|keys|, k requires 0 <= k < |keys| => KeyOf(keys[k])))
    case "default_delay" => m.(defaultDelay := Some(ParseDelay(value)))
    case "skip_window_check" => m.(skipWindowCheck := IsTrue(value))
    case _ => m
  }

  /** The translated key of a `key = value` line. */
  function ConfigKey(line: string): string {
    Translate(Strip(Before(line, '=')))
  }

  /** The trimmed value of a `key = value` line. */
  function ConfigValue(line: string): string
    requires '=' in line
  {
    Strip(After(line, '='))
  }

  /** `_parse_config_line`: a line without `=` is ignored. */
  function ApplyConfigLine(line: string, m: Macro): (r: Macro)
    ensures r.name == m.name
    ensures r.actions == m.actions && r.startActions == m.startActions && r.finishActions == m.finishActions
    ensures '=' !in line ==> r == m
  {
    if '=' !in line then m else HandleConfig(ConfigKey(line), ConfigValue(line), m)
  }

  /** The section a translated key switches to, if it names one. */
  function SectionOf(key: string): Option<Section> {
    match key
    case "start_actions" => Some(StartActions)
    case "finish_actions" => Some(FinishActions)
    case "actions" => Some(Actions)
    case _ => None
  }

  /** A trimmed line that opens a macro: `[` ... `]`. */
  predicate IsHeader(line: string) {
    |line| >= 2 && line[0] == '[' && line[|line| - 1] == ']'
  }

  function HeaderName(line: string): string
    requires IsHeader(line)
  {
    Strip(line[1..|line| - 1])
  }

  /** A trimmed line that is skipped: empty, or a comment. */
  predicate IsBlank(line: string) {
    line == [] || line[0] == '#'
  }

  /** The variables of the `parse_text_format` loop. */
  datatype State = State(done: seq<Macro>, current: Option<Macro>, section: Section)

  const Start := State([], None, Actions)

  /** One line of the loop. */
  function Step(st: State, rawLine: string): State {
    var line := Strip(rawLine);
    if IsBlank(line) then st
    else if IsHeader(line) then
      State(if st.current.Some? then st.done + [st.current.value] else st.done,
            Some(NewMacro(HeaderName(line))), Actions)
    else if st.current.None? then st
    else if '=' in line then
      var section := SectionOf(ConfigKey(line));
      if section.Some? then st.(section := section.value)
      else st.(current := Some(ApplyConfigLine(line, st.current.value)), section := Actions)
    else
      var m := st.current.value;
      st.(current := Some(m.WithActions(st.section, m.ActionsOf(st.section) + LineActions(line))))
  }

  /** A loop over lines, from the first, taking one `step` per line. */
  function Iterate(st: State, lines: seq<string>, step: (State, string) -> State): State
    decreases |lines|
  {
    if lines == [] then st else Iterate(step(st, lines[0]), lines[1..], step)
  }

  /** The loop over all lines, from the first. */
  function Run(st: State, lines: seq<string>): State {
    Iterate(st, lines, Step)
  }

  /** After the loop: the open macro gets its default delays and is emitted last. */
  function Finish(st: State): seq<Macro> {
    if st.current.Some? then st.done + [MacroWithDelays(st.current.value)] else st.done
  }

  /** The macros `parse_text_format` reads from the lines of a text. */
  function LinesMacros(lines: seq<string>): seq<Macro> {
    Finish(Run(Start, lines))
  }

  lemma {:induction false} IterateAppend(st: State, xs: seq<string>, ys: seq<string>, step: (State, string) -> State)
    ensures Iterate(st, xs + ys, step) == Iterate(Iterate(st, xs, step), ys, step)
    decreases |xs|
  {
    if xs == [] {
      assert xs + ys == ys;
    } else {
      assert (xs + ys)[0] == xs[0];
      assert (xs + ys)[1..] == xs[1..] + ys;
      IterateAppend(step(st, xs[0]), xs[1..], ys, step);
    }
  }

  lemma RunAppend(st: State, xs: seq<string>, ys: seq<string>)
    ensures Run(st, xs + ys) == Run(Run(st, xs), ys)
  {
    IterateAppend(st, xs, ys, Step);
  }

  lemma RunOne(st: State, line: string)
    ensures Run(st, [line]) == Step(st, line)
  {
    assert [line][1..] == [];
    assert Iterate(st, [line], Step) == Iterate(Step(st, line), [], Step);
  }

  /**
   * `parse_text_format`: the lines of `content` are read one by one into the
   * current macro and section; a header emits the open macro, and the last
   * macro is emitted after it gets its default delays.
   */
  method ParseTextFormat(content: string) returns (macros: seq<Macro>)
    ensures macros == LinesMacros(Split(content, '\n'))
  {
    var lines := Split(content, '\n');
    macros := [];
    var current: Option<Macro> := None;
    var section := Actions;
    for i := 0 to |lines|
      invariant State(macros, current, section) == Run(Start, lines[..i])
    {
      ghost var before := State(macros, current, section);
      var line := Strip(lines[i]);
      if IsBlank(line) {
      } else if IsHeader(line) {
        if current.Some? {
          macros := macros + [current.value];
        }
        current := Some(NewMacro(HeaderName(line)));
        section := Actions;
      } else if current.None? {
      } else if '=' in line {
        var key := ConfigKey(line);
        var target := SectionOf(key);
        if target.Some? {
          section := target.value;
        } else {
          current := Some(ApplyConfigLine(line, current.value));
          section := Actions;
        }
      } else {
        var actions := ParseActionLine(line);
        var m := current.value;
        current := Some(m.WithActions(section, m.ActionsOf(section) + actions));
        assert actions == LineActions(line);
      }
      assert State(macros, current, section) == Step(before, lines[i]);
      RunAppend(Start, lines[..i], [lines[i]]);
      RunOne(before, lines[i]);
      assert lines[..i + 1] == lines[..i] + [lines[i]];
    }
    assert lines[..|lines|] == lines;
    if current.Some? {
      var last := InsertDefaultDelays(current.value);
      macros := macros + [last];
    }
  }

  // Properties of the text format

  /** Without an open macro, only a header line has an effect. */
  lemma {:induction false} NoMacroNoEffect(st: State, lines: seq<string>)
    requires st.current.None?
    requires forall k :: 0 <= k < |lines| ==> !IsHeader(Strip(lines[k]))
    ensures Run(st, lines) == st
    decreases |lines|
  {
    if lines != [] {
      assert !IsHeader(Strip(lines[0]));
      NoMacroNoEffect(Step(st, lines[0]), lines[1..]);
    }
  }

  /** Lines before the first header are ignored. */
  lemma LinesBeforeFirstHeaderIgnored(prefix: seq<string>, rest: seq<string>)
    requires forall k :: 0 <= k < |prefix| ==> !IsHeader(Strip(prefix[k]))
    ensures LinesMacros(prefix + rest) == LinesMacros(rest)
  {
    RunAppend(Start, prefix, rest);
    NoMacroNoEffect(Start, prefix);
  }

  /** What `f` gives for each line, one after the other. */
  function Collect(lines: seq<string>, f: string -> seq<string>): seq<string>
    decreases |lines|
  {
    if lines == [] then [] else f(lines[0]) + Collect(lines[1..], f)
  }

  /** The name of a line's header, if it is one. */
  function LineHeader(rawLine: string): seq<string> {
    var line := Strip(rawLine);
    if IsHeader(line) then [HeaderName(line)] else []
  }

  /** The names of the headers among the lines, in order. */
  function HeaderNames(lines: seq<string>): seq<string> {
    Collect(lines, LineHeader)
  }

  /** The names of a list of macros, in order. */
  function Names(ms: seq<Macro>): seq<string> {
    seq(|ms|, k requires 0 <= k < |ms| => ms[k].name)
  }

  /** The names of the macros emitted so far and of the open one. */
  function OpenNames(st: State): seq<string> {
    Names(st.done) + (if st.current.Some? then [st.current.value.name] else [])
  }

  /** A line adds the name of its header, if it is one, and leaves the other names alone. */
  lemma StepNames(st: State, rawLine: string)
    ensures OpenNames(Step(st, rawLine)) == OpenNames(st) + LineHeader(rawLine)
  {
    var line := Strip(rawLine);
    if !IsBlank(line) && IsHeader(line) && st.current.Some? {
      assert Names(st.done + [st.current.value]) == Names(st.done) + [st.current.value.name];
    }
  }

  /** A loop whose every step adds what `f` gives for its line adds up what `f` gives for all lines. */
  lemma {:induction false} IterateCollects(st: State, lines: seq<string>, step: (State, string) -> State,
                                           names: State -> seq<string>, f: string -> seq<string>)
    requires forall s, l :: names(step(s, l)) == names(s) + f(l)
    ensures names(Iterate(st, lines, step)) == names(st) + Collect(lines, f)
    decreases |lines|
  {
    if lines != [] {
      var next := step(st, lines[0]);
      IterateCollects(next, lines[1..], step, names, f);
      assert names(next) + Collect(lines[1..], f) == names(st) + (f(lines[0]) + Collect(lines[1..], f));
    }
  }

  lemma RunNames(st: State, lines: seq<string>)
    ensures OpenNames(Run(st, lines)) == OpenNames(st) + HeaderNames(lines)
  {
    forall s, l ensures OpenNames(Step(s, l)) == OpenNames(s) + LineHeader(l) {
      StepNames(s, l);
    }
    IterateCollects(st, lines, Step, OpenNames, LineHeader);
  }

  /** One macro per header, in the order of the headers, named by them. */
  lemma MacrosInHeaderOrder(lines: seq<string>)
    ensures Names(LinesMacros(lines)) == HeaderNames(lines)
  {
    var st := Run(Start, lines);
    RunNames(Start, lines);
    FinishNames(st);
    assert OpenNames(Start) == [];
  }

  lemma FinishNames(st: State)
    ensures Names(Finish(st)) == OpenNames(st)
  {
    if st.current.Some? {
      var last := MacroWithDelays(st.current.value);
      assert Names(st.done + [last]) == Names(st.done) + [last.name];
    }
  }

  /** A `key = value` line that names no section puts later actions back into `actions`. */
  lemma ConfigLineResetsSection(st: State, rawLine: string)
    requires st.current.Some?
    requires var line := Strip(rawLine);
      !IsBlank(line) && !IsHeader(line) && '=' in line && SectionOf(ConfigKey(line)).None?
    ensures Step(st, rawLine).section == Actions
    ensures Step(st, rawLine).current == Some(ApplyConfigLine(Strip(rawLine), st.current.value))
  {
  }

  /** An action line extends the current section of the open macro and nothing else. */
  lemma ActionLineExtendsSection(st: State, rawLine: string)
    requires st.current.Some?
    requires var line := Strip(rawLine); !IsBlank(line) && !IsHeader(line) && '=' !in line
    ensures var m := st.current.value;
      var m' := Step(st, rawLine).current.value;
      Step(st, rawLine).current.Some? &&
      m'.ActionsOf(st.section) == m.ActionsOf(st.section) + LineActions(Strip(rawLine)) &&
      (forall other :: other != st.section ==> m'.ActionsOf(other) == m.ActionsOf(other)) &&
      Step(st, rawLine).done == st.done && Step(st, rawLine).section == st.section
  {
  }

  /**
   * Only the last macro gets default delays: every macro emitted at a header
   * keeps its action lists as they were read.
   */
  lemma OnlyLastMacroDelayed(lines: seq<string>)
    ensures var st := Run(Start, lines);
      var ms := LinesMacros(lines);
      |ms| == |st.done| + (if st.current.Some? then 1 else 0) &&
      (forall k :: 0 <= k < |st.done| ==> ms[k] == st.done[k]) &&
      (st.current.Some? ==> ms[|ms| - 1] == MacroWithDelays(st.current.value))
  {
  }

  /** A header emits the open macro exactly as it stands, with no delays inserted. */
  lemma HeaderEmitsMacroAsRead(st: State, rawLine: string)
    requires st.current.Some?
    requires IsHeader(Strip(rawLine))
    ensures Step(st, rawLine).done == st.done + [st.current.value]
  {
    assert !IsBlank(Strip(rawLine));
  }
}
