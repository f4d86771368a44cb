/**
 * The key script inside the XML format (`_parse_xml_syntax`): one command
 * per line, `KeyDown <scan code>`, `KeyUp <scan code>`, `Delay <ms>`,
 * `LeftDown ...` and `RightDown ...`. An argument that does not read as an
 * integer makes `int()` raise, which abandons the whole script.
 */
module XmlSyntax {
  import opened Wrappers
  import opened Text
  import opened Model
  import opened Values

  /** `XML_REPEAT_MODE.get(repeat_type, 'once')`. */
  function XmlRepeatMode(repeatType: string): (mode: RepeatMode)
    ensures mode == LoopMode <==> repeatType == "1"
    ensures mode == HoldMode <==> repeatType == "2"
  {
    match repeatType
    case "1" => LoopMode
    case "2" => HoldMode
    case _ => OnceMode
  }

  /** What one line contributes; `Failure` where `int()` would raise. */
  function LineResult(line: string): Result<seq<Action>> {
    var parts := Words(Strip(line));
    if |parts| < 2 then Success([])
    else
      var cmd := parts[0];
      var arg := parts[1];
      if cmd == "KeyDown" || cmd == "KeyUp" then
        var code := ParseInt(arg);
        if code.None? then Failure
        else
          var key := ParseKeyCode(code.value);
          if key.None? then Success([])
          else if cmd == "KeyDown" then Success([KeyDown(key.value)])
          else Success([KeyUp(key.value)])
      else if cmd == "Delay" then
        var ms := ParseInt(arg);
        if ms.None? then Failure else Success([Delay(ms.value * 1000)])
      else if cmd == "LeftDown" then Success([Click(Left)])
      else if cmd == "RightDown" then Success([Click(Right)])
      else Success([])
  }

  /** Lines read in order by `line`; the first failing line fails the whole. */
  function Fold(lines: seq<string>, line: string -> Result<seq<Action>>): Result<seq<Action>>
    decreases |lines|
  {
    if lines == [] then Success([])
    else
      var init := Fold(lines[..|lines| - 1], line);
      var last := line(lines[|lines| - 1]);
      if init.Failure? || last.Failure? then Failure else Success(init.value + last.value)
  }

  /** The actions of a whole script. */
  function ScriptResult(lines: seq<string>): Result<seq<Action>> {
    Fold(lines, LineResult)
  }

  /** The lines of a script: trimmed as a whole, then split at newlines. */
  function ScriptLines(syntax: string): seq<string> {
    Split(Strip(syntax), '\n')
  }

  /** `_parse_xml_syntax`, with the exception it can raise as `Failure`. */
  method ParseXmlSyntax(syntax: string) returns (r: Result<seq<Action>>)
    ensures r == ScriptResult(ScriptLines(syntax))
  {
    var lines := ScriptLines(syntax);
    var actions: seq<Action> := [];
    for i := 0 to |lines|
      invariant Fold(lines[..i], LineResult) == Success(actions)
    {
      var line := lines[i];
      var parts := Words(Strip(line));
      var added: seq<Action> := [];
      if |parts| >= 2 {
        var cmd := parts[0];
        if cmd == "KeyDown" || cmd == "KeyUp" {
          var code := ParseInt(parts[1]);
          if code.None? {
            FoldStopsAt(lines, i, LineResult);
            return Failure;
          }
          var key := ParseKeyCode(code.value);
          if key.Some? {
            added := [if cmd == "KeyDown" then KeyDown(key.value) else KeyUp(key.value)];
          }
        } else if cmd == "Delay" {
          var ms := ParseInt(parts[1]);
          if ms.None? {
            FoldStopsAt(lines, i, LineResult);
            return Failure;
          }
          added := [Delay(ms.value * 1000)];
        } else if cmd == "LeftDown" {
          added := [Click(Left)];
        } else if cmd == "RightDown" {
          added := [Click(Right)];
        }
      }
      assert LineResult(line) == Success(added);
      FoldExtends(lines, i, LineResult);
      actions := actions + added;
    }
    assert lines[..|lines|] == lines;
    return Success(actions);
  }

  /** One more line of a successful prefix. */
  lemma FoldExtends(lines: seq<string>, i: nat, line: string -> Result<seq<Action>>)
    requires i < |lines|
    ensures Fold(lines[..i + 1], line) ==
      if Fold(lines[..i], line).Failure? || line(lines[i]).Failure? then Failure
      else Success(Fold(lines[..i], line).value + line(lines[i]).value)
  {
    assert lines[..i + 1][..i] == lines[..i];
  }

  /** A failing line fails every script that holds it. */
  lemma FoldStopsAt(lines: seq<string>, i: nat, line: string -> Result<seq<Action>>)
    requires i < |lines| && line(lines[i]).Failure?
    ensures Fold(lines, line).Failure?
  {
    FoldExtends(lines, i, line);
    FailureSticks(lines, i + 1, line);
  }

  /** Once a prefix of the script fails, the whole script fails. */
  lemma {:induction false} FailureSticks(lines: seq<string>, n: nat, line: string -> Result<seq<Action>>)
    requires n <= |lines| && Fold(lines[..n], line).Failure?
    ensures Fold(lines, line).Failure?
    decreases |lines| - n
  {
    if n < |lines| {
      FoldExtends(lines, n, line);
      FailureSticks(lines, n + 1, line);
    } else {
      assert lines[..n] == lines;
    }
  }

  // Properties of the script reader

  /** A script fails exactly when one of its lines does. */
  lemma {:induction false} FailsIffSomeLineFails(lines: seq<string>, line: string -> Result<seq<Action>>)
    ensures Fold(lines, line).Failure? <==> exists k :: 0 <= k < |lines| && line(lines[k]).Failure?
    decreases |lines|
  {
    if lines != [] {
      var init := lines[..|lines| - 1];
      FailsIffSomeLineFails(init, line);
      if exists k :: 0 <= k < |init| && line(init[k]).Failure? {
        var k :| 0 <= k < |init| && line(init[k]).Failure?;
        assert lines[k] == init[k];
      }
      if exists k :: 0 <= k < |lines| && line(lines[k]).Failure? {
        var k :| 0 <= k < |lines| && line(lines[k]).Failure?;
        if k < |init| {
          assert init[k] == lines[k];
        }
      }
    }
  }

  /** A script fails exactly when one of its lines has a non-integer argument. */
  lemma ScriptFailsIffSomeLineFails(lines: seq<string>)
    ensures ScriptResult(lines).Failure? <==> exists k :: 0 <= k < |lines| && LineResult(lines[k]).Failure?
  {
    FailsIffSomeLineFails(lines, LineResult);
  }

  /** A successful script yields the actions of its two parts, one after the other. */
  lemma {:induction false} SuccessConcatenates(lines: seq<string>, split: nat, line: string -> Result<seq<Action>>)
    requires split <= |lines|
    requires Fold(lines, line).Success?
    ensures Fold(lines[..split], line).Success? && Fold(lines[split..], line).Success?
    ensures Fold(lines, line).value == Fold(lines[..split], line).value + Fold(lines[split..], line).value
    decreases |lines|
  {
    if split == |lines| {
      assert lines[..split] == lines;
      assert lines[split..] == [];
    } else {
      var init := lines[..|lines| - 1];
      var tail := lines[split..];
      assert init[..split] == lines[..split];
      assert tail[..|tail| - 1] == init[split..];
      assert tail[|tail| - 1] == lines[|lines| - 1];
      SuccessConcatenates(init, split, line);
    }
  }

  /** The actions of a script are those of its first lines followed by those of the rest. */
  lemma ScriptConcatenates(lines: seq<string>, split: nat)
    requires split <= |lines|
    requires ScriptResult(lines).Success?
    ensures ScriptResult(lines[..split]).Success? && ScriptResult(lines[split..]).Success?
    ensures ScriptResult(lines).value == ScriptResult(lines[..split]).value + ScriptResult(lines[split..]).value
  {
    SuccessConcatenates(lines, split, LineResult);
  }

  /** A line of fewer than two words is skipped. */
  lemma ShortLineSkipped(line: string)
    requires |Words(Strip(line))| < 2
    ensures LineResult(line) == Success([])
  {
  }

  /** A scan code outside the table produces nothing, without failing. */
  lemma UnknownScanCodeSkipped(cmd: string, code: nat, line: string)
    requires cmd == "KeyDown" || cmd == "KeyUp"
    requires ParseKeyCode(code).None?
    requires Words(Strip(line)) == [cmd, NatToString(code)]
    ensures LineResult(line) == Success([])
  {
    ParseIntOfNatToString(code);
  }

  /** `Delay <n>` waits n milliseconds. */
  lemma DelayLine(n: nat, line: string)
    requires Words(Strip(line)) == ["Delay", NatToString(n)]
    ensures LineResult(line) == Success([Delay(1000 * n)])
  {
    ParseIntOfNatToString(n);
  }
}
