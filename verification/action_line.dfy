/**
 * Action lines of the text format (`_parse_action_line` and the
 * `_parse_*_action` parsers of `MacroParser`): a line is cut into tokens, the
 * tokens into segments that each start with an action keyword, and every
 * segment is read by the parser its keyword selects.
 */
module ActionLine {
  import opened Wrappers
  import opened Text
  import opened Language
  import opened Model
  import opened Values

  /** The name `MOUSE_ACTIONS` gives a button. */
  function ButtonName(b: Button): string {
    match b
    case Left => "left"
    case Right => "right"
    case Middle => "middle"
    case X1 => "x1"
    case X2 => "x2"
  }

  /**
   * `MOUSE_ACTIONS`: the canonical mouse words and the action each stands
   * for. A word names a click or a double click by the button's name
   * followed by "click" or "doubleclick".
   */
  function MouseAction(word: string): (r: Option<Action>)
    ensures r.Some? ==>
      (r.value.Click? && word == ButtonName(r.value.button) + "click") ||
      (r.value.DoubleClick? && word == ButtonName(r.value.button) + "doubleclick")
  {
    match word
    case "leftclick" => Some(Click(Left))
    case "rightclick" => Some(Click(Right))
    case "middleclick" => Some(Click(Middle))
    case "x1click" => Some(Click(X1))
    case "x2click" => Some(Click(X2))
    case "leftdoubleclick" => Some(DoubleClick(Left))
    case "rightdoubleclick" => Some(DoubleClick(Right))
    case "middledoubleclick" => Some(DoubleClick(Middle))
    case "x1doubleclick" => Some(DoubleClick(X1))
    case "x2doubleclick" => Some(DoubleClick(X2))
    case _ => None
  }

  /** Every button has a click word and a double-click word. */
  lemma MouseWords(b: Button)
    ensures MouseAction(ButtonName(b) + "click") == Some(Click(b))
    ensures MouseAction(ButtonName(b) + "doubleclick") == Some(DoubleClick(b))
  {
    match b
    case Left =>
      assert "left" + "click" == "leftclick";
      assert "left" + "doubleclick" == "leftdoubleclick";
    case Right =>
      assert "right" + "click" == "rightclick";
      assert "right" + "doubleclick" == "rightdoubleclick";
    case Middle =>
      assert "middle" + "click" == "middleclick";
      assert "middle" + "doubleclick" == "middledoubleclick";
    case X1 =>
      assert "x1" + "click" == "x1click";
      assert "x1" + "doubleclick" == "x1doubleclick";
    case X2 =>
      assert "x2" + "click" == "x2click";
      assert "x2" + "doubleclick" == "x2doubleclick";
  }

  /** The keys of `_action_parsers`: the five keyboard words and the mouse words. */
  predicate IsActionWord(word: string) {
    word in {"press", "hold", "keydown", "keyup", "delay"} || MouseAction(word).Some?
  }

  /** A token that, once translated, selects an action parser. */
  predicate IsKeyword(token: string) {
    IsActionWord(Translate(token))
  }

  /** The key name a token denotes: translated, trimmed, lower case. */
  function KeyOf(token: string): Key {
    ParseKey(Translate(token))
  }

  /** Key names separated by commas, `、` or whitespace. */
  function SeparatedKeys(text: string): (keys: seq<string>)
    ensures forall k <- keys :: IsWord(k)
  {
    Words(ReplaceChar(ReplaceChar(text, ',', ' '), '、', ' '))
  }

  /** The keys of a `press` segment: its arguments joined with spaces, then separated. */
  function PressKeys(parts: seq<string>): (keys: seq<string>)
    requires |parts| >= 1
    ensures forall k <- keys :: IsWord(k)
  {
    SeparatedKeys(Join(parts[1..], " "))
  }

  /** `_parse_press_action`: one press per key, or nothing without a key. */
  function ParsePress(parts: seq<string>): (r: Option<seq<Action>>)
    ensures r.Some? ==> |parts| >= 2 && |r.value| == |PressKeys(parts)| > 0
    ensures r.Some? ==> forall k :: 0 <= k < |r.value| ==> r.value[k] == Press(KeyOf(PressKeys(parts)[k]))
    ensures r.None? ==> |parts| < 2 || PressKeys(parts) == []
  {
    if |parts| >= 2 then
      var keys := PressKeys(parts);
      if keys == [] then None
      else Some(seq(|keys|, k requires 0 <= k < |keys| => Press(KeyOf(keys[k]))))
    else None
  }

  /** `_parse_hold_action`: a key and a duration. */
  function ParseHold(parts: seq<string>): (r: Option<Action>)
    ensures r.Some? <==> |parts| >= 3
    ensures r.Some? ==> r.value == Hold(KeyOf(parts[1]), ParseDelay(parts[2]))
  {
    if |parts| >= 3 then Some(Hold(KeyOf(parts[1]), ParseDelay(parts[2]))) else None
  }

  /** `_parse_delay_action`: a duration. */
  function ParseDelayAction(parts: seq<string>): (r: Option<Action>)
    ensures r.Some? <==> |parts| >= 2
    ensures r.Some? ==> r.value == Delay(ParseDelay(parts[1]))
  {
    if |parts| >= 2 then Some(Delay(ParseDelay(parts[1]))) else None
  }

  /** `_parse_keydown_action`: a key pressed and left down. */
  function ParseKeyDown(parts: seq<string>): (r: Option<Action>)
    ensures r.Some? <==> |parts| >= 2
    ensures r.Some? ==> r.value == KeyDown(KeyOf(parts[1]))
  {
    if |parts| >= 2 then Some(KeyDown(KeyOf(parts[1]))) else None
  }

  /** `_parse_keyup_action`: a key released. */
  function ParseKeyUp(parts: seq<string>): (r: Option<Action>)
    ensures r.Some? <==> |parts| >= 2
    ensures r.Some? ==> r.value == KeyUp(KeyOf(parts[1]))
  {
    if |parts| >= 2 then Some(KeyUp(KeyOf(parts[1]))) else None
  }

  function AsList(r: Option<Action>): Option<seq<Action>> {
    if r.Some? then Some([r.value]) else None
  }

  /**
   * The parser selected by the translated first token, applied to the whole
   * segment; `None` stands for a falsy result, which adds nothing.
   */
  function ParseSegment(segment: seq<string>): (r: Option<seq<Action>>)
    ensures r.Some? ==> segment != [] && IsKeyword(segment[0]) && r.value != []
  {
    if segment == [] then None
    else
      var word := Translate(segment[0]);
      match word
      case "press" => ParsePress(segment)
      case "hold" => AsList(ParseHold(segment))
      case "delay" => AsList(ParseDelayAction(segment))
      case "keydown" => AsList(ParseKeyDown(segment))
      case "keyup" => AsList(ParseKeyUp(segment))
      case _ => AsList(MouseAction(word))
  }

  /** A mouse keyword gives its one click whatever arguments follow it. */
  lemma MouseSegmentIgnoresArguments(word: string, arguments: seq<string>)
    requires MouseAction(Translate(word)).Some?
    ensures ParseSegment([word] + arguments) == Some([MouseAction(Translate(word)).value])
  {
    var w := Translate(word);
    assert w != "press" && w != "hold" && w != "delay" && w != "keydown" && w != "keyup";
    assert ([word] + arguments)[0] == word;
  }

  /** The number of tokens at the front of `tokens` that are not keywords. */
  function LeadingArguments(tokens: seq<string>, kw: string -> bool): (n: nat)
    ensures n <= |tokens|
    ensures forall k :: 0 <= k < n ==> !kw(tokens[k])
    ensures n < |tokens| ==> kw(tokens[n])
  {
    if tokens == [] || kw(tokens[0]) then 0 else 1 + LeadingArguments(tokens[1..], kw)
  }

  /** The only count that meets the three conditions of `LeadingArguments`. */
  lemma {:induction false} LeadingArgumentsUnique(tokens: seq<string>, kw: string -> bool, n: nat)
    requires n <= |tokens|
    requires forall k :: 0 <= k < n ==> !kw(tokens[k])
    requires n < |tokens| ==> kw(tokens[n])
    ensures LeadingArguments(tokens, kw) == n
    decreases n
  {
    if n > 0 {
      assert !kw(tokens[0]);
      LeadingArgumentsUnique(tokens[1..], kw, n - 1);
    }
  }

  /** A keyword followed by tokens that are no keyword. */
  predicate IsSegment(segment: seq<string>, kw: string -> bool) {
    segment != [] && kw(segment[0]) &&
    forall k :: 1 <= k < |segment| ==> !kw(segment[k])
  }

  function Concat(segments: seq<seq<string>>): seq<string> {
    if segments == [] then [] else segments[0] + Concat(segments[1..])
  }

  /**
   * The tokens cut at every keyword: each keyword starts a segment that runs
   * to the next keyword; tokens before the first keyword are dropped. Which
   * tokens are keywords is a parameter; action lines use `IsKeyword`.
   */
  function Segments(tokens: seq<string>, kw: string -> bool): seq<seq<string>>
    decreases |tokens|
  {
    if tokens == [] then []
    else if !kw(tokens[0]) then Segments(tokens[1..], kw)
    else
      var n := 1 + LeadingArguments(tokens[1..], kw);
      [tokens[..n]] + Segments(tokens[n..], kw)
  }

  /**
   * Every segment is a keyword followed by arguments that are no keyword,
   * and the segments put together give back the tokens from the first
   * keyword on.
   */
  lemma SegmentsCoverTokens(tokens: seq<string>, kw: string -> bool)
    ensures forall k :: 0 <= k < |Segments(tokens, kw)| ==> IsSegment(Segments(tokens, kw)[k], kw)
    ensures Concat(Segments(tokens, kw)) == tokens[LeadingArguments(tokens, kw)..]
  {
    SegmentsAreSegments(tokens, kw);
    SegmentsConcatenate(tokens, kw);
  }

  /** The first segment of tokens that start with a keyword. */
  lemma HeadSegment(tokens: seq<string>, kw: string -> bool) returns (n: nat)
    requires tokens != [] && kw(tokens[0])
    ensures 1 <= n <= |tokens| && n == 1 + LeadingArguments(tokens[1..], kw)
    ensures Segments(tokens, kw) == [tokens[..n]] + Segments(tokens[n..], kw)
    ensures IsSegment(tokens[..n], kw)
    ensures LeadingArguments(tokens[n..], kw) == 0
  {
    n := 1 + LeadingArguments(tokens[1..], kw);
    var head := tokens[..n];
    forall k | 1 <= k < |head| ensures !kw(head[k]) {
      assert head[k] == tokens[1..][k - 1];
    }
  }

  lemma {:induction false} SegmentsAreSegments(tokens: seq<string>, kw: string -> bool)
    ensures forall k :: 0 <= k < |Segments(tokens, kw)| ==> IsSegment(Segments(tokens, kw)[k], kw)
    decreases |tokens|
  {
    if tokens == [] {
    } else if !kw(tokens[0]) {
      SegmentsAreSegments(tokens[1..], kw);
    } else {
      var n := HeadSegment(tokens, kw);
      var rest := Segments(tokens[n..], kw);
      SegmentsAreSegments(tokens[n..], kw);
      forall k | 0 <= k < |[tokens[..n]] + rest| ensures IsSegment(([tokens[..n]] + rest)[k], kw) {
        if k > 0 {
          assert ([tokens[..n]] + rest)[k] == rest[k - 1];
        }
      }
    }
  }

  lemma {:induction false} SegmentsConcatenate(tokens: seq<string>, kw: string -> bool)
    ensures Concat(Segments(tokens, kw)) == tokens[LeadingArguments(tokens, kw)..]
    decreases |tokens|
  {
    if tokens == [] {
    } else if !kw(tokens[0]) {
      SegmentsConcatenate(tokens[1..], kw);
      assert tokens[1..][LeadingArguments(tokens[1..], kw)..] == tokens[LeadingArguments(tokens, kw)..];
    } else {
      var n := HeadSegment(tokens, kw);
      var head := tokens[..n];
      var rest := Segments(tokens[n..], kw);
      SegmentsConcatenate(tokens[n..], kw);
      assert tokens[n..][0..] == tokens[n..];
      assert ([head] + rest)[0] == head;
      assert ([head] + rest)[1..] == rest;
      assert head + tokens[n..] == tokens[0..];
    }
  }

  /** The actions `parse` makes of the segments, in order; a `None` adds nothing. */
  function SegmentActions(segments: seq<seq<string>>, parse: seq<string> -> Option<seq<Action>>): seq<Action> {
    if segments == [] then []
    else
      var r := parse(segments[0]);
      (if r.Some? then r.value else []) + SegmentActions(segments[1..], parse)
  }

  /** The tokens of an action line: comment removed, trimmed, split on whitespace. */
  function Tokens(line: string): seq<string> {
    Words(Strip(Before(line, '#')))
  }

  /** What `_parse_action_line` returns for a line. */
  function LineActions(line: string): seq<Action> {
    SegmentActions(Segments(Tokens(line), IsKeyword), ParseSegment)
  }

  /**
   * `_parse_action_line`: the comment is cut off, the rest trimmed and split
   * into tokens, and the tokens are parsed.
   */
  method ParseActionLine(line: string) returns (actions: seq<Action>)
    ensures actions == LineActions(line)
  {
    var text := Strip(Before(line, '#'));
    if text == [] {
      return [];
    }
    var parts := Words(text);
    if parts == [] {
      return [];
    }
    actions := ParseTokens(parts, IsKeyword, ParseSegment);
  }

  /**
   * The loop of `_parse_action_line`: walks the tokens with an index,
   * skipping tokens that are no keyword and handing each keyword with its
   * arguments to the parser the keyword selects.
   */
  method ParseTokens(parts: seq<string>, kw: string -> bool, parse: seq<string> -> Option<seq<Action>>)
    returns (actions: seq<Action>)
    ensures actions == SegmentActions(Segments(parts, kw), parse)
  {
    ghost var total := SegmentActions(Segments(parts, kw), parse);
    actions := [];
    var i := 0;
    while i < |parts|
      invariant 0 <= i <= |parts|
      invariant actions + SegmentActions(Segments(parts[i..], kw), parse) == total
    {
      if kw(parts[i]) {
        var next := NextKeyword(parts, kw, i + 1);
        var end := if next.Some? then next.value else |parts|;
        var result := parse(parts[i..end]);
        KeywordStep(parts, kw, parse, i, end, actions);
        if result.Some? {
          actions := actions + result.value;
        }
        i := end;
      } else {
        OtherStep(parts, kw, parse, i);
        i := i + 1;
      }
    }
  }

  /** Handing the segment `parts[i..end]` to its parser keeps the loop invariant. */
  lemma KeywordStep(parts: seq<string>, kw: string -> bool, parse: seq<string> -> Option<seq<Action>>,
                    i: nat, end: nat, actions: seq<Action>)
    requires i < end <= |parts| && kw(parts[i])
    requires forall k :: i + 1 <= k < end ==> !kw(parts[k])
    requires end < |parts| ==> kw(parts[end])
    ensures var r := parse(parts[i..end]);
      actions + SegmentActions(Segments(parts[i..], kw), parse) ==
      (if r.Some? then actions + r.value else actions) + SegmentActions(Segments(parts[end..], kw), parse)
  {
    SegmentAt(parts, kw, i, end);
    SegmentActionsCons(parts[i..end], Segments(parts[end..], kw), parse);
  }

  /** Skipping a token that is no keyword keeps the loop invariant. */
  lemma OtherStep(parts: seq<string>, kw: string -> bool, parse: seq<string> -> Option<seq<Action>>, i: nat)
    requires i < |parts| && !kw(parts[i])
    ensures SegmentActions(Segments(parts[i..], kw), parse) == SegmentActions(Segments(parts[i + 1..], kw), parse)
  {
    assert parts[i..][0] == parts[i] && parts[i..][1..] == parts[i + 1..];
  }

  /** The `for j in range(i + 1, len(parts))` search for the next keyword. */
  method NextKeyword(parts: seq<string>, kw: string -> bool, from: nat) returns (next: Option<nat>)
    requires from <= |parts|
    ensures next.Some? ==> from <= next.value < |parts| && kw(parts[next.value])
    ensures forall k :: from <= k < (if next.Some? then next.value else |parts|) ==> !kw(parts[k])
  {
    next := None;
    var j := from;
    while j < |parts|
      invariant from <= j <= |parts|
      invariant forall k :: from <= k < j ==> !kw(parts[k])
    {
      if kw(parts[j]) {
        next := Some(j);
        break;
      }
      j := j + 1;
    }
  }

  lemma SegmentActionsCons(segment: seq<string>, rest: seq<seq<string>>, parse: seq<string> -> Option<seq<Action>>)
    ensures SegmentActions([segment] + rest, parse) ==
      (if parse(segment).Some? then parse(segment).value else []) + SegmentActions(rest, parse)
  {
    assert ([segment] + rest)[1..] == rest;
  }

  /** The segment that starts at keyword `i` runs to the next keyword `end`. */
  lemma SegmentAt(parts: seq<string>, kw: string -> bool, i: nat, end: nat)
    requires i < end <= |parts| && kw(parts[i])
    requires forall k :: i + 1 <= k < end ==> !kw(parts[k])
    requires end < |parts| ==> kw(parts[end])
    ensures Segments(parts[i..], kw) == [parts[i..end]] + Segments(parts[end..], kw)
  {
    var tokens := parts[i..];
    LeadingArgumentsUnique(tokens[1..], kw, end - i - 1);
    assert tokens[..end - i] == parts[i..end];
    assert tokens[end - i..] == parts[end..];
  }

  // Properties of action lines

  /** Text after the first `#` does not matter. */
  lemma CommentIgnored(code: string, comment: string)
    requires '#' !in code
    ensures LineActions(code + "#" + comment) == LineActions(code)
  {
    var line := code + "#" + comment;
    assert line[|code|] == '#';
    assert line[..|code|] == code;
    assert Before(line, '#') == code;
  }

  /** Tokens before the first keyword produce nothing. */
  lemma {:induction false} LeadingTokensIgnored(junk: seq<string>, tokens: seq<string>, kw: string -> bool)
    requires forall k :: 0 <= k < |junk| ==> !kw(junk[k])
    ensures Segments(junk + tokens, kw) == Segments(tokens, kw)
    decreases |junk|
  {
    if junk != [] {
      assert (junk + tokens)[0] == junk[0] && !kw(junk[0]);
      assert (junk + tokens)[1..] == junk[1..] + tokens;
      assert Segments(junk + tokens, kw) == Segments(junk[1..] + tokens, kw);
      LeadingTokensIgnored(junk[1..], tokens, kw);
    } else {
      assert junk + tokens == tokens;
    }
  }

  /** A keyword, its arguments and the rest: the keyword's parser sees exactly its arguments. */
  lemma ArgumentsUpToNextKeyword(keyword: string, arguments: seq<string>, rest: seq<string>, kw: string -> bool)
    requires kw(keyword)
    requires forall k :: 0 <= k < |arguments| ==> !kw(arguments[k])
    requires rest == [] || kw(rest[0])
    ensures Segments([keyword] + arguments + rest, kw) == [[keyword] + arguments] + Segments(rest, kw)
  {
    var parts := [keyword] + arguments + rest;
    var end := 1 + |arguments|;
    forall k | 1 <= k < end ensures !kw(parts[k]) {
      assert parts[k] == arguments[k - 1];
    }
    SegmentAt(parts, kw, 0, end);
    assert parts[0..] == parts;
    assert parts[0..end] == [keyword] + arguments;
    assert parts[end..] == rest;
  }

  /** `press k1 k2 ...` with plain key names gives one press per key, in order. */
  lemma PressExpands(keyword: string, keys: seq<string>)
    requires forall k :: 0 <= k < |keys| ==> IsWord(keys[k]) && ',' !in keys[k] && '、' !in keys[k]
    requires keys != []
    ensures ParsePress([keyword] + keys) ==
      Some(seq(|keys|, k requires 0 <= k < |keys| => Press(KeyOf(keys[k]))))
  {
    var parts := [keyword] + keys;
    assert parts[1..] == keys;
    var joined := Join(keys, " ");
    JoinKeepsOut(keys, " ", ',');
    JoinKeepsOut(keys, " ", '、');
    ReplaceAbsent(joined, ',', ' ');
    ReplaceAbsent(joined, '、', ' ');
    WordsOfJoin(keys);
  }

  /** A character in no word and not in the separator is not in the joined text. */
  lemma {:induction false} JoinKeepsOut(ws: seq<string>, sep: string, c: char)
    requires forall k :: 0 <= k < |ws| ==> c !in ws[k]
    requires c !in sep
    ensures c !in Join(ws, sep)
    decreases |ws|
  {
    if |ws| > 1 {
      JoinKeepsOut(ws[1..], sep, c);
      assert c !in ws[0];
    }
  }

  lemma ReplaceAbsent(s: string, from: char, to: char)
    requires from !in s
    ensures ReplaceChar(s, from, to) == s
  {
  }

  /** Commas and `、` separate keys as spaces do: `press a,b` is `press a b`. */
  lemma PressCommaSeparated(keyword: string, a: string, b: string)
    requires IsWord(a) && IsWord(b)
    requires ',' !in a && ',' !in b && '、' !in a && '、' !in b
    ensures ParsePress([keyword, a + "," + b]) == ParsePress([keyword, a, b])
  {
    var s := a + "," + b;
    var spaced := a + " " + b;
    assert ReplaceChar(s, ',', ' ') == spaced by {
      forall k | 0 <= k < |s| ensures ReplaceChar(s, ',', ' ')[k] == spaced[k] {
        if k < |a| {
          assert s[k] == a[k] && spaced[k] == a[k];
        } else if k > |a| {
          assert s[k] == b[k - |a| - 1] && spaced[k] == b[k - |a| - 1];
        }
      }
    }
    assert [keyword, s][1..] == [s];
    assert Join([s], " ") == s;
    JoinKeepsOut([a, b], " ", ',');
    JoinKeepsOut([a, b], " ", '、');
    assert [keyword, a, b][1..] == [a, b];
    assert Join([a, b], " ") == spaced by {
      assert Join([a, b], " ") == a + " " + Join([b], " ");
    }
    ReplaceAbsent(spaced, ',', ' ');
    assert PressKeys([keyword, s]) == PressKeys([keyword, a, b]);
  }
}
