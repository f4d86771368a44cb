/**
 * Reading single values out of configuration text: key names, delays and
 * scan codes (`parse_key`, `parse_delay`, `parse_key_code` of `MacroEngine`),
 * and the `int()` / `float()` conversions they rest on.
 */
module Values {
  import opened Wrappers
  import opened Text
  import opened Model
  import Config

  predicate IsDigit(c: char) {
    '0' <= c <= '9'
  }

  predicate AllDigits(s: string) {
    forall c <- s :: IsDigit(c)
  }

  /** The value of a string of decimal digits ("" reads as 0). */
  function DigitsValue(s: string): (n: nat)
    requires AllDigits(s)
  {
    if s == [] then 0
    else
      assert s[|s| - 1] in s;
      10 * DigitsValue(s[..|s| - 1]) + (s[|s| - 1] as int - '0' as int)
  }

  /** `str(n)` for a natural number. */
  function NatToString(n: nat): (s: string)
    ensures s != [] && AllDigits(s)
  {
    if n < 10 then [('0' as int + n) as char] else NatToString(n / 10) + [('0' as int + n % 10) as char]
  }

  lemma {:induction false} NatToStringValue(n: nat)
    ensures DigitsValue(NatToString(n)) == n
  {
    var s := NatToString(n);
    if n >= 10 {
      assert s[..|s| - 1] == NatToString(n / 10);
      NatToStringValue(n / 10);
    }
  }

  /** A leading sign, if any, and the rest. */
  function SignOf(s: string): (r: (int, string))
    ensures r.0 == 1 || r.0 == -1
  {
    if s != [] && s[0] == '-' then (-1, s[1..])
    else if s != [] && s[0] == '+' then (1, s[1..])
    else (1, s)
  }

  /** `int(s)` on ASCII decimal text: an optional sign and at least one digit. */
  function ParseInt(s: string): Option<int> {
    var t := Strip(s);
    var (sign, digits) := SignOf(t);
    if digits != [] && AllDigits(digits) then
      Some(sign * DigitsValue(digits))
    else None
  }

  /** `int(str(n)) == n`. */
  lemma ParseIntOfNatToString(n: nat)
    ensures ParseInt(NatToString(n)) == Some(n)
  {
    var s := NatToString(n);
    assert s[0] in s;
    StripOfDigits(s);
    NatToStringValue(n);
  }

  lemma StripOfDigits(s: string)
    requires s != [] && AllDigits(s)
    ensures Strip(s) == s
  {
    assert s[0] in s && s[|s| - 1] in s;
    StrippedIsFixed(s);
  }

  /** `n` followed by `places` zero digits: `n * 10^places`. */
  function Shifted(n: nat, places: nat): nat {
    if places == 0 then n else 10 * Shifted(n, places - 1)
  }

  /** `n` zero digits. */
  function Zeros(n: nat): (z: string)
    ensures |z| == n && AllDigits(z)
    ensures forall c <- z :: c == '0'
  {
    if n == 0 then [] else Zeros(n - 1) + "0"
  }

  lemma {:induction false} ZerosValue(n: nat)
    ensures DigitsValue(Zeros(n)) == 0
  {
    if n > 0 {
      ZerosValue(n - 1);
      AppendDigit(Zeros(n - 1), '0');
    }
  }

  /** The first `places` digits of a fraction, padded with zeros, as a number. */
  function FractionValue(fraction: string, places: nat): nat
    requires AllDigits(fraction)
  {
    var kept := (fraction + Zeros(places))[..places];
    assert forall c <- kept :: c in fraction + Zeros(places);
    DigitsValue(kept)
  }

  /**
   * `float(s)` times `10^places`, with the digits below that dropped: an
   * optional sign, digits, an optional point and fraction digits, at least
   * one digit in all. A negative number carries a minus sign.
   */
  function ParseFixed(s: string, places: nat): (r: Option<int>)
    ensures r.Some? && r.value < 0 ==> '-' in s
  {
    var t := Strip(s);
    var (sign, body) := SignOf(t);
    var whole := Before(body, '.');
    var fraction := if '.' in body then After(body, '.') else [];
    if AllDigits(whole) && AllDigits(fraction) && |whole| + |fraction| >= 1 then
      var magnitude := Shifted(DigitsValue(whole), places) + FractionValue(fraction, places);
      StripKeeps(s);
      assert sign < 0 ==> t[0] in t;
      Some(if sign < 0 then -magnitude else magnitude)
    else None
  }

  /** `float(str(n))` is `n`. */
  lemma ParseFixedOfNatToString(n: nat, places: nat)
    ensures ParseFixed(NatToString(n), places) == Some(Shifted(n, places))
  {
    var s := NatToString(n);
    assert s[0] in s;
    StripOfDigits(s);
    NatToStringValue(n);
    assert !IsDigit('.');
    assert SignOf(s) == (1, s);
    assert Before(s, '.') == s;
    assert ([] + Zeros(places))[..places] == Zeros(places);
    ZerosValue(places);
  }

  /** Text without a digit never reads as a number. */
  lemma NoDigitNoNumber(s: string, places: nat)
    requires forall c <- s :: !IsDigit(c)
    ensures ParseFixed(s, places) == None
  {
    var t := Strip(s);
    var (sign, body) := SignOf(t);
    var whole := Before(body, '.');
    var fraction := if '.' in body then After(body, '.') else [];
    StripKeeps(s);
    assert forall c <- body :: c in t;
    if whole != [] {
      assert whole[0] == body[0];
      assert !IsDigit(whole[0]);
    } else if fraction != [] {
      assert body == whole + ['.'] + fraction;
      assert fraction[0] == body[1];
      assert !IsDigit(fraction[0]);
    }
  }

  /** `parse_key`: surrounding whitespace removed, lower case. */
  function ParseKey(keyStr: string): (k: Key)
    ensures Stripped(k)
    ensures forall c <- k :: !('A' <= c <= 'Z')
  {
    StripIsStripped(keyStr);
    LowerKeepsStripped(Strip(keyStr));
    LowerHasNoUpper(Strip(keyStr));
    Lower(Strip(keyStr))
  }

  /** A key name that has been through `parse_key` is left alone by it. */
  lemma ParseKeyIdempotent(keyStr: string)
    ensures ParseKey(ParseKey(keyStr)) == ParseKey(keyStr)
  {
    var k := ParseKey(keyStr);
    StrippedIsFixed(k);
    LowerIdempotent(Strip(keyStr));
  }

  /** The number read, or the fallback delay when `float()` raised `ValueError`. */
  function OrFallback(n: Option<int>): int {
    if n.Some? then n.value else Config.DefaultDelayFallback
  }

  /**
   * `parse_delay`, in microseconds: a text containing "ms" is milliseconds,
   * else one containing "s" or "秒" is seconds, else a bare number is
   * milliseconds; text that does not read as a number gives the fallback.
   * Only text with a minus sign gives a negative delay.
   */
  function ParseDelay(delayStr: string): (r: int)
    ensures r < 0 ==> '-' in delayStr
  {
    var t := Lower(Strip(delayStr));
    MinusSurvives(delayStr);
    RemoveAllKeeps(t, "ms");
    RemoveCharsKeeps(t, {'s', '秒'});
    if Contains(t, "ms") then OrFallback(ParseFixed(RemoveAll(t, "ms"), 3))
    else if 's' in t || '秒' in t then OrFallback(ParseFixed(RemoveChars(t, {'s', '秒'}), 6))
    else OrFallback(ParseFixed(t, 3))
  }

  lemma MinusSurvives(s: string)
    ensures '-' in Lower(Strip(s)) ==> '-' in s
  {
    StripKeeps(s);
    var x := Strip(s);
    if '-' in Lower(x) {
      var i :| 0 <= i < |x| && Lower(x)[i] == '-';
      assert x[i] in x;
    }
  }

  /** Seconds are read to the microsecond: "0.0015s" is 1500 µs and "0.0005s" is 500 µs. */
  /**
   * Seconds with a fraction are read to the microsecond: up to six fraction
   * digits all count, so "0.0015s" is 1500 µs and "0.0005s" is 500 µs.
   */
  lemma ParseDelayDecimalSeconds(whole: string, fraction: string)
    requires whole != [] && AllDigits(whole) && AllDigits(fraction) && |fraction| <= 6
    ensures ParseDelay(whole + "." + fraction + "s") ==
      1_000_000 * DigitsValue(whole) + Shifted(DigitsValue(fraction), 6 - |fraction|)
  {
    var d := whole + "." + fraction;
    assert d[0] == whole[0] && whole[0] in whole;
    SecondsText(d);
    FixedWithFraction(whole, fraction, 6);
    ShiftedSix(DigitsValue(whole));
  }

  /** A numeral followed by "s" is read as seconds. */
  lemma SecondsText(d: string)
    requires d != [] && IsDigit(d[0]) && forall c <- d :: IsDigit(c) || c == '.'
    ensures ParseDelay(d + "s") == OrFallback(ParseFixed(d, 6))
  {
    var t := d + "s";
    assert t[0] == d[0];
    assert t[|t| - 1] == 's';
    StrippedIsFixed(t);
    assert forall c <- t :: c in d || c == 's';
    LowerOfNoUpper(t);
    NoMsWithoutM(t);
    assert t[|t| - 1] in t;
    RemoveCharsOfNumeral(d, "s");
  }

  /** "<whole>.<fraction>" read to `places` fraction digits, when it has no more than that. */
  lemma FixedWithFraction(whole: string, fraction: string, places: nat)
    requires whole != [] && AllDigits(whole) && AllDigits(fraction) && |fraction| <= places
    ensures ParseFixed(whole + "." + fraction, places) ==
      Some(Shifted(DigitsValue(whole), places) + Shifted(DigitsValue(fraction), places - |fraction|))
  {
    DecimalParts(whole, fraction, places);
    PaddedFraction(fraction, places);
  }

  lemma DecimalParts(whole: string, fraction: string, places: nat)
    requires whole != [] && AllDigits(whole) && AllDigits(fraction)
    ensures ParseFixed(whole + "." + fraction, places) ==
      Some(Shifted(DigitsValue(whole), places) + FractionValue(fraction, places))
  {
    DecimalSplits(whole, fraction);
    UnsignedDecimal(whole + "." + fraction, places);
  }

  lemma UnsignedDecimal(s: string, places: nat)
    requires Strip(s) == s && SignOf(s) == (1, s) && '.' in s
    requires AllDigits(Before(s, '.')) && AllDigits(After(s, '.')) && Before(s, '.') != []
    ensures ParseFixed(s, places) ==
      Some(Shifted(DigitsValue(Before(s, '.')), places) + FractionValue(After(s, '.'), places))
  {
  }

  lemma DecimalSplits(whole: string, fraction: string)
    requires whole != [] && AllDigits(whole) && AllDigits(fraction)
    ensures var s := whole + "." + fraction;
      Strip(s) == s && SignOf(s) == (1, s) && '.' in s && Before(s, '.') == whole && After(s, '.') == fraction
  {
    var s := whole + "." + fraction;
    assert s[0] == whole[0] && whole[0] in whole;
    assert s[|s| - 1] == '.' || s[|s| - 1] in fraction;
    StrippedIsFixed(s);
    assert SignOf(s) == (1, s);
    IndexAfterPrefix(whole, '.', fraction);
    assert s[..|whole|] == whole && s[|whole| + 1..] == fraction;
  }

  lemma PaddedFraction(fraction: string, places: nat)
    requires AllDigits(fraction) && |fraction| <= places
    ensures FractionValue(fraction, places) == Shifted(DigitsValue(fraction), places - |fraction|)
  {
    var k := places - |fraction|;
    PaddedValue(fraction, k);
    assert (fraction + Zeros(places))[..places] == fraction + Zeros(k) by {
      forall i | |fraction| <= i < places ensures (fraction + Zeros(places))[i] == (fraction + Zeros(k))[i] {
        assert Zeros(places)[i - |fraction|] in Zeros(places);
        assert Zeros(k)[i - |fraction|] in Zeros(k);
      }
    }
  }

  /** The first `c` in `a + [c] + b` is the one after `a` when `a` has none. */
  lemma {:induction false} IndexAfterPrefix(a: string, c: char, b: string)
    requires c !in a
    ensures c in a + [c] + b && IndexOf(a + [c] + b, c) == |a|
    decreases |a|
  {
    var s := a + [c] + b;
    assert s[|a|] == c;
    if a != [] {
      assert a[0] in a;
      assert s[1..] == a[1..] + [c] + b;
      IndexAfterPrefix(a[1..], c, b);
    }
  }

  /** Zeros appended to digits multiply their value by a power of ten. */
  lemma {:induction false} PaddedValue(x: string, k: nat)
    requires AllDigits(x)
    ensures AllDigits(x + Zeros(k)) && DigitsValue(x + Zeros(k)) == Shifted(DigitsValue(x), k)
    decreases k
  {
    if k == 0 {
      assert x + Zeros(0) == x;
    } else {
      var z := x + Zeros(k - 1);
      PaddedValue(x, k - 1);
      assert x + Zeros(k) == z + ['0'];
      AppendDigit(z, '0');
    }
  }

  lemma AppendDigit(z: string, c: char)
    requires AllDigits(z) && IsDigit(c)
    ensures AllDigits(z + [c]) && DigitsValue(z + [c]) == 10 * DigitsValue(z) + (c as int - '0' as int)
  {
    var y := z + [c];
    assert y[..|y| - 1] == z;
  }

  lemma ShiftedThree(n: nat)
    ensures Shifted(n, 3) == 1000 * n
  {
    assert Shifted(n, 1) == 10 * n;
    assert Shifted(n, 2) == 100 * n;
  }

  lemma ShiftedSix(n: nat)
    ensures Shifted(n, 6) == 1_000_000 * n
  {
    ShiftedThree(n);
    assert Shifted(n, 4) == 10_000 * n;
    assert Shifted(n, 5) == 100_000 * n;
  }

  /** "<n>ms" is n milliseconds, although it also contains an "s". */
  lemma ParseDelayMilliseconds(n: nat)
    ensures ParseDelay(NatToString(n) + "ms") == 1000 * n
  {
    var d := NatToString(n);
    var t := d + "ms";
    LowerStripOfNumeral(d, "ms");
    ContainsSuffix(d, "ms");
    RemoveAllOfDigits(d);
    ParseFixedOfNatToString(n, 3);
    ShiftedThree(n);
  }

  /** "<n>s" and "<n>秒" are n seconds. */
  lemma ParseDelaySeconds(n: nat, unit: string)
    requires unit == "s" || unit == "秒"
    ensures ParseDelay(NatToString(n) + unit) == 1_000_000 * n
  {
    var d := NatToString(n);
    var t := d + unit;
    LowerStripOfNumeral(d, unit);
    assert Lower(Strip(t)) == t;
    NumeralHasNoM(d, unit);
    NoMsWithoutM(t);
    assert !Contains(t, "ms");
    assert t[|t| - 1] in t;
    assert 's' in t || '秒' in t;
    RemoveCharsOfNumeral(d, unit);
    ParseFixedOfNatToString(n, 6);
    ShiftedSix(n);
  }

  lemma NumeralHasNoM(d: string, unit: string)
    requires AllDigits(d)
    requires unit == "s" || unit == "秒"
    ensures 'm' !in d + unit
  {
    assert !IsDigit('m');
    assert 'm' !in unit;
  }

  /** A bare number is milliseconds. */
  lemma ParseDelayBare(n: nat)
    ensures ParseDelay(NatToString(n)) == 1000 * n
  {
    var d := NatToString(n);
    StripOfDigits(d);
    LowerOfNoUpper(d);
    NoMsWithoutM(d);
    assert !IsDigit('s') && !IsDigit('秒');
    ParseFixedOfNatToString(n, 3);
    ShiftedThree(n);
  }

  /** Text without a digit falls back to the default delay. */
  lemma ParseDelayFallback(delayStr: string)
    requires forall c <- delayStr :: !IsDigit(c)
    ensures ParseDelay(delayStr) == Config.DefaultDelayFallback
  {
    var t := Lower(Strip(delayStr));
    StripKeeps(delayStr);
    assert forall c <- t :: !IsDigit(c) by {
      forall c | c in t ensures !IsDigit(c) {
        var i :| 0 <= i < |t| && t[i] == c;
        assert Strip(delayStr)[i] in Strip(delayStr);
      }
    }
    if Contains(t, "ms") {
      RemoveAllKeeps(t, "ms");
      NoDigitNoNumber(RemoveAll(t, "ms"), 3);
    } else if 's' in t || '秒' in t {
      RemoveCharsKeeps(t, {'s', '秒'});
      NoDigitNoNumber(RemoveChars(t, {'s', '秒'}), 6);
    } else {
      NoDigitNoNumber(t, 3);
    }
  }

  lemma {:induction false} RemoveAllKeeps(s: string, sub: string)
    requires sub != []
    ensures forall c <- RemoveAll(s, sub) :: c in s
    decreases |s|
  {
    if s == [] {
    } else if StartsWith(s, sub) {
      RemoveAllKeeps(s[|sub|..], sub);
    } else {
      RemoveAllKeeps(s[1..], sub);
    }
  }

  lemma LowerStripOfNumeral(d: string, unit: string)
    requires d != [] && AllDigits(d)
    requires unit == "ms" || unit == "s" || unit == "秒"
    ensures Lower(Strip(d + unit)) == d + unit
  {
    var t := d + unit;
    NumeralIsStripped(d, unit);
    StrippedIsFixed(t);
    NumeralHasNoUpper(d, unit);
    LowerOfNoUpper(t);
  }

  lemma NumeralIsStripped(d: string, unit: string)
    requires d != [] && AllDigits(d)
    requires unit == "ms" || unit == "s" || unit == "秒"
    ensures Stripped(d + unit)
  {
    var t := d + unit;
    assert t[0] == d[0] && d[0] in d;
    assert t[|t| - 1] == unit[|unit| - 1];
  }

  lemma NumeralHasNoUpper(d: string, unit: string)
    requires AllDigits(d)
    requires unit == "ms" || unit == "s" || unit == "秒"
    ensures forall c <- d + unit :: !('A' <= c <= 'Z')
  {
    forall c | c in d + unit ensures !('A' <= c <= 'Z') {
      if c in d { } else { assert c in unit; }
    }
  }

  lemma LowerOfNoUpper(x: string)
    requires forall c <- x :: !('A' <= c <= 'Z')
    ensures Lower(x) == x
  {
    forall i | 0 <= i < |x| ensures Lower(x)[i] == x[i] {
      assert x[i] in x;
    }
  }

  lemma {:induction false} RemoveCharsKeeps(s: string, chars: set<char>)
    ensures forall c <- RemoveChars(s, chars) :: c in s
    decreases |s|
  {
    if s != [] {
      RemoveCharsKeeps(s[1..], chars);
    }
  }

  lemma ContainsSuffix(x: string, sub: string)
    ensures Contains(x + sub, sub)
    decreases |x|
  {
    if x != [] {
      assert (x + sub)[1..] == x[1..] + sub;
      ContainsSuffix(x[1..], sub);
    } else {
      assert x + sub == sub;
    }
  }

  lemma {:induction false} NoMsWithoutM(x: string)
    requires 'm' !in x
    ensures !Contains(x, "ms")
    decreases |x|
  {
    if x != [] {
      assert x[0] in x;
      NoMsWithoutM(x[1..]);
    }
  }

  lemma {:induction false} RemoveAllOfDigits(d: string)
    requires AllDigits(d)
    ensures RemoveAll(d + "ms", "ms") == d
    decreases |d|
  {
    if d == [] {
      assert d + "ms" == "ms";
      assert RemoveAll("ms", "ms") == RemoveAll("", "ms");
    } else {
      assert d[0] in d;
      assert (d + "ms")[1..] == d[1..] + "ms";
      RemoveAllOfDigits(d[1..]);
    }
  }

  lemma {:induction false} RemoveCharsOfNumeral(d: string, unit: string)
    requires forall c <- d :: c != 's' && c != '秒'
    requires unit == "s" || unit == "秒"
    ensures RemoveChars(d + unit, {'s', '秒'}) == d
    decreases |d|
  {
    if d == [] {
      assert d + unit == unit;
    } else {
      assert d[0] in d;
      assert (d + unit)[1..] == d[1..] + unit;
      assert forall c <- d[1..] :: c in d;
      RemoveCharsOfNumeral(d[1..], unit);
    }
  }

  /** `parse_key_code`: the scan-code table of the XML format. */
  function ParseKeyCode(code: int): (r: Option<Key>)
    ensures r.Some? ==> |r.value| == 1 && 'a' <= r.value[0] <= 'z'
  {
    match code
    case 30 => Some("a")
    case 31 => Some("s")
    case 32 => Some("d")
    case 33 => Some("f")
    case 17 => Some("w")
    case 44 => Some("z")
    case 45 => Some("x")
    case 46 => Some("c")
    case _ => None
  }

  /** Exactly the eight codes of the table map to a key, each to a different letter. */
  lemma ScanCodeTable(code: int, other: int)
    ensures ParseKeyCode(code).Some? <==> code in {17, 30, 31, 32, 33, 44, 45, 46}
    ensures ParseKeyCode(code).Some? && ParseKeyCode(code) == ParseKeyCode(other) ==> code == other
    ensures ParseKeyCode(code).Some? ==> |ParseKeyCode(code).value| == 1
  {
  }
}
