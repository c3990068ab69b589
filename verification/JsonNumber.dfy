/** Integers as text: `uintToString`, `valueToString` and the integer half of `Reader::decodeNumber`. */
module JsonNumber {
  import opened JsonValue

  type UInt64 = u: int | 0 <= u <= MAX_UINT64

  /** 3 * sizeof(LargestUInt) + 1 */
  const UINT_TO_STRING_BUFFER_SIZE := 25

  predicate IsDigit(c: char) {
    '0' <= c <= '9'
  }

  function DigitValue(c: char): (d: nat)
    requires IsDigit(c)
    ensures d < 10
  {
    c as int - '0' as int
  }

  function DigitChar(d: nat): (c: char)
    requires d < 10
    ensures IsDigit(c) && DigitValue(c) == d
  {
    (d + '0' as int) as char
  }

  predicate AllDigits(s: string) {
    forall i :: 0 <= i < |s| ==> IsDigit(s[i])
  }

  /** The number a string of decimal digits denotes; the empty string denotes 0. */
  function DigitsValue(s: string): nat
    requires AllDigits(s)
  {
    if s == [] then 0 else DigitsValue(s[..|s| - 1]) * 10 + DigitValue(s[|s| - 1])
  }

  /** The shortest decimal text of a number. */
  function NatText(n: nat): (s: string)
    ensures AllDigits(s) && s != []
    ensures DigitsValue(s) == n
    ensures s[0] == '0' ==> n == 0
  {
    if n < 10 then [DigitChar(n)]
    else
      var s := NatText(n / 10);
      assert (s + [DigitChar(n % 10)])[..|s|] == s;
      s + [DigitChar(n % 10)]
  }

  function IntText(i: int): string {
    if i < 0 then "-" + NatText(-i) else NatText(i)
  }

  // ---- Printing ----

  function Pow10(k: nat): (p: nat)
    ensures p > 0
  {
    if k == 0 then 1 else 10 * Pow10(k - 1)
  }

  lemma {:induction false} NatTextLength(n: nat, k: nat)
    requires n < Pow10(k) && k > 0
    ensures |NatText(n)| <= k
  {
    if n >= 10 {
      assert k > 1;
      NatTextLength(n / 10, k - 1);
    }
  }

  lemma UInt64TextLength(n: nat)
    requires n <= MAX_UINT64
    ensures |NatText(n)| <= 20
  {
    assert Pow10(5) == 100000;
    assert Pow10(10) == 100000 * Pow10(5);
    assert Pow10(15) == 100000 * Pow10(10);
    assert Pow10(20) == 100000 * Pow10(15);
    NatTextLength(n, 20);
  }

  /** `s` with the characters from `start` on overwritten by `w`. */
  function Overlay(s: string, start: nat, w: string): string
    requires start + |w| <= |s|
  {
    s[..start] + w + s[start + |w|..]
  }

  lemma OverlayDown(s: string, start: nat, w: string, c: char)
    requires 0 < start && start + |w| <= |s|
    ensures Overlay(s, start, w)[start - 1 := c] == Overlay(s, start - 1, [c] + w)
  {
  }

  /** Writes the digits and a terminator downwards from `current`, and leaves room for a sign below them. */
  method UintToString(value: UInt64, buffer: array<char>, current: nat) returns (start: nat)
    requires UINT_TO_STRING_BUFFER_SIZE <= current <= buffer.Length
    modifies buffer
    ensures start == current - 1 - |NatText(value)| && 0 < start
    ensures buffer[..] == Overlay(old(buffer[..]), start, NatText(value) + ['\0'])
  {
    ghost var before := buffer[..];
    UInt64TextLength(value);
    start := current - 1;
    buffer[start] := '\0';
    var rest: UInt64 := value;
    ghost var written := ['\0'];
    while true
      invariant start == current - |written|
      invariant NatText(value) + ['\0'] == NatText(rest) + written
      invariant buffer[..] == Overlay(before, start, written)
      decreases rest
    {
      var c := DigitChar(rest % 10);
      NatTextStep(rest, written);
      OverlayDown(before, start, written, c);
      start := start - 1;
      buffer[start] := c;
      written := [c] + written;
      if rest < 10 {
        return;
      }
      rest := rest / 10;
    }
  }

  lemma NatTextStep(n: nat, w: string)
    ensures n < 10 ==> NatText(n) + w == [DigitChar(n % 10)] + w
    ensures n >= 10 ==> NatText(n) + w == NatText(n / 10) + ([DigitChar(n % 10)] + w)
  {
  }

  /** What is read back as a C string from a buffer whose tail was written with `w` and a terminator. */
  lemma OverlayText(s: string, start: nat, w: string)
    requires start + |w| + 1 == |s|
    ensures Overlay(s, start, w + ['\0'])[start..|s| - 1] == w
    ensures 0 < start ==> Overlay(s, start, w + ['\0'])[start - 1 := '-'][start - 1..|s| - 1] == "-" + w
  {
  }

  lemma IntTextSign(i: int)
    ensures IntText(i) != "" && (IntText(i)[0] == '-' <==> i < 0)
  {
  }

  /** `valueToString(LargestInt)`. */
  method ValueToString(value: int) returns (text: string)
    requires MIN_INT64 <= value <= MAX_INT64
    ensures text == IntText(value)
    ensures text != "" && (text[0] == '-' <==> value < 0)
  {
    hide NatText, Overlay;
    IntTextSign(value);
    var buffer := new char[UINT_TO_STRING_BUFFER_SIZE];
    ghost var before := buffer[..];
    var current := buffer.Length;
    var negative := value < 0;
    var magnitude: UInt64 := if value == MIN_INT64 then MAX_INT64 + 1 else if negative then -value else value;
    current := UintToString(magnitude, buffer, current);
    OverlayText(before, current, NatText(magnitude));
    if negative {
      current := current - 1;
      buffer[current] := '-';
    }
    text := buffer[..][current..buffer.Length - 1];
  }

  /** `valueToString(LargestUInt)`. */
  method ValueToStringUnsigned(value: UInt64) returns (text: string)
    ensures text == NatText(value)
  {
    var buffer := new char[UINT_TO_STRING_BUFFER_SIZE];
    var current := UintToString(value, buffer, buffer.Length);
    text := buffer[current..buffer.Length - 1];
  }

  // ---- Decoding ----

  predicate IsNegative(text: string) {
    text != [] && text[0] == '-'
  }

  function Digits(text: string): string {
    if IsNegative(text) then text[1..] else text
  }

  /** The mathematical value of an optional minus sign and digits. */
  function IntegerValue(text: string): int
    requires AllDigits(Digits(text))
  {
    if IsNegative(text) then -(DigitsValue(text[1..]) as int) else DigitsValue(text)
  }

  /** The type tag the reader gives an integer: `int` when negative or at most 2^31-1, else `uint`. */
  function Tagged(i: int): Value {
    if i <= MAX_INT then Int(i) else UInt(i)
  }

  /** An integer token is kept as an integer exactly when its value lies in [-2^63, 2^64-1]. */
  function DecodedInteger(text: string): Option<Value> {
    if AllDigits(Digits(text)) && MIN_INT64 <= IntegerValue(text) <= MAX_UINT64
    then Some(Tagged(IntegerValue(text)))
    else None
  }

  /** More digits never make a number smaller. */
  lemma {:induction false} DigitsValueGrows(s: string, k: nat)
    requires AllDigits(s) && k <= |s|
    ensures DigitsValue(s[..k]) <= DigitsValue(s)
    ensures k < |s| ==> 10 * DigitsValue(s[..k]) <= DigitsValue(s)
    decreases |s| - k
  {
    if k == |s| {
      assert s[..k] == s;
    } else {
      assert s[..k + 1][..k] == s[..k];
      DigitsValueGrows(s, k + 1);
    }
  }

  /**
   * The loop of `decodeNumber` over the characters of a number token. `None` is where the source turns to
   * `decodeDouble`. The accumulator is a 64-bit unsigned integer throughout.
   */
  method DecodeInteger(text: string) returns (decoded: Option<Value>)
    ensures decoded == DecodedInteger(text)
  {
    var isNegative := IsNegative(text);
    var current := if isNegative then 1 else 0;
    var maxIntegerValue: UInt64 := if isNegative then MAX_INT64 + 1 else MAX_UINT64;
    var threshold: UInt64 := maxIntegerValue / 10;
    var value: UInt64 := 0;
    ghost var digits := Digits(text);
    ghost var first := current;
    while current < |text|
      invariant first <= current <= |text|
      invariant AllDigits(digits[..current - first])
      invariant value == DigitsValue(digits[..current - first]) <= maxIntegerValue
    {
      var c := text[current];
      ghost var done := current - first;
      assert digits[done] == c;
      current := current + 1;
      if !IsDigit(c) {
        return None;
      }
      var digit := DigitValue(c);
      DigitsValueSnoc(digits, done);
      if value >= threshold {
        if value > threshold || current != |text| || digit > maxIntegerValue % 10 {
          TooLarge(digits, done + 1, maxIntegerValue, value, digit);
          return None;
        }
      }
      value := value * 10 + digit;
    }
    assert digits[..current - first] == digits;
    if isNegative && value == maxIntegerValue {
      return Some(Int(MIN_INT64));
    } else if isNegative {
      return Some(Int(-(value as int)));
    } else if value <= MAX_INT {
      return Some(Int(value));
    } else {
      return Some(UInt(value));
    }
  }

  lemma DigitsValueSnoc(s: string, k: nat)
    requires k < |s| && AllDigits(s[..k]) && IsDigit(s[k])
    ensures AllDigits(s[..k + 1]) && DigitsValue(s[..k + 1]) == DigitsValue(s[..k]) * 10 + DigitValue(s[k])
  {
    assert s[..k + 1][..k] == s[..k];
  }

  lemma TooLarge(digits: string, k: nat, max: nat, value: nat, digit: nat)
    requires 0 < k <= |digits| && AllDigits(digits[..k]) && digit < 10 && 10 <= max
    requires DigitsValue(digits[..k]) == value * 10 + digit
    requires value > max / 10 || (value == max / 10 && (k != |digits| || digit > max % 10))
    ensures AllDigits(digits) ==> DigitsValue(digits) > max
  {
    if AllDigits(digits) {
      DigitsValueGrows(digits, k);
      if value == max / 10 && k != |digits| {
        assert 10 * (value * 10) > max;
      }
    }
  }

  /** Decoding undoes printing, for every signed and unsigned 64-bit integer. */
  lemma DecodeUndoesPrint(i: int)
    requires MIN_INT64 <= i <= MAX_UINT64
    ensures DecodedInteger(IntText(i)) == Some(Tagged(i))
  {
    if i < 0 {
      assert IntText(i)[1..] == NatText(-i);
    } else {
      assert IsDigit(NatText(i)[0]);
    }
  }
}
