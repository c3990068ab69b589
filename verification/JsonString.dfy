/** Quoted strings: `valueToQuotedStringN`, and what `Reader::decodeString` makes of a string token. */
module JsonString {
  import opened JsonValue
  import opened JsonScan
  import opened JsonUtf8

  // ---- Escaping ----

  /** `isControlCharacter`: the characters 1 to 31. */
  predicate IsControlCharacter(c: char) {
    '\0' < c <= '\U{1F}'
  }

  function HexDigit(n: nat): (c: char)
    requires n < 16
  {
    if n < 10 then ('0' as int + n) as char else ('A' as int + n - 10) as char
  }

  /** A backslash, the letter u and four upper-case hexadecimal digits. */
  function UnicodeEscape(n: nat): (s: string)
    requires n < 0x10000
    ensures |s| == 6
  {
    ['\\', 'u', HexDigit(n / 0x1000), HexDigit(n / 0x100 % 0x10), HexDigit(n / 0x10 % 0x10), HexDigit(n % 0x10)]
  }

  /** The letter after the backslash of a two-character escape. */
  function ShortEscape(c: char): Option<char> {
    if c == '"' then Some('"')
    else if c == '\\' then Some('\\')
    else if c == '\U{08}' then Some('b')
    else if c == '\U{0C}' then Some('f')
    else if c == '\n' then Some('n')
    else if c == '\r' then Some('r')
    else if c == '\t' then Some('t')
    else None
  }

  function EscapeChar(c: char): (s: string)
    ensures s != []
  {
    match ShortEscape(c)
    case Some(letter) => ['\\', letter]
    case None => if IsControlCharacter(c) || c == '\0' then UnicodeEscape(c as int) else [c]
  }

  function Escape(s: string): string {
    if s == [] then [] else EscapeChar(s[0]) + Escape(s[1..])
  }

  function Quote(s: string): string {
    "\"" + Escape(s) + "\""
  }

  /** The characters of a string up to its first NUL: what a C string function sees. */
  function CString(s: string): string {
    if s == [] || s[0] == '\0' then [] else [s[0]] + CString(s[1..])
  }

  lemma {:induction false} CStringOf(s: string)
    ensures '\0' !in CString(s)
    ensures '\0' !in s ==> CString(s) == s
  {
    if s != [] && s[0] != '\0' {
      CStringOf(s[1..]);
      assert s == [s[0]] + s[1..];
    }
  }

  predicate NeedsEscape(c: char) {
    ShortEscape(c).Some? || IsControlCharacter(c) || c == '\0'
  }

  lemma {:induction false} EscapePlain(s: string)
    requires forall i :: 0 <= i < |s| ==> !NeedsEscape(s[i])
    ensures Escape(s) == s && CString(s) == s
  {
    if s != [] {
      EscapePlain(s[1..]);
      assert s == [s[0]] + s[1..];
    }
  }

  lemma EscapeSuffix(s: string, i: nat)
    requires i < |s|
    ensures Escape(s[i..]) == EscapeChar(s[i]) + Escape(s[i + 1..])
  {
    assert s[i..][1..] == s[i + 1..];
  }

  const SPECIAL := ['"', '\\', '\U{08}', '\U{0C}', '\n', '\r', '\t']

  lemma PlainCharacters(s: string)
    requires forall i :: 0 <= i < |s| ==> s[i] !in SPECIAL
    requires forall i :: 0 <= i < |s| ==> !IsControlCharacter(s[i]) && s[i] != '\0'
    ensures forall i :: 0 <= i < |s| ==> !NeedsEscape(s[i])
  {
    assert SPECIAL[0] == '"' && SPECIAL[1] == '\\' && SPECIAL[2] == '\U{08}' && SPECIAL[3] == '\U{0C}';
    assert SPECIAL[4] == '\n' && SPECIAL[5] == '\r' && SPECIAL[6] == '\t';
  }

  /** `strnpbrk`, up to whether a character of `accept` was met. */
  method Strnpbrk(s: string, accept: string) returns (found: bool)
    ensures found <==> exists i :: 0 <= i < |s| && s[i] in accept
  {
    for cur := 0 to |s|
      invariant forall i :: 0 <= i < cur ==> s[i] !in accept
    {
      for a := 0 to |accept|
        invariant s[cur] !in accept[..a]
      {
        if accept[a] == s[cur] {
          return true;
        }
      }
    }
    found := false;
  }

  method ContainsControlCharacter0(s: string) returns (found: bool)
    ensures found <==> exists i :: 0 <= i < |s| && (IsControlCharacter(s[i]) || s[i] == '\0')
  {
    for cur := 0 to |s|
      invariant forall i :: 0 <= i < cur ==> !IsControlCharacter(s[i]) && s[i] != '\0'
    {
      if IsControlCharacter(s[cur]) || s[cur] == '\0' {
        return true;
      }
    }
    found := false;
  }

  /**
   * `valueToQuotedStringN`. Both ways through it write the same escapes: the fast path, taken when nothing needs
   * escaping, copies the value as a C string.
   */
  method ValueToQuotedStringN(value: string) returns (result: string)
    ensures result == Quote(value)
  {
    hide EscapeChar, CString, SPECIAL;
    var special := Strnpbrk(value, SPECIAL);
    var control := ContainsControlCharacter0(value);
    if !special && !control {
      PlainCharacters(value);
      EscapePlain(value);
      return "\"" + CString(value) + "\"";
    }
    result := "\"";
    assert value[0..] == value;
    for c := 0 to |value|
      invariant result + Escape(value[c..]) == "\"" + Escape(value)
    {
      EscapeSuffix(value, c);
      result := result + EscapeChar(value[c]);
    }
    result := result + "\"";
  }

  lemma CStringStep(s: string, i: nat)
    requires i <= |s|
    ensures CString(s[i..]) == if i == |s| || s[i] == '\0' then [] else [s[i]] + CString(s[i + 1..])
  {
    assert i < |s| ==> s[i..][1..] == s[i + 1..];
  }

  /** `containsControlCharacter` looks up to the first NUL. */
  method ContainsControlCharacter(str: string) returns (found: bool)
    ensures found <==> exists i :: 0 <= i < |CString(str)| && IsControlCharacter(CString(str)[i])
  {
    hide CString;
    var cur := 0;
    assert str[0..] == str;
    ghost var seen := "";
    CStringStep(str, 0);
    while cur < |str| && str[cur] != '\0'
      invariant cur <= |str| && CString(str) == seen + CString(str[cur..])
      invariant forall i :: 0 <= i < |seen| ==> !IsControlCharacter(seen[i])
    {
      CStringStep(str, cur);
      if IsControlCharacter(str[cur]) {
        assert CString(str)[|seen|] == str[cur];
        return true;
      }
      seen := seen + [str[cur]];
      cur := cur + 1;
    }
    CStringStep(str, cur);
    assert seen + [] == seen;
    found := false;
  }

  /** `valueToQuotedString` is the same on a C string: it ends at the first NUL. */
  method ValueToQuotedString(value: string) returns (result: string)
    ensures result == Quote(CString(value))
  {
    hide EscapeChar, CString, SPECIAL, Escape;
    var special := Strnpbrk(CString(value), SPECIAL);
    var control := ContainsControlCharacter(value);
    if !special && !control {
      CStringOf(value);
      PlainCharacters(CString(value));
      EscapePlain(CString(value));
      return "\"" + CString(value) + "\"";
    }
    result := "\"";
    var c := 0;
    assert value[0..] == value;
    while c < |value| && value[c] != '\0'
      invariant c <= |value|
      invariant result + Escape(CString(value[c..])) == "\"" + Escape(CString(value))
    {
      CStringStep(value, c);
      EscapeSuffix(CString(value[c..]), 0);
      assert CString(value[c..])[0..] == CString(value[c..]) && CString(value[c..])[1..] == CString(value[c + 1..]);
      result := result + EscapeChar(value[c]);
      c := c + 1;
    }
    CStringStep(value, c);
    EscapeNothing();
    result := result + "\"";
  }

  lemma EscapeNothing()
    ensures Escape("") == ""
  {
  }

  // ---- Decoding ----

  const FOUR_DIGITS := "Bad unicode escape sequence in string: four digits expected."
  const HEX_DIGIT := "Bad unicode escape sequence in string: hexadecimal digit expected."
  const SIX_CHARACTERS := "additional six characters expected to parse unicode surrogate pair."
  const ANOTHER_ESCAPE := "expecting another \\u token to begin the second half of a unicode surrogate pair"
  const EMPTY_ESCAPE := "Empty escape sequence in string"
  const BAD_ESCAPE := "Bad escape sequence in string"

  /** A decoded code point and the position after it, or the error that was recorded. */
  datatype Code = Code(value: nat, next: nat) | BadCode(error: ErrorInfo)

  /** A decoded string, or the error that was recorded. */
  datatype Text = Text(value: string) | BadText(error: ErrorInfo)

  function HexValue(c: char): (n: Option<nat>)
    ensures n.Some? ==> n.value < 16
  {
    if '0' <= c <= '9' then Some(c as int - '0' as int)
    else if 'a' <= c <= 'f' then Some(c as int - 'a' as int + 10)
    else if 'A' <= c <= 'F' then Some(c as int - 'A' as int + 10)
    else None
  }

  /** The remaining hexadecimal digits of an escape; `acc` is the value of those read so far. */
  function HexDigits(d: string, t: Token, p: nat, count: nat, acc: nat): (r: Code)
    requires p + count <= |d|
    ensures r.Code? ==> r.next == p + count
    decreases count
  {
    if count == 0 then Code(acc, p)
    else
      match HexValue(d[p])
      case None =>
        BadCode(ErrorInfo(t, HEX_DIGIT, Some(p + 1)))
      case Some(h) => HexDigits(d, t, p + 1, count - 1, acc * 16 + h)
  }

  lemma HexDigitsStep(d: string, t: Token, p: nat, count: nat, acc: nat)
    requires p + count <= |d|
    ensures HexDigits(d, t, p, count, acc) ==
            if count == 0 then Code(acc, p)
            else
              match HexValue(d[p])
              case None => BadCode(ErrorInfo(t, HEX_DIGIT, Some(p + 1)))
              case Some(h) => HexDigits(d, t, p + 1, count - 1, acc * 16 + h)
  {
  }

  /** `decodeUnicodeEscapeSequence` at `p`, in a string whose closing quote is at `end`. */
  function EscapeSequenceAt(d: string, t: Token, p: nat, end: nat): (r: Code)
    requires p <= end <= |d|
    ensures r.Code? ==> p < r.next <= end
  {
    if end - p < 4
    then BadCode(ErrorInfo(t, FOUR_DIGITS, Some(p)))
    else HexDigits(d, t, p, 4, 0)
  }

  /** `decodeUnicodeCodePoint`: one escape, or two for a surrogate pair. */
  function CodePointAt(d: string, t: Token, p: nat, end: nat): (r: Code)
    requires p <= end <= |d|
    ensures r.Code? ==> p < r.next <= end
  {
    match EscapeSequenceAt(d, t, p, end)
    case BadCode(e) => BadCode(e)
    case Code(unicode, q) =>
      if !(0xD800 <= unicode <= 0xDBFF) then Code(unicode, q)
      else if end - q < 6 then
        BadCode(ErrorInfo(t, SIX_CHARACTERS, Some(q)))
      else if d[q] == '\\' && d[q + 1] == 'u' then
        match EscapeSequenceAt(d, t, q + 2, end)
        case BadCode(e) => BadCode(e)
        case Code(pair, n) => Code(0x10000 + unicode % 0x400 * 0x400 + pair % 0x400, n)
      else
        BadCode(ErrorInfo(t, ANOTHER_ESCAPE, Some(if d[q] == '\\' then q + 2 else q + 1)))
  }

  /** The character a two-character escape stands for. */
  function Unescaped(letter: char): Option<char> {
    if letter == '"' then Some('"')
    else if letter == '/' then Some('/')
    else if letter == '\\' then Some('\\')
    else if letter == 'b' then Some('\U{08}')
    else if letter == 'f' then Some('\U{0C}')
    else if letter == 'n' then Some('\n')
    else if letter == 'r' then Some('\r')
    else if letter == 't' then Some('\t')
    else None
  }

  /** What `decodeString` has decoded when it stops, having decoded `acc` before position `p`. */
  function StringFrom(d: string, t: Token, p: nat, end: nat, acc: string): Text
    requires p <= end <= |d|
    decreases end - p
  {
    if p == end then Text(acc)
    else if d[p] == '"' then Text(acc)
    else if d[p] != '\\' then StringFrom(d, t, p + 1, end, acc + [d[p]])
    else if p + 1 == end then BadText(ErrorInfo(t, EMPTY_ESCAPE, Some(p + 1)))
    else if d[p + 1] == 'u' then
      match CodePointAt(d, t, p + 2, end)
      case BadCode(e) => BadText(e)
      case Code(cp, q) => StringFrom(d, t, q, end, acc + CodePointToUTF8(cp))
    else
      match Unescaped(d[p + 1])
      case Some(c) => StringFrom(d, t, p + 2, end, acc + [c])
      case None => BadText(ErrorInfo(t, BAD_ESCAPE, Some(p + 2)))
  }

  /** `decodeString` on a string token. */
  function StringAt(d: string, t: Token): Text
    requires t.start + 2 <= t.end <= |d|
  {
    StringFrom(d, t, t.start + 1, t.end - 1, "")
  }

  // ---- Round trips ----

  lemma HexRoundTrip(n: nat)
    requires n < 16
    ensures HexValue(HexDigit(n)) == Some(n)
  {
  }

  /** Four digits written by `UnicodeEscape` read back as the number. */
  lemma EscapeSequenceReadsBack(d: string, t: Token, p: nat, end: nat, n: nat)
    requires n < 0x10000 && p + 4 <= end <= |d|
    requires Matches(d, p, UnicodeEscape(n)[2..])
    ensures EscapeSequenceAt(d, t, p, end) == Code(n, p + 4)
  {
    var s := UnicodeEscape(n)[2..];
    var a, b, c, e := HexParts(n);
    assert s == [HexDigit(a), HexDigit(b), HexDigit(c), HexDigit(e)];
    assert d[p + 0] == s[0] && d[p + 1] == s[1] && d[p + 2] == s[2] && d[p + 3] == s[3];
    HexDigitStep(d, t, p, 4, 0, a);
    HexDigitStep(d, t, p + 1, 3, a, b);
    HexDigitStep(d, t, p + 2, 2, a * 16 + b, c);
    HexDigitStep(d, t, p + 3, 1, (a * 16 + b) * 16 + c, e);
  }

  lemma HexParts(n: nat) returns (a: nat, b: nat, c: nat, e: nat)
    requires n < 0x10000
    ensures a == n / 0x1000 < 16 && b == n / 0x100 % 0x10 && c == n / 0x10 % 0x10 && e == n % 0x10
    ensures ((a * 16 + b) * 16 + c) * 16 + e == n
  {
    a, b, c, e := n / 0x1000, n / 0x100 % 0x10, n / 0x10 % 0x10, n % 0x10;
    assert n / 0x100 == n / 0x10 / 0x10 && n / 0x1000 == n / 0x100 / 0x10;
  }

  lemma HexDigitStep(d: string, t: Token, p: nat, count: nat, acc: nat, h: nat)
    requires 0 < count && p + count <= |d| && h < 16 && d[p] == HexDigit(h)
    ensures HexDigits(d, t, p, count, acc) == HexDigits(d, t, p + 1, count - 1, acc * 16 + h)
  {
    HexRoundTrip(h);
  }

  /** How RFC 8259 section 7 writes a scalar value with escapes: once, or as a surrogate pair. */
  function EscapedScalar(cp: nat): string
    requires IsScalar(cp)
  {
    if cp < 0x10000 then UnicodeEscape(cp)
    else UnicodeEscape(0xD800 + (cp - 0x10000) / 0x400) + UnicodeEscape(0xDC00 + (cp - 0x10000) % 0x400)
  }

  /** Every scalar value written with escapes is decoded to itself. */
  lemma CodePointReadsBack(d: string, t: Token, p: nat, end: nat, cp: nat)
    requires IsScalar(cp) && p + |EscapedScalar(cp)| <= end <= |d|
    requires Matches(d, p, EscapedScalar(cp))
    ensures CodePointAt(d, t, p + 2, end) == Code(cp, p + |EscapedScalar(cp)|)
  {
    if cp < 0x10000 {
      UnicodeEscapeTail(d, p, cp);
      EscapeSequenceReadsBack(d, t, p + 2, end, cp);
    } else {
      var hi, lo := 0xD800 + (cp - 0x10000) / 0x400, 0xDC00 + (cp - 0x10000) % 0x400;
      MatchesSplit(d, p, UnicodeEscape(hi), UnicodeEscape(lo));
      UnicodeEscapeTail(d, p, hi);
      EscapeSequenceReadsBack(d, t, p + 2, end, hi);
      UnicodeEscapeTail(d, p + 6, lo);
      EscapeSequenceReadsBack(d, t, p + 8, end, lo);
      SurrogatePair(cp);
    }
  }

  lemma UnicodeEscapeTail(d: string, p: nat, n: nat)
    requires n < 0x10000 && Matches(d, p, UnicodeEscape(n))
    ensures d[p] == '\\' && d[p + 1] == 'u' && Matches(d, p + 2, UnicodeEscape(n)[2..])
  {
    var s := UnicodeEscape(n);
    assert s == ['\\', 'u'] + s[2..];
    MatchesSplit(d, p, ['\\', 'u'], s[2..]);
    assert d[p + 0] == s[0] && d[p + 1] == s[1];
  }

  lemma SurrogatePair(cp: nat)
    requires 0x10000 <= cp <= 0x10FFFF
    ensures 0xD800 <= 0xD800 + (cp - 0x10000) / 0x400 <= 0xDBFF
    ensures (0xD800 + (cp - 0x10000) / 0x400) % 0x400 * 0x400 + (0xDC00 + (cp - 0x10000) % 0x400) % 0x400
            == cp - 0x10000
  {
  }

  /** The characters with an escape of two characters, and the second of these. */
  const ESCAPED := ['"', '\\', '\U{08}', '\U{0C}', '\n', '\r', '\t']
  const ESCAPED_AS := "\"\\bfnrt"

  lemma ShortEscapes(k: nat)
    requires k < 7
    ensures EscapeChar(ESCAPED[k]) == ['\\', ESCAPED_AS[k]]
  {
    assert ESCAPED_AS == ['"', '\\', 'b', 'f', 'n', 'r', 't'];
    assert k == 0 || k == 1 || k == 2 || k == 3 || k == 4 || k == 5 || k == 6;
  }

  lemma NotShort(c: char)
    requires c !in ESCAPED
    ensures ShortEscape(c).None?
  {
    assert ESCAPED[0] == '"' && ESCAPED[1] == '\\' && ESCAPED[2] == '\U{08}' && ESCAPED[3] == '\U{0C}';
    assert ESCAPED[4] == '\n' && ESCAPED[5] == '\r' && ESCAPED[6] == '\t';
  }

  /** All other characters are written by their code when it is below 32, and as they are when it is not. */
  lemma OtherEscapes(c: char)
    requires c !in ESCAPED
    ensures EscapeChar(c) ==
            if c as int >= 0x20 then [c]
            else ['\\', 'u', '0', '0', if c as int < 0x10 then '0' else '1', "0123456789ABCDEF"[c as int % 0x10]]
  {
    hide ShortEscape, HexDigit;
    NotShort(c);
    var n := c as int;
    if n < 0x20 {
      HexDigitIs(0);
      HexDigitIs(n / 0x10);
      HexDigitIs(n % 0x10);
      assert n / 0x1000 == 0 && n / 0x100 % 0x10 == 0 && n / 0x10 % 0x10 == n / 0x10 <= 1;
    }
  }

  lemma HexDigitIs(n: nat)
    requires n < 16
    ensures HexDigit(n) == "0123456789ABCDEF"[n]
  {
  }

  lemma EscapeCharShape(c: char)
    ensures (EscapeChar(c) == [c] && c != '"' && c != '\\')
         || (EscapeChar(c)[0] == '\\' && |EscapeChar(c)| == 2
             && EscapeChar(c)[1] != 'u' && Unescaped(EscapeChar(c)[1]) == Some(c))
         || ((c as int) < 0x20 && EscapeChar(c) == UnicodeEscape(c as int))
  {
  }

  /** Splits the text of a string after its first character. */
  lemma EscapeStep(d: string, p: nat, s: string)
    requires s != [] && Matches(d, p, Escape(s))
    ensures Matches(d, p, EscapeChar(s[0])) && Matches(d, p + |EscapeChar(s[0])|, Escape(s[1..]))
    ensures |Escape(s)| == |EscapeChar(s[0])| + |Escape(s[1..])|
  {
    MatchesSplit(d, p, EscapeChar(s[0]), Escape(s[1..]));
  }

  /** No character of a \u escape ends the string or starts another escape, except the first. */
  lemma UnicodeEscapeScans(d: string, p: nat, n: nat)
    requires n < 0x20 && Matches(d, p, UnicodeEscape(n))
    ensures ClosingQuote(d, p) == ClosingQuote(d, p + 6)
  {
    var s := UnicodeEscape(n);
    assert d[p + 0] == s[0] && d[p + 2] == s[2] && d[p + 3] == s[3] && d[p + 4] == s[4] && d[p + 5] == s[5];
    assert ClosingQuote(d, p) == ClosingQuote(d, p + 2);
    assert ClosingQuote(d, p + 2) == ClosingQuote(d, p + 3);
    assert ClosingQuote(d, p + 3) == ClosingQuote(d, p + 4);
    assert ClosingQuote(d, p + 4) == ClosingQuote(d, p + 5);
  }

  /** `readString` runs over one escaped character without stopping in it. */
  lemma EscapeCharScans(d: string, p: nat, c: char)
    requires Matches(d, p, EscapeChar(c))
    ensures ClosingQuote(d, p) == ClosingQuote(d, p + |EscapeChar(c)|)
  {
    var s := EscapeChar(c);
    EscapeCharShape(c);
    assert d[p + 0] == s[0];
    if |s| == 6 {
      UnicodeEscapeScans(d, p, c as int);
    }
  }

  /** `decodeString` turns one escaped character back into the character. */
  lemma EscapeCharDecodes(d: string, t: Token, p: nat, end: nat, c: char, acc: string)
    requires p + |EscapeChar(c)| <= end <= |d| && Matches(d, p, EscapeChar(c))
    ensures StringFrom(d, t, p, end, acc) == StringFrom(d, t, p + |EscapeChar(c)|, end, acc + [c])
  {
    var s := EscapeChar(c);
    EscapeCharShape(c);
    assert d[p + 0] == s[0];
    if |s| == 2 {
      assert d[p + 1] == s[1];
    } else if |s| == 6 {
      UnicodeEscapeTail(d, p, c as int);
      EscapeSequenceReadsBack(d, t, p + 2, end, c as int);
    }
  }

  lemma {:induction false} EscapedTextScans(d: string, p: nat, s: string)
    requires Matches(d, p, Escape(s)) && p + |Escape(s)| < |d| && d[p + |Escape(s)|] == '"'
    ensures ClosingQuote(d, p) == Some(p + |Escape(s)| + 1)
    decreases |s|
  {
    if s != [] {
      EscapeStep(d, p, s);
      EscapeCharScans(d, p, s[0]);
      EscapedTextScans(d, p + |EscapeChar(s[0])|, s[1..]);
    }
  }

  lemma {:induction false} EscapedTextDecodes(d: string, t: Token, p: nat, s: string, acc: string)
    requires Matches(d, p, Escape(s))
    ensures StringFrom(d, t, p, p + |Escape(s)|, acc) == Text(acc + s)
    decreases |s|
  {
    if s == [] {
      assert acc + s == acc;
    } else {
      EscapeStep(d, p, s);
      EscapeCharDecodes(d, t, p, p + |Escape(s)|, s[0], acc);
      EscapedTextDecodes(d, t, p + |EscapeChar(s[0])|, s[1..], acc + [s[0]]);
      assert acc + [s[0]] + s[1..] == acc + s;
    }
  }

  /**
   * The string round trip: wherever the quoted text of `s` stands in a document, the token there is exactly that
   * text and `decodeString` gives back `s`.
   */
  lemma QuotedStringReadsBack(d: string, p: nat, s: string)
    requires Matches(d, p, Quote(s))
    ensures TokenAt(d, p) == Token(StringToken, p, p + |Quote(s)|)
    ensures StringAt(d, TokenAt(d, p)) == Text(s)
  {
    hide Escape, EscapeChar, ClosingQuote, StringFrom;
    var q, e := Quote(s), Escape(s);
    MatchesSplit(d, p, "\"" + e, "\"");
    MatchesSplit(d, p, "\"", e);
    assert d[p + 0] == "\""[0] && d[p + 1 + |e| + 0] == "\""[0];
    EscapedTextScans(d, p + 1, s);
    EscapedTextDecodes(d, Token(StringToken, p, p + |q|), p + 1, s, "");
    assert "" + s == s;
  }
}
