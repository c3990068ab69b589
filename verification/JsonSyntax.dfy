/**
 * Which documents `Json::Reader` accepts, and with which value: a grammar in terms of the characters of the document.
 * It is that of RFC 8259 with comments, and with what else the reader lets pass. The text of a construct is the
 * range of positions `p` to `q`; `x.doc` is the document.
 */
module JsonSyntax {
  import opened JsonValue
  import opened JsonNumber
  import opened JsonUtf8
  import opened JsonGrammar

  // ---- White space and comments ----

  predicate Blank(c: char) {
    c in " \t\r\n"
  }

  predicate Blanks(d: string, p: nat, q: nat) {
    p <= q <= |d| && forall i :: p <= i < q ==> Blank(d[i])
  }

  predicate StarSlash(d: string, p: nat) {
    p + 2 <= |d| && d[p] == '*' && d[p + 1] == '/'
  }

  /** From slash and star to the first star and slash. */
  predicate BlockComment(d: string, p: nat, q: nat) {
    p + 4 <= q <= |d| && d[p] == '/' && d[p + 1] == '*' && StarSlash(d, q - 2) &&
    forall i :: p + 2 <= i < q - 2 ==> !StarSlash(d, i)
  }

  predicate LineEnd(c: char) {
    c == '\n' || c == '\r'
  }

  /** From two slashes to the end of the line. */
  predicate LineComment(d: string, p: nat, q: nat) {
    p + 3 <= q <= |d| && d[p] == '/' && d[p + 1] == '/' && LineEnd(d[q - 1]) &&
    forall i :: p + 2 <= i < q - 1 ==> !LineEnd(d[i])
  }

  predicate Comment(d: string, p: nat, q: nat) {
    BlockComment(d, p, q) || LineComment(d, p, q)
  }

  /** White space and comments in any order. */
  ghost predicate Gap(d: string, p: nat, q: nat)
    decreases q - p
  {
    p <= q <= |d| &&
    (p == q || (Blank(d[p]) && Gap(d, p + 1, q)) || exists r :: p < r <= q && Comment(d, p, r) && Gap(d, r, q))
  }

  // ---- Strings ----

  const LOWER := "0123456789abcdef"
  const UPPER := "0123456789ABCDEF"

  /** A hexadecimal digit, of either case, has the value of its place among the digits. */
  predicate HexIs(c: char, n: nat) {
    n < 16 && (c == LOWER[n] || c == UPPER[n])
  }

  ghost predicate FourDigits(c0: char, c1: char, c2: char, c3: char, n: nat) {
    exists a: nat, b: nat, c: nat, e: nat ::
      HexIs(c0, a) && HexIs(c1, b) && HexIs(c2, c) && HexIs(c3, e) && n == 0x1000 * a + 0x100 * b + 0x10 * c + e
  }

  /** A backslash, the letter u and four hexadecimal digits with the value `n`. */
  ghost predicate Unit(d: string, p: nat, n: nat) {
    p + 6 <= |d| && d[p] == '\\' && d[p + 1] == 'u' && FourDigits(d[p + 2], d[p + 3], d[p + 4], d[p + 5], n)
  }

  predicate High(n: nat) {
    0xD800 <= n <= 0xDBFF
  }

  /** The code point of two units; whether the second one is a low surrogate is not looked at. */
  function Paired(hi: nat, lo: nat): nat
    requires High(hi)
  {
    0x10000 + (hi - 0xD800) * 0x400 + lo % 0x400
  }

  const LETTERS := "\"\\/bfnrt"
  const MEANINGS := ['"', '\\', '/', '\U{08}', '\U{0C}', '\n', '\r', '\t']

  /** What a letter after a backslash stands for. */
  predicate LetterIs(letter: char, c: char) {
    exists k :: 0 <= k < 8 && LETTERS[k] == letter && MEANINGS[k] == c
  }

  /** The characters between quotes stand for the string `s`. */
  ghost predicate Chars(d: string, p: nat, q: nat, s: string)
    decreases q - p, 0
  {
    p <= q <= |d| &&
    if p == q then s == ""
    else if d[p] == '"' then false
    else if d[p] != '\\' then s != "" && s[0] == d[p] && Chars(d, p + 1, q, s[1..])
    else
      (p + 2 <= q && s != "" && LetterIs(d[p + 1], s[0]) && Chars(d, p + 2, q, s[1..])) ||
      (exists n: nat :: p + 6 <= q && Unit(d, p, n) && !High(n) && CharsAfter(d, p + 6, q, CodePointToUTF8(n), s)) ||
      (exists hi: nat, lo: nat ::
         p + 12 <= q && Unit(d, p, hi) && High(hi) && Unit(d, p + 6, lo) &&
         CharsAfter(d, p + 12, q, CodePointToUTF8(Paired(hi, lo)), s))
  }

  /** `s` begins with `first`, and the rest of the characters stand for the rest of it. */
  ghost predicate CharsAfter(d: string, p: nat, q: nat, first: string, s: string)
    decreases q - p, 1
  {
    first <= s && Chars(d, p, q, s[|first|..])
  }

  ghost predicate Quoted(d: string, p: nat, q: nat, s: string) {
    p + 2 <= q <= |d| && d[p] == '"' && d[q - 1] == '"' && Chars(d, p + 1, q - 1, s)
  }

  // ---- Numbers ----

  /** All digits from `p` on. */
  predicate Digits10(d: string, p: nat, q: nat) {
    p <= q <= |d| && (forall i :: p <= i < q ==> IsDigit(d[i])) && (q < |d| ==> !IsDigit(d[q]))
  }

  predicate Fraction(d: string, p: nat, q: nat) {
    if p < |d| && d[p] == '.' then Digits10(d, p + 1, q) else p == q
  }

  predicate Exponent(d: string, p: nat, q: nat) {
    if p < |d| && d[p] in "eE" then
      Digits10(d, if p + 1 < |d| && d[p + 1] in "+-" then p + 2 else p + 1, q)
    else p == q
  }

  /** A digit or a minus sign, digits, fraction and exponent, as far as they go; none of their digits is needed. */
  ghost predicate Number(d: string, p: nat, q: nat) {
    p < |d| && (IsDigit(d[p]) || d[p] == '-') &&
    exists a: nat, b: nat :: Digits10(d, p + 1, a) && Fraction(d, a, b) && Exponent(d, b, q)
  }

  /** An integer of 64 bits, signed or unsigned, is kept as such; other numbers are doubles. */
  predicate NumberMeans(x: Input, text: string, v: Value) {
    if AllDigits(Digits(text)) && -0x8000_0000_0000_0000 <= IntegerValue(text) <= 0xFFFF_FFFF_FFFF_FFFF then
      v == if IntegerValue(text) <= 0x7FFF_FFFF then Int(IntegerValue(text)) else UInt(IntegerValue(text))
    else
      match x.toDouble(text)
      case Some(r) => v == Real(r)
      case None => false
  }

  // ---- Values ----

  predicate Word(d: string, p: nat, q: nat, w: string) {
    p + |w| == q <= |d| && d[p..q] == w
  }

  ghost predicate ScalarText(x: Input, p: nat, q: nat, v: Value) {
    (v == Null && Word(x.doc, p, q, "null")) ||
    (v == Bool(true) && Word(x.doc, p, q, "true")) ||
    (v == Bool(false) && Word(x.doc, p, q, "false")) ||
    (v.Str? && Quoted(x.doc, p, q, v.s)) ||
    (p <= q <= |x.doc| && Number(x.doc, p, q) && NumberMeans(x, x.doc[p..q], v))
  }

  /** What may precede a value. */
  ghost predicate Leads(x: Input, p: nat, q: nat) {
    if x.features.allowComments then Gap(x.doc, p, q) else Blanks(x.doc, p, q)
  }

  /** A value that nests at most `h` deep. */
  ghost predicate ValueText(x: Input, p: nat, q: nat, v: Value, h: nat)
    decreases q - p, 0
  {
    p < q <= |x.doc| && h > 0 &&
    (ScalarText(x, p, q, v) ||
     (x.doc[p] == '[' && v == Array([]) && Blanks(x.doc, p + 1, q - 1) && x.doc[q - 1] == ']') ||
     (x.doc[p] == '[' && ElementText(x, p + 1, q, [], 0, v, h - 1)) ||
     (x.doc[p] == '{' && MemberText(x, p + 1, q, [], "", v, h - 1)))
  }

  /** An array from its element `index` on; `m` holds those before it. */
  ghost predicate ElementText(x: Input, p: nat, q: nat, m: seq<Entry>, index: nat, v: Value, h: nat)
    decreases q - p, 2
  {
    exists a: nat, b: nat, w ::
      p <= a < b <= q && Leads(x, p, a) && ValueText(x, a, b, w, h) &&
      AfterElement(x, b, q, Put(m, Index(index), w), index + 1, v, h)
  }

  ghost predicate AfterElement(x: Input, p: nat, q: nat, m: seq<Entry>, index: nat, v: Value, h: nat)
    decreases q - p, 1
  {
    exists c: nat ::
      p <= c < q <= |x.doc| && Gap(x.doc, p, c) &&
      ((x.doc[c] == ']' && q == c + 1 && v == Array(m)) ||
       (x.doc[c] == ',' && ElementText(x, c + 1, q, m, index, v, h)))
  }

  /**
   * An object from a member on; `m` holds those before it and `name` is the name of the last one. Only behind an empty
   * name, which is also that of no member, may the object end here.
   */
  ghost predicate MemberText(x: Input, p: nat, q: nat, m: seq<Entry>, name: string, v: Value, h: nat)
    decreases q - p, 2
  {
    exists a: nat ::
      p <= a < q <= |x.doc| && Gap(x.doc, p, a) &&
      ((x.doc[a] == '}' && name == "" && q == a + 1 && v == Object(m)) || NamedText(x, a, q, m, v, h))
  }

  ghost predicate NamedText(x: Input, p: nat, q: nat, m: seq<Entry>, v: Value, h: nat)
    decreases q - p, 1
  {
    exists b: nat, c: nat, name ::
      p < b <= c < q <= |x.doc| && Quoted(x.doc, p, b, name) && Blanks(x.doc, b, c) && x.doc[c] == ':' &&
      MemberValueText(x, c + 1, q, m, name, v, h)
  }

  ghost predicate MemberValueText(x: Input, p: nat, q: nat, m: seq<Entry>, name: string, v: Value, h: nat)
    decreases q - p, 2
  {
    exists a: nat, b: nat, w ::
      p <= a < b <= q && Leads(x, p, a) && ValueText(x, a, b, w, h) &&
      AfterMember(x, b, q, Put(m, Name(name), w), name, v, h)
  }

  ghost predicate AfterMember(x: Input, p: nat, q: nat, m: seq<Entry>, name: string, v: Value, h: nat)
    decreases q - p, 1
  {
    (exists c: nat :: p <= c < q <= |x.doc| && Gap(x.doc, p, c) && x.doc[c] == '}' && q == c + 1 && v == Object(m)) ||
    (exists c: nat :: p < c < q && Separator(x.doc, p, c) && MemberText(x, c, q, m, name, v, h))
  }

  /** Members are separated by a comma, but behind a comment by any lexeme other than the closing brace. */
  ghost predicate Separator(d: string, p: nat, q: nat) {
    (exists b: nat :: Blanks(d, p, b) && b < |d| && d[b] == ',' && q == b + 1) ||
    (exists b: nat :: Gap(d, p, b) && !Blanks(d, p, b) && Lexeme(d, b, q) && d[b] != '}')
  }

  /** Between quotes, where a backslash hides what follows it. */
  predicate RawChars(d: string, p: nat, q: nat)
    decreases q - p
  {
    p <= q <= |d| &&
    (p == q || (if d[p] == '\\' then RawChars(d, p + 2, q) else d[p] != '"' && RawChars(d, p + 1, q)))
  }

  predicate Keyword(d: string, p: nat, q: nat) {
    Word(d, p, q, "null") || Word(d, p, q, "true") || Word(d, p, q, "false")
  }

  /** A string, a number, a keyword, a slash and the character behind it, or else one character. */
  ghost predicate Lexeme(d: string, p: nat, q: nat) {
    p < q <= |d| &&
    if d[p] == '"' then p + 2 <= q && d[q - 1] == '"' && RawChars(d, p + 1, q - 1)
    else if IsDigit(d[p]) || d[p] == '-' then Number(d, p, q)
    else if d[p] == '/' then q == p + 2 && d[p + 1] != '*' && d[p + 1] != '/'
    else if exists r: nat :: Keyword(d, p, r) then Keyword(d, p, q)
    else !Blank(d[p]) && q == p + 1
  }

  /** The document is accepted with the root `v`; what follows the root is ignored. */
  ghost predicate Accepts(x: Input, v: Value) {
    (exists a: nat, b: nat :: Leads(x, 0, a) && ValueText(x, a, b, v, STACK_LIMIT)) &&
    (x.features.strictRoot ==> v.Array? || v.Object?)
  }
}
