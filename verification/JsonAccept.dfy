/** The reader accepts exactly what the grammar of `JsonSyntax` derives, and with the same value. */
module JsonAccept {
  import opened JsonValue
  import opened JsonNumber
  import opened JsonUtf8
  import opened JsonScan
  import opened JsonString
  import opened JsonGrammar
  import opened JsonSyntax

  // ---- White space and comments ----

  lemma BlankIsSpace(c: char)
    ensures Blank(c) <==> IsSpace(c)
  {
    assert " \t\r\n" == [' ', '\t', '\r', '\n'];
  }

  lemma {:induction false} BlanksSkip(d: string, p: nat, q: nat)
    requires Blanks(d, p, q)
    ensures TokenAt(d, p) == TokenAt(d, q) && SkipSpaces(d, p) == SkipSpaces(d, q)
    decreases q - p
  {
    hide TokenFrom;
    if p < q {
      BlankIsSpace(d[p]);
      BlanksSkip(d, p + 1, q);
    }
  }

  lemma SpacesAreBlanks(d: string, p: nat)
    requires p <= |d|
    ensures Blanks(d, p, SkipSpaces(d, p))
    ensures var q := SkipSpaces(d, p); q < |d| ==> !Blank(d[q])
  {
    var q := SkipSpaces(d, p);
    forall i | p <= i < q
      ensures Blank(d[i])
    {
      BlankIsSpace(d[i]);
    }
    if q < |d| {
      BlankIsSpace(d[q]);
    }
  }

  lemma {:induction false} BlockCommentEnds(d: string, p: nat, e: nat)
    requires p <= e && StarSlash(d, e) && forall i :: p <= i < e ==> !StarSlash(d, i)
    ensures CStyleCommentEnd(d, p) == Some(e + 2)
    decreases e - p
  {
    if p < e {
      assert !StarSlash(d, p);
      BlockCommentEnds(d, p + 1, e);
    }
  }

  lemma {:induction false} BlockCommentFound(d: string, p: nat) returns (e: nat)
    requires p <= |d| && CStyleCommentEnd(d, p).Some?
    ensures CStyleCommentEnd(d, p) == Some(e + 2)
    ensures p <= e && StarSlash(d, e) && forall i :: p <= i < e ==> !StarSlash(d, i)
    decreases |d| - p
  {
    if StarSlash(d, p) {
      e := p;
    } else {
      e := BlockCommentFound(d, p + 1);
    }
  }

  lemma {:induction false} LineCommentEnds(d: string, p: nat, r: nat)
    requires p <= r < |d| && LineEnd(d[r]) && forall i :: p <= i < r ==> !LineEnd(d[i])
    ensures CppStyleCommentEnd(d, p) == if d[r] == '\r' && r + 1 < |d| && d[r + 1] == '\n' then r + 2 else r + 1
    decreases r - p
  {
    if p < r {
      LineCommentEnds(d, p + 1, r);
    }
  }

  /** Where the comment of a line ends, unless it ends with the document. */
  lemma {:induction false} LineCommentFound(d: string, p: nat) returns (r: nat)
    requires p <= |d|
    ensures p <= r <= |d| && forall i :: p <= i < r ==> !LineEnd(d[i])
    ensures r < |d| ==> LineEnd(d[r])
    ensures r == |d| ==> CppStyleCommentEnd(d, p) == |d|
    decreases |d| - p
  {
    if p == |d| || LineEnd(d[p]) {
      r := p;
    } else {
      r := LineCommentFound(d, p + 1);
    }
  }

  /** A comment token is a comment, and perhaps the line feed behind its carriage return. */
  lemma CommentIsToken(d: string, p: nat, q: nat)
    requires Comment(d, p, q)
    ensures var t := TokenAt(d, p);
            t.kind == CommentToken && t.start == p && (t.end == q || (t.end == q + 1 && d[q] == '\n'))
  {
    if BlockComment(d, p, q) {
      BlockCommentEnds(d, p + 2, q - 2);
    } else {
      LineCommentEnds(d, p + 2, q - 1);
    }
  }

  lemma OneBlank(d: string, p: nat)
    requires p < |d| && (Blank(d[p]) || d[p] == '\n')
    ensures Blanks(d, p, p + 1)
  {
  }

  lemma {:induction false} GapSkips(x: Input, p: nat, q: nat)
    requires Gap(x.doc, p, q)
    ensures NextToken(x, p) == NextToken(x, q)
    decreases q - p
  {
    hide TokenAt, Comment, Blank, SkipSpaces;
    var d := x.doc;
    if p < q {
      if Blank(d[p]) && Gap(d, p + 1, q) {
        OneBlank(d, p);
        BlanksSkip(d, p, p + 1);
        NextTokenIs(x, p);
        NextTokenIs(x, p + 1);
        GapSkips(x, p + 1, q);
      } else {
        var r: nat :| p < r <= q && Comment(d, p, r) && Gap(d, r, q);
        CommentIsToken(d, p, r);
        NextTokenIs(x, p);
        if TokenAt(d, p).end == r + 1 {
          OneBlank(d, r);
          BlanksSkip(d, r, r + 1);
          NextTokenIs(x, r);
          NextTokenIs(x, r + 1);
        }
        GapSkips(x, r, q);
      }
    }
  }

  lemma {:induction false} BlanksThenGap(d: string, p: nat, q: nat, r: nat)
    requires Blanks(d, p, q) && Gap(d, q, r)
    ensures Gap(d, p, r)
    decreases q - p
  {
    if p < q {
      BlanksThenGap(d, p + 1, q, r);
    }
  }

  /** Behind white space and comments a token begins, or the document ends. */
  lemma {:induction false} GapFound(x: Input, p: nat)
    requires p <= |x.doc|
    ensures var t := NextToken(x, p);
            t.start < |x.doc| ==>
              Gap(x.doc, p, t.start) && TokenAt(x.doc, t.start) == t && !Blank(x.doc[t.start])
    decreases |x.doc| - p
  {
    hide TokenFrom;
    var d := x.doc;
    var s := TokenAt(d, p);
    SpacesAreBlanks(d, p);
    BlanksSkip(d, p, s.start);
    if s.kind == CommentToken {
      GapFound(x, s.end);
      var t := NextToken(x, s.end);
      if t.start < |d| {
        CommentFound(d, s.start, t.start);
        BlanksThenGap(d, p, s.start, t.start);
      }
    } else {
      BlanksThenGap(d, p, s.start, s.start);
    }
  }

  /** What begins with a comment token and goes on with a gap is a gap. */
  lemma CommentFound(d: string, p: nat, q: nat)
    requires p < |d| && !Blank(d[p]) && TokenAt(d, p).kind == CommentToken
    requires q < |d| && Gap(d, TokenAt(d, p).end, q)
    ensures Gap(d, p, q)
  {
    hide Gap, CStyleCommentEnd, CppStyleCommentEnd;
    BlankIsSpace(d[p]);
    if d[p + 1] == '*' {
      BlockFound(d, p, q);
    } else {
      LineFound(d, p, q);
    }
  }

  lemma BlockFound(d: string, p: nat, q: nat)
    requires p + 2 <= |d| && d[p] == '/' && d[p + 1] == '*' && CStyleCommentEnd(d, p + 2).Some?
    requires Gap(d, CStyleCommentEnd(d, p + 2).value, q)
    ensures Gap(d, p, q)
  {
    hide Gap, CStyleCommentEnd;
    var r := BlockCommentFound(d, p + 2);
    assert BlockComment(d, p, r + 2);
    CommentThenGap(d, p, r + 2, q);
  }

  lemma LineFound(d: string, p: nat, q: nat)
    requires p + 2 <= |d| && d[p] == '/' && d[p + 1] == '/' && q < |d| && Gap(d, CppStyleCommentEnd(d, p + 2), q)
    ensures Gap(d, p, q)
  {
    hide Gap, CppStyleCommentEnd;
    var e := CppStyleCommentEnd(d, p + 2);
    GapInBounds(d, e, q);
    var r := LineCommentFound(d, p + 2);
    LineCommentEnds(d, p + 2, r);
    assert LineComment(d, p, r + 1);
    if e == r + 2 {
      BlanksThenGap(d, r + 1, r + 2, q);
    }
    CommentThenGap(d, p, r + 1, q);
  }

  lemma GapInBounds(d: string, p: nat, q: nat)
    requires Gap(d, p, q)
    ensures p <= q <= |d|
  {
  }

  lemma CommentThenGap(d: string, p: nat, r: nat, q: nat)
    requires Comment(d, p, r) && Gap(d, r, q)
    ensures Gap(d, p, q)
  {
    GapInBounds(d, r, q);
  }

  // ---- Numbers ----

  lemma {:induction false} DigitsEnd(d: string, p: nat, q: nat)
    requires p <= |d|
    ensures Digits10(d, p, q) <==> q == SkipDigits(d, p)
    decreases |d| - p
  {
    if p < |d| && IsDigit(d[p]) {
      DigitsEnd(d, p + 1, q);
      assert Digits10(d, p, q) && p < q ==> Digits10(d, p + 1, q);
    }
  }

  lemma FractionIs(d: string, p: nat, q: nat)
    requires p <= |d|
    ensures Fraction(d, p, q) <==> q == FractionEnd(d, p)
  {
    if p < |d| && d[p] == '.' {
      DigitsEnd(d, p + 1, q);
    }
  }

  lemma ExponentIs(d: string, p: nat, q: nat)
    requires p <= |d|
    ensures Exponent(d, p, q) <==> q == ExponentEnd(d, p)
  {
    assert "eE" == ['e', 'E'] && "+-" == ['+', '-'];
    if p < |d| && d[p] in "eE" {
      DigitsEnd(d, p + 1, q);
      if p + 1 < |d| {
        DigitsEnd(d, p + 2, q);
      }
    }
  }

  lemma NumberIs(d: string, p: nat, q: nat)
    requires p < |d| && (IsDigit(d[p]) || d[p] == '-')
    ensures Number(d, p, q) <==> q == NumberEnd(d, p + 1)
    ensures TokenAt(d, p) == Token(NumberToken, p, NumberEnd(d, p + 1))
  {
    hide Digits10, Fraction, Exponent, FractionEnd, ExponentEnd, SkipDigits;
    var a := SkipDigits(d, p + 1);
    var b := FractionEnd(d, a);
    DigitsEnd(d, p + 1, a);
    FractionIs(d, a, b);
    ExponentIs(d, b, q);
    if Number(d, p, q) {
      var a': nat, b': nat :| Digits10(d, p + 1, a') && Fraction(d, a', b') && Exponent(d, b', q);
      DigitsEnd(d, p + 1, a');
      FractionIs(d, a', b');
      ExponentIs(d, b', q);
    }
  }

  // ---- Strings ----

  lemma HexIsValue(c: char, n: nat)
    ensures HexIs(c, n) <==> HexValue(c) == Some(n)
  {
    if n < 16 {
      DigitAt(n);
    }
  }

  lemma DigitAt(n: nat)
    requires n < 16
    ensures LOWER[n] as int == if n < 10 then '0' as int + n else 'a' as int + n - 10
    ensures UPPER[n] as int == if n < 10 then '0' as int + n else 'A' as int + n - 10
  {
  }

  lemma LetterIsUnescaped(letter: char, c: char)
    ensures LetterIs(letter, c) <==> Unescaped(letter) == Some(c)
  {
    assert LETTERS[0] == '"' && LETTERS[1] == '\\' && LETTERS[2] == '/' && LETTERS[3] == 'b' && LETTERS[4] == 'f';
    assert LETTERS[5] == 'n' && LETTERS[6] == 'r' && LETTERS[7] == 't';
  }

  /** Four hexadecimal digits of either case are decoded to their value. */
  lemma UnitDecodes(d: string, t: Token, p: nat, end: nat, n: nat)
    requires Unit(d, p, n) && p + 6 <= end <= |d|
    ensures n < 0x10000 && EscapeSequenceAt(d, t, p + 2, end) == Code(n, p + 6)
  {
    var a: nat, b: nat, c: nat, e: nat :|
      HexIs(d[p + 2], a) && HexIs(d[p + 3], b) && HexIs(d[p + 4], c) && HexIs(d[p + 5], e) &&
      n == 0x1000 * a + 0x100 * b + 0x10 * c + e;
    HexIsValue(d[p + 2], a);
    HexIsValue(d[p + 3], b);
    HexIsValue(d[p + 4], c);
    HexIsValue(d[p + 5], e);
    hide HexValue, HexIs;
    HexDigitsStep(d, t, p + 2, 4, 0);
    HexDigitsStep(d, t, p + 3, 3, a);
    HexDigitsStep(d, t, p + 4, 2, a * 16 + b);
    HexDigitsStep(d, t, p + 5, 1, (a * 16 + b) * 16 + c);
    HexDigitsStep(d, t, p + 6, 0, n);
  }

  lemma UnitFound(d: string, t: Token, p: nat, end: nat) returns (n: nat)
    requires p + 2 <= end <= |d| && d[p] == '\\' && d[p + 1] == 'u' && EscapeSequenceAt(d, t, p + 2, end).Code?
    ensures p + 6 <= end && Unit(d, p, n) && EscapeSequenceAt(d, t, p + 2, end) == Code(n, p + 6)
  {
    hide HexValue, HexIs, FourDigits;
    HexDigitsStep(d, t, p + 2, 4, 0);
    var a := HexValue(d[p + 2]).value;
    HexDigitsStep(d, t, p + 3, 3, 0 * 16 + a);
    var b := HexValue(d[p + 3]).value;
    HexDigitsStep(d, t, p + 4, 2, a * 16 + b);
    var c := HexValue(d[p + 4]).value;
    HexDigitsStep(d, t, p + 5, 1, (a * 16 + b) * 16 + c);
    var e := HexValue(d[p + 5]).value;
    n := ((a * 16 + b) * 16 + c) * 16 + e;
    HexDigitsStep(d, t, p + 6, 0, n);
    HexIsValue(d[p + 2], a);
    HexIsValue(d[p + 3], b);
    HexIsValue(d[p + 4], c);
    HexIsValue(d[p + 5], e);
    FourAre(d[p + 2], d[p + 3], d[p + 4], d[p + 5], a, b, c, e);
  }

  lemma FourAre(c0: char, c1: char, c2: char, c3: char, a: nat, b: nat, c: nat, e: nat)
    requires HexIs(c0, a) && HexIs(c1, b) && HexIs(c2, c) && HexIs(c3, e)
    ensures FourDigits(c0, c1, c2, c3, ((a * 16 + b) * 16 + c) * 16 + e)
  {
    hide HexIs;
    assert ((a * 16 + b) * 16 + c) * 16 + e == 0x1000 * a + 0x100 * b + 0x10 * c + e;
  }

  /** No hexadecimal digit ends a string or hides what follows it. */
  lemma UnitScans(d: string, p: nat, n: nat)
    requires Unit(d, p, n)
    ensures ClosingQuote(d, p) == ClosingQuote(d, p + 6)
  {
    var a: nat, b: nat, c: nat, e: nat :|
      HexIs(d[p + 2], a) && HexIs(d[p + 3], b) && HexIs(d[p + 4], c) && HexIs(d[p + 5], e) &&
      n == 0x1000 * a + 0x100 * b + 0x10 * c + e;
    NoQuote(d[p + 2], a);
    NoQuote(d[p + 3], b);
    NoQuote(d[p + 4], c);
    NoQuote(d[p + 5], e);
    assert ClosingQuote(d, p) == ClosingQuote(d, p + 2);
    assert ClosingQuote(d, p + 2) == ClosingQuote(d, p + 3);
    assert ClosingQuote(d, p + 3) == ClosingQuote(d, p + 4);
    assert ClosingQuote(d, p + 4) == ClosingQuote(d, p + 5);
  }

  lemma NoQuote(c: char, n: nat)
    requires HexIs(c, n)
    ensures c != '"' && c != '\\'
  {
    DigitAt(n);
  }

  /** A unit that begins no surrogate pair, in digits of either case, is decoded to its value. */
  lemma OneUnitDecodes(d: string, t: Token, p: nat, end: nat, n: nat)
    requires Unit(d, p, n) && !High(n) && p + 6 <= end <= |d|
    ensures CodePointAt(d, t, p + 2, end) == Code(n, p + 6)
  {
    UnitDecodes(d, t, p, end, n);
  }

  lemma PairDecodes(d: string, t: Token, p: nat, end: nat, hi: nat, lo: nat)
    requires Unit(d, p, hi) && High(hi) && Unit(d, p + 6, lo) && p + 12 <= end <= |d|
    ensures CodePointAt(d, t, p + 2, end) == Code(Paired(hi, lo), p + 12)
  {
    hide EscapeSequenceAt;
    UnitDecodes(d, t, p, end, hi);
    UnitDecodes(d, t, p + 6, end, lo);
    assert hi % 0x400 == hi - 0xD800;
  }

  /**
   * Every scalar value that is written with one escape or with a surrogate pair, in hexadecimal digits of either case
   * or both, is decoded to itself.
   */
  lemma ScalarReadsBack(d: string, t: Token, p: nat, end: nat, cp: nat)
    requires IsScalar(cp) && p + (if cp < 0x10000 then 6 else 12) <= end <= |d|
    requires if cp < 0x10000 then Unit(d, p, cp)
             else
               Unit(d, p, 0xD800 + (cp - 0x10000) / 0x400) && Unit(d, p + 6, 0xDC00 + (cp - 0x10000) % 0x400)
    ensures CodePointAt(d, t, p + 2, end) == Code(cp, p + if cp < 0x10000 then 6 else 12)
  {
    hide Unit, CodePointAt, Paired;
    if cp < 0x10000 {
      OneUnitDecodes(d, t, p, end, cp);
    } else {
      var hi, lo := 0xD800 + (cp - 0x10000) / 0x400, 0xDC00 + (cp - 0x10000) % 0x400;
      SurrogatePair(cp);
      PairIs(cp);
      PairDecodes(d, t, p, end, hi, lo);
    }
  }

  lemma PairIs(cp: nat)
    requires 0x10000 <= cp <= 0x10FFFF
    ensures var hi, lo := 0xD800 + (cp - 0x10000) / 0x400, 0xDC00 + (cp - 0x10000) % 0x400;
            High(hi) && Paired(hi, lo) == cp
  {
    SurrogatePair(cp);
  }

  lemma Regroup(acc: string, first: string, s: string)
    requires first <= s
    ensures acc + first + s[|first|..] == acc + s
  {
  }

  /** The token ends at the quote behind the characters, and they are decoded to what they stand for. */
  lemma {:induction false} CharsDecode(d: string, t: Token, p: nat, q: nat, s: string, acc: string)
    requires Chars(d, p, q, s) && q < |d| && d[q] == '"'
    ensures ClosingQuote(d, p) == Some(q + 1) && StringFrom(d, t, p, q, acc) == Text(acc + s)
    decreases q - p
  {
    hide CodePointAt, CodePointToUTF8, Unescaped, LetterIs, Unit, High, Paired;
    if p == q {
      assert acc + s == acc;
    } else if d[p] != '\\' {
      CharsDecode(d, t, p + 1, q, s[1..], acc + [d[p]]);
      Regroup(acc, [d[p]], s);
    } else if p + 2 <= q && s != "" && LetterIs(d[p + 1], s[0]) && Chars(d, p + 2, q, s[1..]) {
      LetterIsUnescaped(d[p + 1], s[0]);
      NoLetterU(d[p + 1]);
      CharsDecode(d, t, p + 2, q, s[1..], acc + [s[0]]);
      Regroup(acc, [s[0]], s);
    } else if n: nat :| p + 6 <= q && Unit(d, p, n) && !High(n) && CharsAfter(d, p + 6, q, CodePointToUTF8(n), s) {
      OneUnitDecodes(d, t, p, q, n);
      UnitIsEscape(d, p, n);
      UnitScans(d, p, n);
      var first := CodePointToUTF8(n);
      CharsDecode(d, t, p + 6, q, s[|first|..], acc + first);
      Regroup(acc, first, s);
    } else {
      var hi: nat, lo: nat :|
        p + 12 <= q && Unit(d, p, hi) && High(hi) && Unit(d, p + 6, lo) &&
        CharsAfter(d, p + 12, q, CodePointToUTF8(Paired(hi, lo)), s);
      PairDecodes(d, t, p, q, hi, lo);
      UnitIsEscape(d, p, hi);
      UnitScans(d, p, hi);
      UnitScans(d, p + 6, lo);
      var first := CodePointToUTF8(Paired(hi, lo));
      CharsDecode(d, t, p + 12, q, s[|first|..], acc + first);
      Regroup(acc, first, s);
    }
  }

  lemma UnitIsEscape(d: string, p: nat, n: nat)
    requires Unit(d, p, n)
    ensures p + 6 <= |d| && d[p] == '\\' && d[p + 1] == 'u'
  {
  }

  lemma NoLetterU(c: char)
    requires Unescaped(c).Some?
    ensures c != 'u'
  {
  }

  /** What is decoded up to the closing quote stands between the quotes. */
  lemma {:induction false} CharsFound(d: string, t: Token, p: nat, q: nat, acc: string) returns (s: string)
    requires p <= q < |d| && ClosingQuote(d, p) == Some(q + 1) && StringFrom(d, t, p, q, acc).Text?
    ensures Chars(d, p, q, s) && StringFrom(d, t, p, q, acc) == Text(acc + s)
    decreases q - p
  {
    hide CodePointAt, CodePointToUTF8, Unescaped, LetterIs, Unit, High, Paired;
    if p == q {
      s := "";
      assert acc + s == acc;
    } else if d[p] != '\\' {
      var rest := CharsFound(d, t, p + 1, q, acc + [d[p]]);
      s := [d[p]] + rest;
      assert s[1..] == rest;
      Regroup(acc, [d[p]], s);
    } else if d[p + 1] != 'u' {
      QuoteBehind(d, p, q);
      var c := Unescaped(d[p + 1]).value;
      LetterIsUnescaped(d[p + 1], c);
      var rest := CharsFound(d, t, p + 2, q, acc + [c]);
      s := [c] + rest;
      assert s[1..] == rest;
      Regroup(acc, [c], s);
    } else {
      QuoteBehind(d, p, q);
      s := EscapeFound(d, t, p, q, acc);
    }
  }

  lemma QuoteBehind(d: string, p: nat, q: nat)
    requires p < q < |d| && d[p] == '\\' && ClosingQuote(d, p) == Some(q + 1)
    ensures p + 2 <= q && ClosingQuote(d, p + 2) == Some(q + 1)
  {
  }

  lemma {:induction false} EscapeFound(d: string, t: Token, p: nat, q: nat, acc: string) returns (s: string)
    requires p + 2 <= q < |d| && d[p] == '\\' && d[p + 1] == 'u'
    requires ClosingQuote(d, p) == Some(q + 1) && StringFrom(d, t, p, q, acc).Text?
    ensures Chars(d, p, q, s) && StringFrom(d, t, p, q, acc) == Text(acc + s)
    decreases q - p, 0
  {
    hide CodePointToUTF8, Unit, LetterIs, Paired, EscapeSequenceAt, ClosingQuote;
    var first, n: nat;
    if EscapeSequenceAt(d, t, p + 2, q).Code? {
      var hi := UnitFound(d, t, p, q);
      UnitScans(d, p, hi);
      if High(hi) {
        var lo := UnitFound(d, t, p + 6, q);
        PairDecodes(d, t, p, q, hi, lo);
        UnitScans(d, p + 6, lo);
        first, n := CodePointToUTF8(Paired(hi, lo)), p + 12;
      } else {
        first, n := CodePointToUTF8(hi), p + 6;
      }
      var rest := CharsFound(d, t, n, q, acc + first);
      s := first + rest;
      assert s[|first|..] == rest;
      assert CharsAfter(d, n, q, first, s);
      Regroup(acc, first, s);
    }
  }

  // ---- Lexemes ----

  lemma {:induction false} RawCharsEnd(d: string, p: nat, q: nat)
    requires p <= q < |d| && d[q] == '"'
    ensures RawChars(d, p, q) <==> ClosingQuote(d, p) == Some(q + 1)
    decreases q - p
  {
    if p < q {
      if d[p] != '\\' {
        RawCharsEnd(d, p + 1, q);
      } else if p + 2 <= q {
        RawCharsEnd(d, p + 2, q);
      }
    }
  }

  lemma WordIs(d: string, p: nat, first: char, rest: string)
    ensures (p < |d| && d[p] == first && Matches(d, p + 1, rest)) <==> Word(d, p, p + 1 + |rest|, [first] + rest)
  {
    var w := [first] + rest;
    if Word(d, p, p + |w|, w) {
      forall i | 0 <= i < |rest|
        ensures d[p + 1 + i] == rest[i]
      {
        assert d[p..p + |w|][i + 1] == rest[i];
      }
      assert d[p..p + |w|][0] == first;
    }
    if p < |d| && d[p] == first && Matches(d, p + 1, rest) {
      forall i | 0 <= i < |w|
        ensures d[p + i] == w[i]
      {
        assert i > 0 ==> d[p + 1 + (i - 1)] == rest[i - 1];
      }
      assert d[p..p + |w|] == w;
    }
  }

  lemma KeywordIs(d: string, p: nat, q: nat)
    requires p < |d|
    ensures Keyword(d, p, q) <==>
              (q == p + 4 && d[p] == 'n' && Matches(d, p + 1, "ull")) ||
              (q == p + 4 && d[p] == 't' && Matches(d, p + 1, "rue")) ||
              (q == p + 5 && d[p] == 'f' && Matches(d, p + 1, "alse"))
  {
    assert ['n'] + "ull" == "null" && ['t'] + "rue" == "true" && ['f'] + "alse" == "false";
    WordIs(d, p, 'n', "ull");
    WordIs(d, p, 't', "rue");
    WordIs(d, p, 'f', "alse");
  }

  /** A lexeme is what one token covers, unless that is a comment or runs to the end of the document. */
  lemma LexemeIsToken(d: string, p: nat, q: nat)
    requires Lexeme(d, p, q)
    ensures var t := TokenAt(d, p); t.kind != CommentToken && t.end == q && (t.kind == ObjectEnd <==> d[p] == '}')
  {
    hide Number, Keyword, RawChars;
    BlankIsSpace(d[p]);
    if d[p] == '"' {
      RawCharsEnd(d, p + 1, q - 1);
    } else if IsDigit(d[p]) || d[p] == '-' {
      NumberIs(d, p, q);
    } else if d[p] != '/' {
      if r: nat :| Keyword(d, p, r) {
        KeywordIs(d, p, q);
      } else {
        KeywordIs(d, p, p + 4);
        KeywordIs(d, p, p + 5);
      }
    }
  }

  lemma TokenIsLexeme(d: string, p: nat)
    requires p < |d| && !Blank(d[p]) && TokenAt(d, p).kind != CommentToken && TokenAt(d, p).end < |d|
    ensures Lexeme(d, p, TokenAt(d, p).end)
  {
    hide Number, Keyword, RawChars;
    BlankIsSpace(d[p]);
    var q := TokenAt(d, p).end;
    if d[p] == '"' {
      QuoteFound(d, p + 1);
    } else if IsDigit(d[p]) || d[p] == '-' {
      NumberIs(d, p, q);
    } else if d[p] != '/' {
      KeywordIs(d, p, p + 4);
      KeywordIs(d, p, p + 5);
      if r: nat :| Keyword(d, p, r) {
        KeywordIs(d, p, r);
      }
    }
  }

  lemma {:induction false} QuoteFound(d: string, p: nat)
    requires p <= |d|
    ensures match ClosingQuote(d, p)
            case None => true
            case Some(e) => p < e && d[e - 1] == '"' && RawChars(d, p, e - 1)
    decreases |d| - p
  {
    if p < |d| && d[p] != '"' {
      if d[p] != '\\' {
        QuoteFound(d, p + 1);
      } else if p + 2 <= |d| {
        QuoteFound(d, p + 2);
      }
    }
  }

  // ---- Scalars ----

  lemma NumberMeansNumberOf(x: Input, t: Token, v: Value)
    requires t.start <= t.end <= |x.doc|
    ensures NumberMeans(x, TokenText(x, t), v) <==> NumberOf(x, t) == Some(v)
  {
  }

  /** The text of a scalar is one token, which is read as the value. */
  lemma ScalarIsRead(x: Input, p: nat, q: nat, v: Value, prior: Value)
    requires p < q <= |x.doc| && ScalarText(x, p, q, v)
    ensures !Blank(x.doc[p]) && x.doc[p] != '/' && x.doc[p] != ']'
    ensures var t := TokenAt(x.doc, p);
            t.kind !in {CommentToken, ObjectBegin, ArrayBegin} && t.start == p &&
            ScalarAt(x, t, prior) == Read(v, q)
  {
    hide Number, StringFrom, ClosingQuote, NumberMeans, NumberOf, Chars, TokenAt, Keyword;
    var d := x.doc;
    var t := TokenAt(d, p);
    if v.Str? && Quoted(d, p, q, v.s) {
      QuotedReads(d, p, q, v.s);
      BlankIsSpace(d[p]);
    } else if Number(d, p, q) && NumberMeans(x, d[p..q], v) {
      NumberStart(d, p, q);
      NumberIs(d, p, q);
      NumberMeansNumberOf(x, t, v);
      BlankIsSpace(d[p]);
    } else {
      KeywordReads(d, p, q);
    }
  }

  lemma KeywordReads(d: string, p: nat, q: nat)
    requires p < q <= |d| && Keyword(d, p, q)
    ensures !Blank(d[p]) && d[p] != '/' && d[p] != ']'
    ensures Word(d, p, q, "null") ==> TokenAt(d, p) == Token(NullToken, p, q)
    ensures Word(d, p, q, "true") ==> TokenAt(d, p) == Token(TrueToken, p, q)
    ensures Word(d, p, q, "false") ==> TokenAt(d, p) == Token(FalseToken, p, q)
  {
    BlankIsSpace(d[p]);
    KeywordIs(d, p, q);
    assert d[p..q][0] == d[p];
  }

  lemma NumberStart(d: string, p: nat, q: nat)
    requires Number(d, p, q)
    ensures p < |d| && (IsDigit(d[p]) || d[p] == '-')
  {
  }

  lemma ScalarFound(x: Input, p: nat, prior: Value)
    requires p < |x.doc| && !Blank(x.doc[p])
    requires ScalarAt(x, TokenAt(x.doc, p), prior).Read?
    ensures var r := ScalarAt(x, TokenAt(x.doc, p), prior); p < r.next && ScalarText(x, p, r.next, r.value)
  {
    hide Number, StringFrom, ClosingQuote, NumberMeans, NumberOf, Chars;
    var d := x.doc;
    BlankIsSpace(d[p]);
    var t := TokenAt(d, p);
    var r := ScalarAt(x, t, prior);
    KeywordIs(d, p, r.next);
    if t.kind == StringToken {
      var s := CharsFound(d, t, p + 1, t.end - 1, "");
      assert "" + s == s;
      QuoteFound(d, p + 1);
      assert Quoted(d, p, t.end, s);
    } else if t.kind == NumberToken {
      NumberIs(d, p, t.end);
      NumberMeansNumberOf(x, t, r.value);
    }
  }

  // ---- What leads up to a value ----

  lemma LeadsSkip(x: Input, p: nat, a: nat)
    requires Leads(x, p, a) && a < |x.doc| && TokenAt(x.doc, a).kind != CommentToken
    ensures p <= a && SkippedTo(x, p) == TokenAt(x.doc, a)
  {
    hide TokenAt;
    if x.features.allowComments {
      GapInBounds(x.doc, p, a);
      GapSkips(x, p, a);
    } else {
      BlanksSkip(x.doc, p, a);
    }
  }

  lemma LeadsFound(x: Input, p: nat)
    requires p <= |x.doc|
    ensures var t := SkippedTo(x, p);
            t.start < |x.doc| ==>
              p <= t.start && Leads(x, p, t.start) && TokenAt(x.doc, t.start) == t && !Blank(x.doc[t.start])
  {
    hide TokenFrom;
    if x.features.allowComments {
      GapFound(x, p);
      if NextToken(x, p).start < |x.doc| {
        GapInBounds(x.doc, p, NextToken(x, p).start);
      }
    } else {
      SpacesAreBlanks(x.doc, p);
      BlanksSkip(x.doc, p, SkipSpaces(x.doc, p));
    }
  }

  lemma {:induction false} NoBracketAhead(d: string, p: nat, a: nat)
    requires Gap(d, p, a) && a < |d| && !Blank(d[a]) && d[a] != ']'
    ensures CharAt(d, SkipSpaces(d, p)) != ']'
    decreases a - p
  {
    BlankIsSpace(d[p]);
    if p < a && Blank(d[p]) && Gap(d, p + 1, a) {
      NoBracketAhead(d, p + 1, a);
    }
  }

  lemma {:induction false} BlanksAreGap(d: string, p: nat, a: nat)
    requires Blanks(d, p, a)
    ensures Gap(d, p, a)
    decreases a - p
  {
    if p < a {
      BlanksAreGap(d, p + 1, a);
    }
  }

  lemma LeadsIsGap(x: Input, p: nat, a: nat)
    requires Leads(x, p, a)
    ensures Gap(x.doc, p, a)
  {
    if !x.features.allowComments {
      BlanksAreGap(x.doc, p, a);
    }
  }

  lemma BlanksThenLeads(x: Input, p: nat, s: nat, a: nat)
    requires Blanks(x.doc, p, s) && Leads(x, s, a)
    ensures Leads(x, p, a)
  {
    if x.features.allowComments {
      BlanksThenGap(x.doc, p, s, a);
    }
  }

  /** White space before an element is skipped twice. */
  lemma ElementsSkip(x: Input, p: nat, s: nat, depth: nat, m: seq<Entry>, index: nat)
    requires Blanks(x.doc, p, s)
    ensures ElementsAt(x, p, depth, m, index) == ElementsAt(x, s, depth, m, index)
  {
    hide TokenAt, ValueAt, ElementsAt, Put, Current, ScalarAt, MembersAt, ArrayAt;
    BlanksSkip(x.doc, p, s);
    NextTokenIs(x, p);
    NextTokenIs(x, s);
    var prior := Current(m, Index(index));
    ValueStep(x, p, depth, prior);
    ValueStep(x, s, depth, prior);
    ElementsStep(x, p, depth, m, index, ValueAt(x, p, depth, prior));
    ElementsStep(x, s, depth, m, index, ValueAt(x, s, depth, prior));
  }

  lemma NextTokenIs(x: Input, p: nat)
    requires p <= |x.doc|
    ensures var t := TokenAt(x.doc, p);
            NextToken(x, p) == if t.kind == CommentToken then NextToken(x, t.end) else t
  {
  }

  // ---- What the grammar derives is read ----

  lemma PunctuationIs(d: string, p: nat)
    requires p < |d| && d[p] in "[]{},:"
    ensures var k := if d[p] == '[' then ArrayBegin else if d[p] == ']' then ArrayEnd
                     else if d[p] == '{' then ObjectBegin else if d[p] == '}' then ObjectEnd
                     else if d[p] == ',' then ArraySeparator else MemberSeparator;
            TokenAt(d, p) == Token(k, p, p + 1)
    ensures !Blank(d[p])
  {
    assert "[]{},:" == ['[', ']', '{', '}', ',', ':'];
  }

  /** The first character of a value. */
  lemma ValueStarts(x: Input, p: nat, q: nat, v: Value, h: nat)
    requires ValueText(x, p, q, v, h)
    ensures p < q <= |x.doc| && !Blank(x.doc[p]) && x.doc[p] != ']' && TokenAt(x.doc, p).kind != CommentToken
  {
    hide TokenFrom, ElementText, MemberText, Blanks;
    if ScalarText(x, p, q, v) {
      ScalarIsRead(x, p, q, v, Null);
    } else {
      PunctuationIs(x.doc, p);
    }
  }

  lemma {:induction false} ValueReads(x: Input, o: nat, p: nat, q: nat, v: Value, depth: nat, prior: Value)
    requires depth <= STACK_LIMIT && Leads(x, o, p) && ValueText(x, p, q, v, STACK_LIMIT - depth)
    ensures o <= p && ValueAt(x, o, depth, prior) == Read(v, q)
    decreases q - p, 0
  {
    hide TokenFrom, TokenAt, ElementText, MemberText, Blanks, ScalarText, ValueAt, MembersAt, ArrayAt, ScalarAt, Leads,
      SkippedTo;
    ValueStarts(x, p, q, v, STACK_LIMIT - depth);
    LeadsSkip(x, o, p);
    ValueStep(x, o, depth, prior);
    if ScalarText(x, p, q, v) {
      ScalarIsRead(x, p, q, v, prior);
    } else {
      PunctuationIs(x.doc, p);
      if x.doc[p] == '{' {
        MembersRead(x, p + 1, q, [], "", v, depth + 1);
      } else {
        ArrayReads(x, p + 1, q, v, depth + 1);
      }
    }
  }

  lemma {:induction false} ArrayReads(x: Input, p: nat, q: nat, v: Value, depth: nat)
    requires 0 < p <= |x.doc| && depth <= STACK_LIMIT
    requires (p < q <= |x.doc| && v == Array([]) && Blanks(x.doc, p, q - 1) && x.doc[q - 1] == ']') ||
             ElementText(x, p, q, [], 0, v, STACK_LIMIT - depth)
    ensures ArrayAt(x, p, depth) == Read(v, q)
    decreases q - p, 3
  {
    hide TokenFrom, TokenAt, ValueText, ElementText, ArrayAt, ElementsAt, ValueAt, Leads, AfterElement, Put;
    var s := SkipSpaces(x.doc, p);
    ArrayStep(x, p, depth);
    if p < q <= |x.doc| && v == Array([]) && Blanks(x.doc, p, q - 1) && x.doc[q - 1] == ']' {
      PunctuationIs(x.doc, q - 1);
      BlanksSkip(x.doc, p, q - 1);
      BlankIsSpace(x.doc[q - 1]);
    } else {
      ElementAhead(x, p, q, [], 0, v, STACK_LIMIT - depth);
      SpacesAreBlanks(x.doc, p);
      ElementsSkip(x, p, s, depth, [], 0);
      ElementsRead(x, p, q, [], 0, v, depth);
    }
  }

  lemma ElementAhead(x: Input, p: nat, q: nat, m: seq<Entry>, index: nat, v: Value, h: nat)
    requires p <= |x.doc| && ElementText(x, p, q, m, index, v, h)
    ensures CharAt(x.doc, SkipSpaces(x.doc, p)) != ']'
  {
    hide AfterElement, ValueText, Leads, TokenAt;
    var a: nat, b: nat, w :|
      p <= a < b <= q && Leads(x, p, a) && ValueText(x, a, b, w, h) &&
      AfterElement(x, b, q, Put(m, Index(index), w), index + 1, v, h);
    ValueStarts(x, a, b, w, h);
    LeadsIsGap(x, p, a);
    NoBracketAhead(x.doc, p, a);
  }

  lemma {:induction false} ElementsRead(
    x: Input, p: nat, q: nat, m: seq<Entry>, index: nat, v: Value, depth: nat)
    requires p <= |x.doc| && depth <= STACK_LIMIT && ElementText(x, p, q, m, index, v, STACK_LIMIT - depth)
    ensures ElementsAt(x, p, depth, m, index) == Read(v, q)
    decreases q - p, 2
  {
    hide TokenFrom, TokenAt, ValueText, ElementsAt, ValueAt, Leads, NextToken, Put, Current, AfterElement;
    var h := STACK_LIMIT - depth;
    var a: nat, b: nat, w :|
      p <= a < b <= q && Leads(x, p, a) && ValueText(x, a, b, w, h) &&
      AfterElement(x, b, q, Put(m, Index(index), w), index + 1, v, h);
    ValueReads(x, p, a, b, w, depth, Current(m, Index(index)));
    ElementsStep(x, p, depth, m, index, Read(w, b));
    RestReads(x, b, q, Put(m, Index(index), w), index + 1, v, depth);
  }

  /** What follows an element. */
  lemma {:induction false} RestReads(x: Input, p: nat, q: nat, m: seq<Entry>, index: nat, v: Value, depth: nat)
    requires p <= |x.doc| && depth <= STACK_LIMIT && AfterElement(x, p, q, m, index, v, STACK_LIMIT - depth)
    ensures var t := NextToken(x, p);
            if t.kind == ArrayEnd then v == Array(m) && t.end == q
            else t.kind == ArraySeparator && ElementsAt(x, t.end, depth, m, index) == Read(v, q)
    decreases q - p, 1
  {
    hide TokenFrom, TokenAt, Gap, NextToken, ElementText, ElementsAt;
    var h := STACK_LIMIT - depth;
    var c: nat :|
      p <= c < q <= |x.doc| && Gap(x.doc, p, c) &&
      ((x.doc[c] == ']' && q == c + 1 && v == Array(m)) ||
       (x.doc[c] == ',' && ElementText(x, c + 1, q, m, index, v, h)));
    GapSkips(x, p, c);
    PunctuationIs(x.doc, c);
    NextTokenIs(x, c);
    if x.doc[c] == ',' {
      ElementsRead(x, c + 1, q, m, index, v, depth);
    }
  }

  lemma {:induction false} MembersRead(x: Input, p: nat, q: nat, m: seq<Entry>, name: string, v: Value, depth: nat)
    requires p <= |x.doc| && depth <= STACK_LIMIT && MemberText(x, p, q, m, name, v, STACK_LIMIT - depth)
    ensures MembersAt(x, p, depth, m, name) == Read(v, q)
    decreases q - p, 5
  {
    hide TokenFrom, TokenAt, MembersAt, Gap, NextToken, NamedText, Quoted, StringAt, MemberValueAt;
    var d, h := x.doc, STACK_LIMIT - depth;
    var a: nat :|
      p <= a < q <= |d| && Gap(d, p, a) &&
      ((d[a] == '}' && name == "" && q == a + 1 && v == Object(m)) || NamedText(x, a, q, m, v, h));
    GapSkips(x, p, a);
    NextTokenIs(x, a);
    MembersStep(x, p, depth, m, name);
    if d[a] == '}' && name == "" && q == a + 1 && v == Object(m) {
      PunctuationIs(d, a);
    } else {
      var b, newName := NamedReads(x, a, q, m, v, depth);
    }
  }

  /** The name of a member and the colon, before its value. */
  lemma {:induction false} NamedReads(x: Input, p: nat, q: nat, m: seq<Entry>, v: Value, depth: nat)
    returns (b: nat, name: string)
    requires p < q <= |x.doc| && depth <= STACK_LIMIT && NamedText(x, p, q, m, v, STACK_LIMIT - depth)
    ensures p < b <= |x.doc| && TokenAt(x.doc, p) == Token(StringToken, p, b)
    ensures StringAt(x.doc, TokenAt(x.doc, p)) == Text(name)
    ensures var colon := TokenAt(x.doc, b);
            colon.kind == MemberSeparator && MemberValueAt(x, colon.end, depth, m, name) == Read(v, q)
    decreases q - p, 4
  {
    hide TokenFrom, TokenAt, Quoted, StringAt, MemberValueText, MemberValueAt, MembersAt, ValueAt, ArrayAt, ElementsAt,
      ScalarAt, Blanks, NextToken, SkippedTo, Recovered, SkipSpaces, Put, Current;
    var d, h := x.doc, STACK_LIMIT - depth;
    var b': nat, c: nat, name' :|
      p < b' <= c < q <= |d| && Quoted(d, p, b', name') && Blanks(d, b', c) && d[c] == ':' &&
      MemberValueText(x, c + 1, q, m, name', v, h);
    b, name := b', name';
    QuotedReads(d, p, b, name);
    BlanksSkip(d, b, c);
    PunctuationIs(d, c);
    MemberValueReads(x, c + 1, q, m, name, v, depth);
  }

  lemma QuotedReads(d: string, p: nat, q: nat, s: string)
    requires p < q <= |d| && Quoted(d, p, q, s)
    ensures TokenAt(d, p) == Token(StringToken, p, q) && StringAt(d, TokenAt(d, p)) == Text(s)
  {
    hide Chars, StringFrom, ClosingQuote;
    CharsDecode(d, Token(StringToken, p, q), p + 1, q - 1, s, "");
    assert "" + s == s;
  }

  lemma {:induction false} MemberValueReads(
    x: Input, p: nat, q: nat, m: seq<Entry>, name: string, v: Value, depth: nat)
    requires p <= |x.doc| && depth <= STACK_LIMIT && MemberValueText(x, p, q, m, name, v, STACK_LIMIT - depth)
    ensures MemberValueAt(x, p, depth, m, name) == Read(v, q)
    decreases q - p, 3
  {
    hide TokenFrom, TokenAt, ValueText, MemberValueAt, MembersAt, ValueAt, Leads, Gap, NextToken, Put, Current,
      Separator, MemberText;
    var d, h := x.doc, STACK_LIMIT - depth;
    var a: nat, b: nat, w :|
      p <= a < b <= q && Leads(x, p, a) && ValueText(x, a, b, w, h) &&
      AfterMember(x, b, q, Put(m, Name(name), w), name, v, h);
    ValueReads(x, p, a, b, w, depth, Current(m, Name(name)));
    MemberValueStep(x, p, depth, m, name, Read(w, b));
    var n := Put(m, Name(name), w);
    if c: nat :| b < c < q && Separator(d, b, c) && MemberText(x, c, q, n, name, v, h) {
      SeparatorReads(x, b, c);
      MembersRead(x, c, q, n, name, v, depth);
    } else {
      var c: nat :| b <= c < q <= |d| && Gap(d, b, c) && d[c] == '}' && q == c + 1 && v == Object(n);
      GapSkips(x, b, c);
      PunctuationIs(d, c);
      NextTokenIs(x, c);
      BraceAhead(x, b, c);
    }
  }

  /** The token before a gap is a comment, or the one behind it. */
  lemma {:induction false} BraceAhead(x: Input, p: nat, q: nat)
    requires Gap(x.doc, p, q) && q < |x.doc|
    ensures p <= |x.doc| && (TokenAt(x.doc, p).kind == CommentToken || TokenAt(x.doc, p) == TokenAt(x.doc, q))
    decreases q - p
  {
    hide TokenAt;
    var d := x.doc;
    if p < q {
      if Blank(d[p]) && Gap(d, p + 1, q) {
        BlanksSkip(d, p, p + 1);
        BraceAhead(x, p + 1, q);
      } else {
        var r: nat :| p < r <= q && Comment(d, p, r) && Gap(d, r, q);
        CommentIsToken(d, p, r);
      }
    }
  }

  /** A gap that is not white space alone begins with a comment token. */
  lemma {:induction false} CommentAhead(x: Input, p: nat, q: nat)
    requires Gap(x.doc, p, q) && !Blanks(x.doc, p, q)
    ensures p <= |x.doc| && TokenAt(x.doc, p).kind == CommentToken
    decreases q - p
  {
    hide TokenAt;
    var d := x.doc;
    if Blank(d[p]) && Gap(d, p + 1, q) {
      BlanksSkip(d, p, p + 1);
      CommentAhead(x, p + 1, q);
    } else {
      var r: nat :| p < r <= q && Comment(d, p, r) && Gap(d, r, q);
      CommentIsToken(d, p, r);
    }
  }

  lemma SeparatorReads(x: Input, p: nat, q: nat)
    requires p <= |x.doc| && Separator(x.doc, p, q)
    ensures TokenAt(x.doc, p).kind in {ArraySeparator, CommentToken}
    ensures NextToken(x, p).kind != ObjectEnd && NextToken(x, p).end == q
  {
    hide TokenAt, Gap, NextToken;
    var d := x.doc;
    NextTokenIs(x, p);
    if b: nat :| Gap(d, p, b) && !Blanks(d, p, b) && Lexeme(d, b, q) && d[b] != '}' {
      CommentAhead(x, p, b);
      GapSkips(x, p, b);
      LexemeIsToken(d, b, q);
      NextTokenIs(x, b);
    } else {
      var b: nat :| Blanks(d, p, b) && b < |d| && d[b] == ',' && q == b + 1;
      BlanksSkip(d, p, b);
      PunctuationIs(d, b);
    }
  }

  // ---- What is read, the grammar derives ----

  lemma {:induction false} ValueFound(x: Input, p: nat, depth: nat, prior: Value) returns (a: nat)
    requires p <= |x.doc| && depth <= STACK_LIMIT && ValueAt(x, p, depth, prior).Read?
    ensures var r := ValueAt(x, p, depth, prior);
            p <= a < r.next <= |x.doc| && Leads(x, p, a) && ValueText(x, a, r.next, r.value, STACK_LIMIT - depth)
    decreases |x.doc| - p, 1
  {
    hide TokenFrom, TokenAt, ElementText, MemberText, ScalarText, ValueAt, MembersAt, ArrayAt, ScalarAt, Leads, Blanks,
      SkippedTo;
    var d := x.doc;
    var r := ValueAt(x, p, depth, prior);
    ValueStep(x, p, depth, prior);
    var t := SkippedTo(x, p);
    a := t.start;
    SkippedStarts(x, p);
    LeadsFound(x, p);
    if t.kind == ObjectBegin {
      OpeningFound(d, a);
      MembersFound(x, t.end, depth + 1, [], "");
    } else if t.kind == ArrayBegin {
      OpeningFound(d, a);
      ArrayFound(x, t.end, depth + 1);
    } else {
      ScalarFound(x, a, prior);
    }
  }

  lemma SkippedStarts(x: Input, p: nat)
    requires p <= |x.doc| && SkippedTo(x, p).kind != EndOfStream
    ensures SkippedTo(x, p).start < |x.doc|
  {
    hide TokenAt;
    if x.features.allowComments {
      TokenStarts(x, p);
    } else {
      TokenInside(x.doc, p);
    }
  }

  lemma OpeningFound(d: string, p: nat)
    requires p < |d| && !Blank(d[p])
    ensures TokenAt(d, p).kind == ObjectBegin ==> d[p] == '{' && TokenAt(d, p).end == p + 1
    ensures TokenAt(d, p).kind == ObjectEnd ==> d[p] == '}' && TokenAt(d, p).end == p + 1
    ensures TokenAt(d, p).kind == ArrayBegin ==> d[p] == '[' && TokenAt(d, p).end == p + 1
    ensures TokenAt(d, p).kind == ArrayEnd ==> d[p] == ']' && TokenAt(d, p).end == p + 1
    ensures TokenAt(d, p).kind == ArraySeparator ==> d[p] == ',' && TokenAt(d, p).end == p + 1
    ensures TokenAt(d, p).kind == MemberSeparator ==> d[p] == ':' && TokenAt(d, p).end == p + 1
  {
    BlankIsSpace(d[p]);
  }

  lemma {:induction false} ArrayFound(x: Input, p: nat, depth: nat)
    requires p <= |x.doc| && 0 < depth <= STACK_LIMIT && ArrayAt(x, p, depth).Read?
    ensures var r := ArrayAt(x, p, depth);
            (p < r.next <= |x.doc| && r.value == Array([]) && Blanks(x.doc, p, r.next - 1) &&
             x.doc[r.next - 1] == ']') ||
            ElementText(x, p, r.next, [], 0, r.value, STACK_LIMIT - depth)
    decreases |x.doc| - p, 4
  {
    hide TokenFrom, TokenAt, ElementText, ArrayAt, ElementsAt;
    ArrayStep(x, p, depth);
    SpacesAreBlanks(x.doc, p);
    var s := SkipSpaces(x.doc, p);
    if CharAt(x.doc, s) == ']' {
      PunctuationIs(x.doc, s);
    } else {
      ElementsFound(x, s, depth, [], 0);
      ElementEarlier(x, p, s, ArrayAt(x, p, depth).next, [], 0, ArrayAt(x, p, depth).value, STACK_LIMIT - depth);
    }
  }

  lemma ElementEarlier(x: Input, p: nat, s: nat, q: nat, m: seq<Entry>, index: nat, v: Value, h: nat)
    requires Blanks(x.doc, p, s) && ElementText(x, s, q, m, index, v, h)
    ensures ElementText(x, p, q, m, index, v, h)
  {
    hide Leads, Blanks, ValueText, AfterElement;
    var a: nat, b: nat, w :|
      s <= a < b <= q && Leads(x, s, a) && ValueText(x, a, b, w, h) &&
      AfterElement(x, b, q, Put(m, Index(index), w), index + 1, v, h);
    BlanksThenLeads(x, p, s, a);
    assert p <= s by {
      BlanksInBounds(x.doc, p, s);
    }
  }

  lemma BlanksInBounds(d: string, p: nat, q: nat)
    requires Blanks(d, p, q)
    ensures p <= q <= |d|
  {
  }

  lemma {:induction false} ElementsFound(x: Input, p: nat, depth: nat, m: seq<Entry>, index: nat)
    requires p <= |x.doc| && 0 < depth <= STACK_LIMIT && ElementsAt(x, p, depth, m, index).Read?
    ensures var r := ElementsAt(x, p, depth, m, index);
            ElementText(x, p, r.next, m, index, r.value, STACK_LIMIT - depth)
    decreases |x.doc| - p, 3
  {
    hide TokenFrom, TokenAt, ElementsAt, ValueAt, ValueText, AfterElement, NextToken, Put, Current, Leads;
    var h, k := STACK_LIMIT - depth, Index(index);
    var r, e := ElementsAt(x, p, depth, m, index), ValueAt(x, p, depth, Current(m, k));
    ElementsStep(x, p, depth, m, index, e);
    if e.Read? {
      var a := ValueFound(x, p, depth, Current(m, k));
      RestFound(x, e.next, depth, Put(m, k, e.value), index + 1, r);
      AfterElementInBounds(x, e.next, r.next, Put(m, k, e.value), index + 1, r.value, h);
    }
  }

  lemma AfterElementInBounds(x: Input, p: nat, q: nat, m: seq<Entry>, index: nat, v: Value, h: nat)
    requires AfterElement(x, p, q, m, index, v, h)
    ensures p < q <= |x.doc|
  {
  }

  lemma {:induction false} RestFound(x: Input, p: nat, depth: nat, m: seq<Entry>, index: nat, r: Parsed)
    requires p <= |x.doc| && 0 < depth <= STACK_LIMIT && r.Read?
    requires var t := NextToken(x, p);
             if t.kind == ArrayEnd then r == Read(Array(m), t.end)
             else t.kind == ArraySeparator && r == ElementsAt(x, t.end, depth, m, index)
    ensures AfterElement(x, p, r.next, m, index, r.value, STACK_LIMIT - depth)
    decreases |x.doc| - p, 2
  {
    hide TokenFrom, TokenAt, ElementsAt, NextToken, ElementText, Gap;
    var t := NextToken(x, p);
    GapFound(x, p);
    TokenStarts(x, p);
    GapInBounds(x.doc, p, t.start);
    OpeningFound(x.doc, t.start);
    if t.kind != ArrayEnd {
      ElementsFound(x, t.end, depth, m, index);
    }
  }

  /** Only the end of the stream stands at the end of the document. */
  lemma {:induction false} TokenStarts(x: Input, p: nat)
    requires p <= |x.doc|
    ensures var t := NextToken(x, p); t.kind != EndOfStream ==> t.start < |x.doc|
    decreases |x.doc| - p
  {
    hide TokenFrom;
    NextTokenIs(x, p);
    if TokenAt(x.doc, p).kind == CommentToken {
      TokenStarts(x, TokenAt(x.doc, p).end);
    }
  }

  lemma {:induction false} MembersFound(x: Input, p: nat, depth: nat, m: seq<Entry>, name: string)
    requires p <= |x.doc| && 0 < depth <= STACK_LIMIT && MembersAt(x, p, depth, m, name).Read?
    ensures var r := MembersAt(x, p, depth, m, name);
            MemberText(x, p, r.next, m, name, r.value, STACK_LIMIT - depth)
    decreases |x.doc| - p, 0
  {
    hide TokenFrom, TokenAt, MembersAt, MemberValueAt, NextToken, StringAt, NamedText, Gap;
    var r := MembersAt(x, p, depth, m, name);
    MembersStep(x, p, depth, m, name);
    var t := NextToken(x, p);
    GapFound(x, p);
    TokenStarts(x, p);
    if t.kind == ObjectEnd && name == "" {
      GapInBounds(x.doc, p, t.start);
      OpeningFound(x.doc, t.start);
    } else {
      GapInBounds(x.doc, p, t.start);
      NamedFound(x, t, depth, m, r);
    }
  }

  lemma {:induction false} NamedFound(x: Input, t: Token, depth: nat, m: seq<Entry>, r: Parsed)
    requires t.start < |x.doc| && !Blank(x.doc[t.start]) && t == TokenAt(x.doc, t.start) && t.kind == StringToken
    requires 0 < depth <= STACK_LIMIT && StringAt(x.doc, t).Text?
    requires var colon := TokenAt(x.doc, t.end);
             colon.kind == MemberSeparator &&
             r == MemberValueAt(x, colon.end, depth, m, StringAt(x.doc, t).value) && r.Read?
    ensures NamedText(x, t.start, r.next, m, r.value, STACK_LIMIT - depth)
    decreases |x.doc| - t.end, 3
  {
    hide TokenFrom, TokenAt, MemberValueAt, StringAt, Quoted, MemberValueText;
    var d := x.doc;
    QuotedFound(d, t);
    var c := SkipSpaces(d, t.end);
    SpacesAreBlanks(d, t.end);
    BlanksSkip(d, t.end, c);
    TokenInside(d, t.end);
    OpeningFound(d, c);
    MemberValueFound(x, c + 1, depth, m, StringAt(d, t).value);
  }

  lemma TokenInside(d: string, p: nat)
    requires p <= |d| && TokenAt(d, p).kind != EndOfStream
    ensures TokenAt(d, p).start == SkipSpaces(d, p) < |d|
  {
  }

  lemma QuotedFound(d: string, t: Token)
    requires t.start < |d| && !Blank(d[t.start]) && t == TokenAt(d, t.start) && t.kind == StringToken
    requires StringAt(d, t).Text?
    ensures t.start < t.end && Quoted(d, t.start, t.end, StringAt(d, t).value)
  {
    hide StringFrom, ClosingQuote, Chars;
    BlankIsSpace(d[t.start]);
    var s := CharsFound(d, t, t.start + 1, t.end - 1, "");
    assert "" + s == s;
    QuoteFound(d, t.start + 1);
  }

  lemma {:induction false} MemberValueFound(x: Input, p: nat, depth: nat, m: seq<Entry>, name: string)
    requires p <= |x.doc| && 0 < depth <= STACK_LIMIT && MemberValueAt(x, p, depth, m, name).Read?
    ensures var r := MemberValueAt(x, p, depth, m, name);
            p < r.next && MemberValueText(x, p, r.next, m, name, r.value, STACK_LIMIT - depth)
    decreases |x.doc| - p, 2
  {
    hide TokenFrom, TokenAt, MemberValueAt, MembersAt, ValueAt, ValueText, AfterMember, NextToken, Put, Current, Leads;
    var k := Name(name);
    var r, e := MemberValueAt(x, p, depth, m, name), ValueAt(x, p, depth, Current(m, k));
    MemberValueStep(x, p, depth, m, name, e);
    if e.Read? {
      var a := ValueFound(x, p, depth, Current(m, k));
      AfterMemberFound(x, e.next, depth, Put(m, k, e.value), name, r);
    }
  }

  lemma {:induction false} AfterMemberFound(x: Input, p: nat, depth: nat, m: seq<Entry>, name: string, r: Parsed)
    requires p <= |x.doc| && 0 < depth <= STACK_LIMIT && r.Read?
    requires var comma, next := TokenAt(x.doc, p), NextToken(x, p);
             (comma.kind == ObjectEnd || comma.kind == ArraySeparator || comma.kind == CommentToken) &&
             r == if next.kind == ObjectEnd then Read(Object(m), next.end) else MembersAt(x, next.end, depth, m, name)
    ensures p < r.next <= |x.doc| && AfterMember(x, p, r.next, m, name, r.value, STACK_LIMIT - depth)
    decreases |x.doc| - p, 1
  {
    hide TokenFrom, TokenAt, MembersAt, NextToken, MemberText, Gap, Separator;
    var next := NextToken(x, p);
    NextTokenIs(x, p);
    if next.kind == ObjectEnd {
      GapFound(x, p);
      TokenStarts(x, p);
      GapInBounds(x.doc, p, next.start);
      OpeningFound(x.doc, next.start);
    } else {
      NotAtEnd(x, next.end, depth, m, name);
      SeparatorFound(x, p);
      MembersFound(x, next.end, depth, m, name);
    }
  }

  /** Members that are read do not begin at the end of the document. */
  lemma NotAtEnd(x: Input, p: nat, depth: nat, m: seq<Entry>, name: string)
    requires p <= |x.doc| && MembersAt(x, p, depth, m, name).Read?
    ensures p < |x.doc|
  {
    hide MembersAt;
    MembersStep(x, p, depth, m, name);
  }

  lemma SeparatorFound(x: Input, p: nat)
    requires p <= |x.doc| && TokenAt(x.doc, p).kind in {ArraySeparator, CommentToken}
    requires NextToken(x, p).kind != ObjectEnd && NextToken(x, p).end < |x.doc|
    ensures p < NextToken(x, p).end && Separator(x.doc, p, NextToken(x, p).end)
  {
    hide TokenAt, NextToken, Lexeme, Gap;
    var d, comma, next := x.doc, TokenAt(x.doc, p), NextToken(x, p);
    NextTokenIs(x, p);
    SpacesAreBlanks(d, p);
    var b := SkipSpaces(d, p);
    BlanksSkip(d, p, b);
    if comma.kind == ArraySeparator {
      TokenInside(d, p);
      OpeningFound(d, b);
    } else {
      GapFound(x, p);
      NextInBounds(x, p);
      GapInBounds(d, p, next.start);
      BraceIsEnd(d, next.start);
      TokenIsLexeme(d, next.start);
      if Blanks(d, p, next.start) {
        BlanksSkip(d, p, next.start);
      }
    }
  }

  lemma NextInBounds(x: Input, p: nat)
    requires p <= |x.doc|
    ensures NextToken(x, p).start <= NextToken(x, p).end <= |x.doc|
  {
  }

  lemma BraceIsEnd(d: string, p: nat)
    requires p < |d| && TokenAt(d, p).kind != ObjectEnd
    ensures d[p] != '}'
  {
  }

  // ---- Documents ----

  /** The reader accepts a document exactly when the grammar derives it, and reads the value that is derived. */
  lemma AcceptedExactly(x: Input, prior: Value, v: Value)
    ensures DocumentOf(x, prior) == Finished(true, v, []) <==> Accepts(x, v)
  {
    hide ValueAt, ValueText, Leads;
    if Accepts(x, v) {
      var a: nat, b: nat :| Leads(x, 0, a) && ValueText(x, a, b, v, STACK_LIMIT);
      ValueReads(x, 0, a, b, v, 0, prior);
    }
    if DocumentOf(x, prior) == Finished(true, v, []) {
      var a := ValueFound(x, 0, 0, prior);
    }
  }

  /** For one document at most one value is derived. */
  lemma AcceptedOnce(x: Input, v: Value, w: Value)
    requires Accepts(x, v) && Accepts(x, w)
    ensures v == w
  {
    AcceptedExactly(x, Null, v);
    AcceptedExactly(x, Null, w);
  }

  predicate Begins(c: char) {
    c in "{[\"-tfn/" || IsDigit(c)
  }

  /**
   * A document that ends where its value should begin, or has a character there that begins none, is refused. The
   * error stands there, and nothing is read.
   */
  lemma RefusedAtOnce(x: Input, prior: Value, a: nat)
    requires Leads(x, 0, a) && a <= |x.doc| && (a < |x.doc| ==> !Blank(x.doc[a]) && !Begins(x.doc[a]))
    ensures var t := TokenAt(x.doc, a);
            t.start == a && DocumentOf(x, prior) ==
            Finished(false, prior, [ErrorInfo(t, SYNTAX_ERROR, None)] + RootErrors(x, prior))
  {
    hide ValueAt, Gap, TokenAt, Blank, Begins, MembersAt, ArrayAt, ScalarAt, NextToken;
    NoValueToken(x.doc, a);
    NoScalar(x, TokenAt(x.doc, a), prior);
    NextTokenIs(x, a);
    if x.features.allowComments {
      GapSkips(x, 0, a);
    } else {
      BlanksSkip(x.doc, 0, a);
    }
    ValueStep(x, 0, 0, prior);
  }

  lemma NoScalar(x: Input, t: Token, prior: Value)
    requires t.start <= t.end <= |x.doc|
    requires t.kind in {ObjectEnd, ArrayEnd, ArraySeparator, MemberSeparator, EndOfStream, ErrorToken}
    ensures ScalarAt(x, t, prior) == Failed(prior, t.end, ErrorInfo(t, SYNTAX_ERROR, None), 1)
  {
  }

  lemma NoValueToken(d: string, p: nat)
    requires p <= |d| && (p < |d| ==> !Blank(d[p]) && !Begins(d[p]))
    ensures TokenAt(d, p).start == p
    ensures TokenAt(d, p).kind in
              {ObjectEnd, ArrayEnd, ArraySeparator, MemberSeparator, EndOfStream, ErrorToken}
  {
    assert "{[\"-tfn/" == ['{', '[', '"', '-', 't', 'f', 'n', '/'];
    if p < |d| {
      BlankIsSpace(d[p]);
    }
  }
}
