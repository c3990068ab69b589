/** What is reported when a document is refused: one error about a token of it, and perhaps one about the root. */
module JsonRefusal {
  import opened JsonValue
  import opened JsonUtf8
  import opened JsonScan
  import opened JsonString
  import opened JsonGrammar

  /** What is said of a string that cannot be decoded. */
  const STRING_COMPLAINTS := [
    "Bad unicode escape sequence in string: four digits expected.",
    "Bad unicode escape sequence in string: hexadecimal digit expected.",
    "additional six characters expected to parse unicode surrogate pair.",
    "expecting another \\u token to begin the second half of a unicode surrogate pair",
    "Empty escape sequence in string",
    "Bad escape sequence in string"
  ]

  /** What is said of a token that is out of place. */
  const PLACE_COMPLAINTS := [
    "Missing '}' or object member name",
    "Missing ':' after object member name",
    "Missing ',' or '}' in object declaration",
    "Missing ',' or ']' in array declaration"
  ]

  lemma Distinct()
    ensures forall j, k :: 0 <= j < k < 6 ==> STRING_COMPLAINTS[j] != STRING_COMPLAINTS[k]
  {
    assert |STRING_COMPLAINTS[0]| == 60 && |STRING_COMPLAINTS[1]| == 66 && |STRING_COMPLAINTS[2]| == 67;
    assert |STRING_COMPLAINTS[3]| == 79 && |STRING_COMPLAINTS[4]| == 31 && |STRING_COMPLAINTS[5]| == 29;
  }

  predicate TokenInDocument(d: string, t: Token) {
    t.start <= t.end <= |d|
  }

  /**
   * The place `x` in the string token `t` that a complaint is about: where too few characters are left before the
   * closing quote, or behind the character that is wrong.
   */
  predicate PlaceOf(d: string, t: Token, message: string, x: nat)
    requires t.start + 2 <= x < t.end <= |d|
  {
    if message == STRING_COMPLAINTS[0] then t.end - 1 - x < 4
    else if message == STRING_COMPLAINTS[1] then HexValue(d[x - 1]).None?
    else if message == STRING_COMPLAINTS[2] then t.end - 1 - x < 6
    else if message == STRING_COMPLAINTS[3] then if d[x - 2] == '\\' then d[x - 1] != 'u' else d[x - 1] != '\\'
    else if message == STRING_COMPLAINTS[4] then x == t.end - 1
    else message == STRING_COMPLAINTS[5] && d[x - 2] == '\\' && d[x - 1] != 'u' && Unescaped(d[x - 1]).None?
  }

  /** The error is about a string token and a place in it. */
  predicate StringError(d: string, t: Token, e: ErrorInfo) {
    e.token == t && t.end <= |d| && e.extra.Some? && t.start + 2 <= e.extra.value < t.end &&
    PlaceOf(d, t, e.message, e.extra.value)
  }

  /**
   * The error of a refused document, and by how much it leaves the depth counter too high: by one when a value was
   * expected and something else was found, and not at all otherwise.
   */
  predicate ErrorIs(d: string, e: ErrorInfo, leak: nat) {
    TokenInDocument(d, e.token) &&
    if leak == 0 then
      (e.message in PLACE_COMPLAINTS && e.extra.None?) ||
      (e.message == "'" + d[e.token.start..e.token.end] + "' is not a number." && e.token.kind == NumberToken
       && e.extra.None?) ||
      (e.token.kind == StringToken && StringError(d, e.token, e))
    else
      leak == 1 && e.message == "Syntax error: value, object or array expected." && e.extra.None? &&
      e.token.kind !in {NumberToken, StringToken, TrueToken, FalseToken, NullToken, ObjectBegin, ArrayBegin}
  }

  // ---- Strings ----

  lemma {:induction false} HexDigitsError(d: string, t: Token, p: nat, count: nat, acc: nat)
    requires p + count <= |d|
    ensures var r := HexDigits(d, t, p, count, acc);
            r.BadCode? ==>
              r.error.token == t && r.error.message == STRING_COMPLAINTS[1] && r.error.extra.Some? &&
              p < r.error.extra.value <= p + count && HexValue(d[r.error.extra.value - 1]).None?
    decreases count
  {
    if count > 0 && HexValue(d[p]).Some? {
      HexDigitsError(d, t, p + 1, count - 1, acc * 16 + HexValue(d[p]).value);
    }
  }

  lemma {:induction false} LastIsHex(d: string, t: Token, p: nat, count: nat, acc: nat)
    requires 0 < count && p + count <= |d| && HexDigits(d, t, p, count, acc).Code?
    ensures HexValue(d[p + count - 1]).Some?
    decreases count
  {
    if count > 1 {
      LastIsHex(d, t, p + 1, count - 1, acc * 16 + HexValue(d[p]).value);
    }
  }

  lemma HexIsNoBackslash()
    ensures HexValue('\\').None?
  {
  }

  lemma CodePointError(d: string, t: Token, p: nat, end: nat)
    requires t.start + 2 <= p <= end == t.end - 1 < |d|
    ensures var r := CodePointAt(d, t, p, end); r.BadCode? ==> StringError(d, t, r.error)
  {
    hide HexDigits, HexValue, Unescaped;
    HexIsNoBackslash();
    UnitError(d, t, p, end);
    if EscapeSequenceAt(d, t, p, end).Code? {
      var q := EscapeSequenceAt(d, t, p, end).next;
      LastIsHex(d, t, p, 4, 0);
      Distinct();
      if end - q >= 6 {
        UnitError(d, t, q + 2, end);
      }
      assert STRING_COMPLAINTS[2] == SIX_CHARACTERS && STRING_COMPLAINTS[3] == ANOTHER_ESCAPE;
    }
  }

  lemma UnitError(d: string, t: Token, p: nat, end: nat)
    requires t.start + 2 <= p <= end == t.end - 1 < |d|
    ensures var r := EscapeSequenceAt(d, t, p, end); r.BadCode? ==> StringError(d, t, r.error)
  {
    hide HexDigits;
    assert STRING_COMPLAINTS[0] == FOUR_DIGITS;
    if end - p >= 4 {
      HexDigitsError(d, t, p, 4, 0);
    }
  }

  lemma {:induction false} StringFromError(d: string, t: Token, p: nat, end: nat, acc: string)
    requires t.start + 1 <= p <= end == t.end - 1 < |d|
    ensures var r := StringFrom(d, t, p, end, acc); r.BadText? ==> StringError(d, t, r.error)
    decreases end - p
  {
    hide CodePointAt, CodePointToUTF8, Unescaped;
    assert STRING_COMPLAINTS[4] == EMPTY_ESCAPE && STRING_COMPLAINTS[5] == BAD_ESCAPE;
    if p < end && d[p] != '"' {
      if d[p] != '\\' {
        StringFromError(d, t, p + 1, end, acc + [d[p]]);
      } else if p + 1 < end && d[p + 1] == 'u' {
        CodePointError(d, t, p + 2, end);
        match CodePointAt(d, t, p + 2, end)
        case BadCode(_) =>
        case Code(cp, q) => StringFromError(d, t, q, end, acc + CodePointToUTF8(cp));
      } else if p + 1 < end && Unescaped(d[p + 1]).Some? {
        StringFromError(d, t, p + 2, end, acc + [Unescaped(d[p + 1]).value]);
      }
    }
  }

  // ---- Values ----

  predicate Refused(d: string, r: Parsed) {
    r.Failed? ==> ErrorIs(d, r.error, r.leak)
  }

  lemma ScalarError(x: Input, t: Token, prior: Value)
    requires t.start <= t.end <= |x.doc| && (t.kind == StringToken ==> t.start + 2 <= t.end)
    requires t.kind !in {ObjectBegin, ArrayBegin}
    ensures Refused(x.doc, ScalarAt(x, t, prior))
  {
    hide StringFrom, NumberOf;
    if t.kind == StringToken {
      StringFromError(x.doc, t, t.start + 1, t.end - 1, "");
    }
  }

  lemma PlaceError(d: string, t: Token, k: nat)
    requires TokenInDocument(d, t) && k < 4
    ensures ErrorIs(d, ErrorInfo(t, PLACE_COMPLAINTS[k], None), 0)
  {
  }

  /** Every error of the reader is one of these, and about the token where it was found. */
  lemma {:induction false} ValueError(x: Input, p: nat, depth: nat, prior: Value)
    requires p <= |x.doc|
    ensures Refused(x.doc, ValueAt(x, p, depth, prior))
    decreases |x.doc| - p, 1
  {
    hide ValueAt, MembersAt, ArrayAt, ScalarAt, Refused, SkippedTo;
    ValueStep(x, p, depth, prior);
    if depth < STACK_LIMIT {
      var t := SkippedTo(x, p);
      if t.kind == ObjectBegin {
        MembersError(x, t.end, depth + 1, [], "");
      } else if t.kind == ArrayBegin {
        ArrayError(x, t.end, depth + 1);
      } else {
        ScalarError(x, t, prior);
      }
    } else {
      NothingRefused(x.doc);
    }
  }

  lemma NothingRefused(d: string)
    ensures Refused(d, Overflow) && forall v, q :: Refused(d, Read(v, q))
  {
  }

  lemma AbandonError(x: Input, v: Value, p: nat, e: ErrorInfo, leak: nat, closing: TokenType)
    requires p <= |x.doc| && ErrorIs(x.doc, e, leak)
    ensures Refused(x.doc, Abandon(x, v, p, e, leak, closing))
  {
  }

  lemma {:induction false} MembersError(x: Input, p: nat, depth: nat, m: seq<Entry>, name: string)
    requires p <= |x.doc|
    ensures Refused(x.doc, MembersAt(x, p, depth, m, name))
    decreases |x.doc| - p, 0
  {
    hide MembersAt, MemberValueAt, NextToken, TokenAt, StringAt, Abandon, Refused, ErrorIs, Recovered;
    MembersStep(x, p, depth, m, name);
    NothingRefused(x.doc);
    var t := NextToken(x, p);
    PlaceError(x.doc, t, 0);
    if t.kind != StringToken {
      AbandonError(x, Object(m), t.end, ErrorInfo(t, MISSING_NAME, None), 0, ObjectEnd);
    } else {
      match StringAt(x.doc, t)
      case BadText(e) =>
        NameError(x, t);
        AbandonError(x, Object(m), t.end, e, 0, ObjectEnd);
      case Text(newName) =>
        var colon := TokenAt(x.doc, t.end);
        PlaceError(x.doc, colon, 1);
        if colon.kind != MemberSeparator {
          AbandonError(x, Object(m), colon.end, ErrorInfo(colon, MISSING_COLON, None), 0, ObjectEnd);
        } else {
          MemberValueError(x, colon.end, depth, m, newName);
        }
    }
  }

  lemma NameError(x: Input, t: Token)
    requires t.start + 2 <= t.end <= |x.doc| && t.kind == StringToken && StringAt(x.doc, t).BadText?
    ensures ErrorIs(x.doc, StringAt(x.doc, t).error, 0)
  {
    hide StringFrom;
    StringFromError(x.doc, t, t.start + 1, t.end - 1, "");
  }

  lemma {:induction false} MemberValueError(x: Input, p: nat, depth: nat, m: seq<Entry>, name: string)
    requires p <= |x.doc|
    ensures Refused(x.doc, MemberValueAt(x, p, depth, m, name))
    decreases |x.doc| - p, 2
  {
    hide ValueAt, MembersAt, MemberValueAt, NextToken, TokenAt, Abandon, ErrorIs, Recovered, Put, Current;
    var k := Name(name);
    var r := ValueAt(x, p, depth, Current(m, k));
    MemberValueStep(x, p, depth, m, name, r);
    ValueError(x, p, depth, Current(m, k));
    match r
    case Overflow =>
    case Failed(v, q, e, leak) => AbandonError(x, Object(Put(m, k, v)), q, e, leak, ObjectEnd);
    case Read(v, q) =>
      var comma, next := TokenAt(x.doc, q), NextToken(x, q);
      PlaceError(x.doc, comma, 2);
      if comma.kind != ObjectEnd && comma.kind != ArraySeparator && comma.kind != CommentToken {
        AbandonError(x, Object(Put(m, k, v)), comma.end, ErrorInfo(comma, MISSING_COMMA_IN_OBJECT, None), 0, ObjectEnd);
      } else if next.kind != ObjectEnd {
        MembersError(x, next.end, depth, Put(m, k, v), name);
      }
  }

  lemma {:induction false} ArrayError(x: Input, p: nat, depth: nat)
    requires p <= |x.doc|
    ensures Refused(x.doc, ArrayAt(x, p, depth))
    decreases |x.doc| - p, 3
  {
    hide ArrayAt, ElementsAt, SkipSpaces;
    ArrayStep(x, p, depth);
    ElementsError(x, SkipSpaces(x.doc, p), depth, [], 0);
  }

  lemma {:induction false} ElementsError(x: Input, p: nat, depth: nat, m: seq<Entry>, index: nat)
    requires p <= |x.doc|
    ensures Refused(x.doc, ElementsAt(x, p, depth, m, index))
    decreases |x.doc| - p, 2
  {
    hide ValueAt, ElementsAt, NextToken, Abandon, ErrorIs, Recovered, Put, Current;
    var k := Index(index);
    var r := ValueAt(x, p, depth, Current(m, k));
    ElementsStep(x, p, depth, m, index, r);
    ValueError(x, p, depth, Current(m, k));
    match r
    case Overflow =>
    case Failed(v, q, e, leak) => AbandonError(x, Array(Put(m, k, v)), q, e, leak, ArrayEnd);
    case Read(v, q) =>
      var t := NextToken(x, q);
      PlaceError(x.doc, t, 3);
      if t.kind != ArrayEnd && t.kind != ArraySeparator {
        AbandonError(x, Array(Put(m, k, v)), t.end, ErrorInfo(t, MISSING_COMMA_IN_ARRAY, None), 0, ArrayEnd);
      } else if t.kind == ArraySeparator {
        ElementsError(x, t.end, depth, Put(m, k, v), index + 1);
      }
  }

  /**
   * A document that is refused has one error, and a second one, about the whole document, when the reader is strict and
   * the root is no container; nothing else is the matter when that is the only one.
   */
  lemma RefusedWithOneError(x: Input, prior: Value)
    requires DocumentOf(x, prior).Finished? && !DocumentOf(x, prior).ok
    ensures var (root, errors) := (DocumentOf(x, prior).root, DocumentOf(x, prior).errors);
            var badRoot := x.features.strictRoot && !root.Array? && !root.Object?;
            var rootError := ErrorInfo(Token(ErrorToken, 0, |x.doc|),
                                       "A valid JSON document must be either an array or an object value.", None);
            (errors == [rootError] && badRoot) ||
            exists e, leak :: ErrorIs(x.doc, e, leak) && errors == if badRoot then [e, rootError] else [e]
  {
    hide ValueAt, ErrorIs;
    ValueError(x, 0, 0, prior);
    var r := ValueAt(x, 0, 0, prior);
    if r.Failed? {
      assert ErrorIs(x.doc, r.error, r.leak);
    }
  }
}
