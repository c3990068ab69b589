/**
 * JSON texts as the reader sees them: a syntax tree, its lexemes, and the layouts that spread white space between
 * them. The theorem is that the reader gives every layout of a tree the meaning of the tree.
 */
module JsonLayout {
  import opened JsonValue
  import opened JsonNumber
  import opened JsonScan
  import opened JsonString
  import opened JsonGrammar

  /** A syntax tree. Fields keep their order, and may repeat a name. */
  datatype Doc =
    | Scalar(v: Value)
    | List(items: seq<Doc>)
    | Dict(fields: seq<Field>)

  datatype Field = Field(name: string, doc: Doc)

  /** A scalar other than a double, within the 64-bit ranges. */
  predicate IsScalarValue(v: Value) {
    match v
    case Null => true
    case Bool(_) => true
    case Str(_) => true
    case Int(i) => MIN_INT64 <= i <= MAX_INT64
    case UInt(u) => 0 <= u <= MAX_UINT64
    case _ => false
  }

  predicate Good(doc: Doc) {
    match doc
    case Scalar(v) => IsScalarValue(v)
    case List(items) => forall i :: 0 <= i < |items| ==> Good(items[i])
    case Dict(fields) => forall i :: 0 <= i < |fields| ==> Good(fields[i].doc)
  }

  // ---- Lexemes ----

  function ScalarText(v: Value): string {
    match v
    case Null => "null"
    case Bool(b) => if b then "true" else "false"
    case Str(s) => Quote(s)
    case Int(i) => IntText(i)
    case UInt(u) => IntText(u)
    case _ => ""
  }

  function Lexemes(doc: Doc): seq<string>
    decreases doc, 1
  {
    match doc
    case Scalar(v) => [ScalarText(v)]
    case List(items) => ["["] + ItemLexemes(items) + ["]"]
    case Dict(fields) => ["{"] + MemberLexemes(fields) + ["}"]
  }

  function ItemLexemes(items: seq<Doc>): seq<string>
    decreases items, 3
  {
    if items == [] then [] else Lexemes(items[0]) + MoreItems(items[1..])
  }

  function MoreItems(items: seq<Doc>): seq<string>
    decreases items, 2
  {
    if items == [] then [] else [","] + Lexemes(items[0]) + MoreItems(items[1..])
  }

  function FieldLexemes(f: Field): seq<string>
    decreases f, 2
  {
    [Quote(f.name), ":"] + Lexemes(f.doc)
  }

  function MemberLexemes(fields: seq<Field>): seq<string>
    decreases fields, 3
  {
    if fields == [] then [] else FieldLexemes(fields[0]) + MoreFields(fields[1..])
  }

  function MoreFields(fields: seq<Field>): seq<string>
    decreases fields, 2
  {
    if fields == [] then [] else [","] + FieldLexemes(fields[0]) + MoreFields(fields[1..])
  }

  lemma MoreAfterComma(items: seq<Doc>, fields: seq<Field>)
    ensures items != [] ==> MoreItems(items) == [","] + ItemLexemes(items)
    ensures fields != [] ==> MoreFields(fields) == [","] + MemberLexemes(fields)
  {
  }

  // ---- Meaning ----

  /** Integers come back tagged by their size. */
  function Retagged(v: Value): Value {
    match v
    case Int(i) => Tagged(i)
    case UInt(u) => Tagged(u)
    case _ => v
  }

  /** The value a syntax tree denotes; of fields with one name the last one counts. */
  function Meaning(doc: Doc): Value {
    match doc
    case Scalar(v) => Retagged(v)
    case List(items) => Array(WithItems([], 0, items))
    case Dict(fields) => Object(WithFields([], fields))
  }

  function WithItems(m: seq<Entry>, index: nat, items: seq<Doc>): seq<Entry>
    decreases items
  {
    if items == [] then m else WithItems(Put(m, Index(index), Meaning(items[0])), index + 1, items[1..])
  }

  function WithFields(m: seq<Entry>, fields: seq<Field>): seq<Entry>
    decreases fields
  {
    if fields == [] then m
    else
      assert fields[0].doc < fields[0];
      WithFields(Put(m, Name(fields[0].name), Meaning(fields[0].doc)), fields[1..])
  }

  /** How many values are open at once while the tree is read. */
  function Height(doc: Doc): (h: nat)
    ensures h > 0
  {
    match doc
    case Scalar(_) => 1
    case List(items) => 1 + ItemsHeight(items)
    case Dict(fields) => 1 + FieldsHeight(fields)
  }

  function Max(a: nat, b: nat): nat {
    if a < b then b else a
  }

  function ItemsHeight(items: seq<Doc>): nat {
    if items == [] then 0 else Max(Height(items[0]), ItemsHeight(items[1..]))
  }

  function FieldsHeight(fields: seq<Field>): nat {
    if fields == [] then 0
    else
      assert fields[0].doc < fields[0];
      Max(Height(fields[0].doc), FieldsHeight(fields[1..]))
  }

  // ---- Layouts ----

  /** A character that ends a number. */
  predicate StopsNumber(c: char) {
    !IsDigit(c) && c != '.' && c != 'e' && c != 'E'
  }

  predicate EndsInDigit(lexeme: string) {
    lexeme != [] && IsDigit(lexeme[|lexeme| - 1])
  }

  /** From `p` to `q` the document spells the lexemes, each after any white space. */
  ghost predicate Spells(d: string, p: nat, lexemes: seq<string>, q: nat)
    decreases |lexemes|
  {
    p <= |d| &&
    if lexemes == [] then p == q
    else
      var e := SkipSpaces(d, p) + |lexemes[0]|;
      Matches(d, SkipSpaces(d, p), lexemes[0]) &&
      (EndsInDigit(lexemes[0]) && e < |d| ==> StopsNumber(d[e])) &&
      Spells(d, e, lexemes[1..], q)
  }

  /** A layout of two runs of lexemes splits between them. */
  lemma {:induction false} SpellsSplit(d: string, p: nat, a: seq<string>, b: seq<string>, q: nat) returns (m: nat)
    requires Spells(d, p, a + b, q)
    ensures Spells(d, p, a, m) && Spells(d, m, b, q) && p <= m <= |d|
    decreases |a|
  {
    if a == [] {
      assert a + b == b;
      m := p;
    } else {
      assert (a + b)[1..] == a[1..] + b;
      m := SpellsSplit(d, SkipSpaces(d, p) + |a[0]|, a[1..], b, q);
    }
  }

  // ---- The reader on one lexeme ----

  lemma SkipTwice(d: string, p: nat)
    requires p <= |d|
    ensures TokenAt(d, SkipSpaces(d, p)) == TokenAt(d, p)
  {
  }

  function PunctuationKind(c: char): TokenType {
    if c == '{' then ObjectBegin
    else if c == '}' then ObjectEnd
    else if c == '[' then ArrayBegin
    else if c == ']' then ArrayEnd
    else if c == ',' then ArraySeparator
    else if c == ':' then MemberSeparator
    else ErrorToken
  }

  lemma PunctuationRead(x: Input, p: nat, c: char, q: nat)
    requires c in ['{', '}', '[', ']', ',', ':'] && Spells(x.doc, p, [[c]], q)
    ensures q <= |x.doc| && TokenAt(x.doc, p) == Token(PunctuationKind(c), SkipSpaces(x.doc, p), q)
    ensures NextToken(x, p) == SkippedTo(x, p) == TokenAt(x.doc, p)
    ensures CharAt(x.doc, SkipSpaces(x.doc, p)) == c
  {
    var s := SkipSpaces(x.doc, p);
    assert x.doc[s + 0] == [c][0];
  }

  lemma StringRead(x: Input, p: nat, text: string, q: nat)
    requires Spells(x.doc, p, [Quote(text)], q)
    ensures q <= |x.doc| && TokenAt(x.doc, p) == Token(StringToken, SkipSpaces(x.doc, p), q)
    ensures NextToken(x, p) == SkippedTo(x, p) == TokenAt(x.doc, p)
    ensures StringAt(x.doc, TokenAt(x.doc, p)) == Text(text)
  {
    QuotedStringReadsBack(x.doc, SkipSpaces(x.doc, p), text);
    SkipTwice(x.doc, p);
  }

  /** What follows the first letter of a literal, and the kind of its token. */
  function Literal(c: char): (string, TokenType) {
    if c == 'n' then ("ull", NullToken) else if c == 't' then ("rue", TrueToken) else ("alse", FalseToken)
  }

  lemma WordRead(x: Input, p: nat, c: char, q: nat)
    requires c == 'n' || c == 't' || c == 'f'
    requires Spells(x.doc, p, [[c] + Literal(c).0], q)
    ensures q <= |x.doc| && TokenAt(x.doc, p) == Token(Literal(c).1, SkipSpaces(x.doc, p), q)
    ensures SkippedTo(x, p) == TokenAt(x.doc, p)
  {
    hide NumberEnd, Found, CommentScan, ClosingQuote, SkipSpaces;
    var s := SkipSpaces(x.doc, p);
    MatchesSplit(x.doc, s, [c], Literal(c).0);
    assert x.doc[s + 0] == [c][0];
    assert WordScan(x.doc, s + 1, Literal(c).0) == Scan(true, q);
  }

  lemma {:induction false} DigitsRun(d: string, p: nat, q: nat)
    requires p <= q <= |d| && (forall i :: p <= i < q ==> IsDigit(d[i]))
    requires q < |d| ==> !IsDigit(d[q])
    ensures SkipDigits(d, p) == q
    decreases q - p
  {
    if p < q {
      DigitsRun(d, p + 1, q);
    }
  }

  lemma IntTextShape(i: int)
    ensures IntText(i) != [] && EndsInDigit(IntText(i))
    ensures IntText(i)[0] == '-' || IsDigit(IntText(i)[0])
    ensures forall k :: 1 <= k < |IntText(i)| ==> IsDigit(IntText(i)[k])
  {
    var s := NatText(if i < 0 then -i else i);
    assert i < 0 ==> forall k :: 1 <= k < |IntText(i)| ==> IntText(i)[k] == s[k - 1];
  }

  lemma NumberEndsAt(d: string, p: nat, q: nat)
    requires p <= q <= |d| && SkipDigits(d, p) == q && (q < |d| ==> StopsNumber(d[q]))
    ensures NumberEnd(d, p) == q
  {
  }

  lemma NumberRead(x: Input, p: nat, i: int, q: nat)
    requires MIN_INT64 <= i <= MAX_UINT64 && Spells(x.doc, p, [IntText(i)], q)
    ensures q <= |x.doc| && TokenAt(x.doc, p) == Token(NumberToken, SkipSpaces(x.doc, p), q)
    ensures SkippedTo(x, p) == TokenAt(x.doc, p)
    ensures NumberOf(x, TokenAt(x.doc, p)) == Some(Tagged(i))
  {
    hide IntText, NatText, DecodedInteger, Tagged, SkipDigits, NumberEnd, Found, CommentScan, ClosingQuote, WordScan;
    var d, s, w := x.doc, SkipSpaces(x.doc, p), IntText(i);
    IntTextShape(i);
    assert d[s + 0] == w[0];
    forall k | s + 1 <= k < q
      ensures IsDigit(d[k])
    {
      assert d[s + (k - s)] == w[k - s];
    }
    DigitsRun(d, s + 1, q);
    NumberEndsAt(d, s + 1, q);
    assert TokenText(x, Token(NumberToken, s, q)) == w;
    DecodeUndoesPrint(i);
    SkipTwice(d, p);
  }

  lemma ScalarRead(x: Input, p: nat, v: Value, q: nat, depth: nat, prior: Value)
    requires IsScalarValue(v) && depth < STACK_LIMIT && Spells(x.doc, p, [ScalarText(v)], q)
    ensures ValueAt(x, p, depth, prior) == Read(Retagged(v), q)
  {
    hide IntText, Quote, TokenAt, NumberOf, StringAt;
    match v
    case Null =>
      assert "null" == ['n'] + Literal('n').0;
      WordRead(x, p, 'n', q);
    case Bool(b) =>
      assert "true" == ['t'] + Literal('t').0 && "false" == ['f'] + Literal('f').0;
      WordRead(x, p, if b then 't' else 'f', q);
    case Str(s) => StringRead(x, p, s, q);
    case Int(i) => NumberRead(x, p, i, q);
    case UInt(u) => NumberRead(x, p, u, q);
  }

  // ---- The reader on a whole tree ----

  lemma SpellsAfterSpaces(d: string, p: nat, lexemes: seq<string>, q: nat)
    requires lexemes != [] && Spells(d, p, lexemes, q)
    ensures Spells(d, SkipSpaces(d, p), lexemes, q)
  {
  }

  lemma LexemesStart(doc: Doc)
    requires Good(doc)
    ensures Lexemes(doc) != [] && Lexemes(doc)[0] != [] && Lexemes(doc)[0][0] != ']'
  {
    if doc.Scalar? && (doc.v.Int? || doc.v.UInt?) {
      IntTextShape(if doc.v.Int? then doc.v.i else doc.v.u);
    }
  }

  /**
   * The reader gives every layout of a syntax tree its meaning and stops right after it, unless the tree is so high
   * that it passes the stack limit; then it throws. Neither the features nor the old content of the node matter.
   */
  lemma {:induction false} ReadsDoc(x: Input, p: nat, doc: Doc, q: nat, depth: nat, prior: Value)
    requires Good(doc) && Spells(x.doc, p, Lexemes(doc), q)
    ensures ValueAt(x, p, depth, prior) ==
            if depth + Height(doc) <= STACK_LIMIT then Read(Meaning(doc), q) else Overflow
    decreases doc, 1
  {
    if depth >= STACK_LIMIT {
    } else {
      match doc
      case Scalar(v) => ScalarRead(x, p, v, q, depth, prior);
      case List(items) => ReadsList(x, p, items, q, depth, prior);
      case Dict(fields) => ReadsDict(x, p, fields, q, depth, prior);
    }
  }

  lemma {:induction false} ReadsList(x: Input, p: nat, items: seq<Doc>, q: nat, depth: nat, prior: Value)
    requires Good(List(items)) && p <= |x.doc| && depth < STACK_LIMIT
    requires Spells(x.doc, p, Lexemes(List(items)), q)
    ensures ValueAt(x, p, depth, prior) ==
            if depth + Height(List(items)) <= STACK_LIMIT then Read(Meaning(List(items)), q) else Overflow
    decreases items, 2
  {
    hide ValueAt, ElementsAt, ArrayAt, Spells, NextToken, SkippedTo, TokenAt, SkipSpaces, Lexemes, MoreItems, WithItems,
      ItemsHeight, ScalarAt, Abandon, NumberOf, StringAt, CharAt, Matches, Recovered, IsScalarValue, ScalarText, Quote,
      MembersAt, MemberValueAt;
    var d := x.doc;
    ValueStep(x, p, depth, prior);
    ListLexemes(items);
    var inner := Lexemes(List(items))[1..];
    var m := SpellsSplit(d, p, ["["], inner, q);
    PunctuationRead(x, p, '[', m);
    ArrayStep(x, m, depth + 1);
    if items == [] {
      PunctuationRead(x, m, ']', q);
      SkipTwice(d, m);
    } else {
      LexemesStart(items[0]);
      FirstCharacter(d, m, inner, q);
      SpellsAfterSpaces(d, m, inner, q);
      ReadsItems(x, SkipSpaces(d, m), items, q, depth + 1, [], 0);
    }
  }

  lemma ListLexemes(items: seq<Doc>)
    requires Good(List(items))
    ensures var inner := Lexemes(List(items))[1..];
            Lexemes(List(items)) == ["["] + inner &&
            inner == if items == [] then ["]"] else Lexemes(items[0]) + MoreItems(items[1..]) + ["]"]
    ensures items != [] ==> Lexemes(items[0]) != [] && Lexemes(List(items))[1] == Lexemes(items[0])[0]
    ensures items == [] ==> Height(List(items)) == 1 && Meaning(List(items)) == Array([])
  {
    if items != [] {
      LexemesStart(items[0]);
    }
  }

  lemma MoreItemsStep(items: seq<Doc>)
    ensures MoreItems(items) + ["]"] ==
            if items == [] then ["]"] else [","] + (Lexemes(items[0]) + MoreItems(items[1..]) + ["]"])
  {
  }

  lemma MoreFieldsStep(fields: seq<Field>)
    ensures MoreFields(fields) + ["}"] ==
            if fields == [] then ["}"] else [","] + (FieldLexemes(fields[0]) + MoreFields(fields[1..]) + ["}"])
  {
  }

  lemma DictLexemes(fields: seq<Field>)
    ensures var inner := Lexemes(Dict(fields))[1..];
            Lexemes(Dict(fields)) == ["{"] + inner &&
            inner == if fields == [] then ["}"] else FieldLexemes(fields[0]) + MoreFields(fields[1..]) + ["}"]
    ensures Height(Dict(fields)) == 1 + FieldsHeight(fields) && Meaning(Dict(fields)) == Object(WithFields([], fields))
    ensures fields == [] ==> Height(Dict(fields)) == 1 && Meaning(Dict(fields)) == Object([])
  {
  }

  lemma FirstCharacter(d: string, p: nat, lexemes: seq<string>, q: nat)
    requires lexemes != [] && lexemes[0] != [] && Spells(d, p, lexemes, q)
    ensures CharAt(d, SkipSpaces(d, p)) == lexemes[0][0]
  {
    assert d[SkipSpaces(d, p) + 0] == lexemes[0][0];
  }

  lemma FirstItem(m: seq<Entry>, index: nat, items: seq<Doc>)
    requires items != [] && Good(List(items))
    ensures Good(items[0]) && Good(List(items[1..]))
    ensures ItemsHeight(items) == Max(Height(items[0]), ItemsHeight(items[1..]))
    ensures var n := Put(m, Index(index), Meaning(items[0]));
            WithItems(m, index, items) == WithItems(n, index + 1, items[1..]) &&
            (items[1..] == [] ==> ItemsHeight(items) == Height(items[0]) && WithItems(m, index, items) == n)
  {
  }

  lemma Regroup(a: seq<string>, b: seq<string>, c: seq<string>)
    ensures a + b + c == a + (b + c)
  {
  }

  lemma {:induction false} ReadsItems(
    x: Input, p: nat, items: seq<Doc>, q: nat, depth: nat, m: seq<Entry>, index: nat)
    requires items != [] && Good(List(items)) && p <= |x.doc|
    requires Spells(x.doc, p, Lexemes(items[0]) + MoreItems(items[1..]) + ["]"], q)
    ensures ElementsAt(x, p, depth, m, index) ==
            if depth + ItemsHeight(items) <= STACK_LIMIT then Read(Array(WithItems(m, index, items)), q) else Overflow
    decreases items, 1
  {
    hide ValueAt, ElementsAt, Spells, NextToken, SkippedTo, TokenAt, SkipSpaces, Lexemes, MoreItems, Put, Current, Good,
      Height, ItemsHeight, WithItems, Meaning, ScalarAt, Abandon, NumberOf, StringAt, CharAt, Matches, Recovered,
      IsScalarValue, ScalarText, Quote, ArrayAt, MembersAt, MemberValueAt;
    var d, first, rest := x.doc, items[0], items[1..];
    MoreItemsStep(rest);
    FirstItem(m, index, items);
    Regroup(Lexemes(first), MoreItems(rest), ["]"]);
    var e := SpellsSplit(d, p, Lexemes(first), MoreItems(rest) + ["]"], q);
    ReadsDoc(x, p, first, e, depth, Current(m, Index(index)));
    ElementsStep(x, p, depth, m, index, ValueAt(x, p, depth, Current(m, Index(index))));
    if depth + Height(first) <= STACK_LIMIT {
      if rest == [] {
        PunctuationRead(x, e, ']', q);
      } else {
        var tail := Lexemes(rest[0]) + MoreItems(rest[1..]) + ["]"];
        var n := SpellsSplit(d, e, [","], tail, q);
        PunctuationRead(x, e, ',', n);
        ReadsItems(x, n, rest, q, depth, Put(m, Index(index), Meaning(first)), index + 1);
      }
    }
  }

  lemma {:induction false} ReadsDict(x: Input, p: nat, fields: seq<Field>, q: nat, depth: nat, prior: Value)
    requires Good(Dict(fields)) && p <= |x.doc| && depth < STACK_LIMIT
    requires Spells(x.doc, p, Lexemes(Dict(fields)), q)
    ensures ValueAt(x, p, depth, prior) ==
            if depth + Height(Dict(fields)) <= STACK_LIMIT then Read(Meaning(Dict(fields)), q) else Overflow
    decreases fields, 4
  {
    hide ValueAt, MembersAt, Spells, NextToken, SkippedTo, TokenAt, SkipSpaces, Lexemes, FieldLexemes, MoreFields,
      WithFields, FieldsHeight, Height, Meaning, StringAt, MemberValueAt, CharAt, Matches, Good, ScalarAt, Abandon,
      NumberOf, Recovered, IsScalarValue, ScalarText, Quote, ArrayAt, ElementsAt;
    ValueStep(x, p, depth, prior);
    DictLexemes(fields);
    var inner := Lexemes(Dict(fields))[1..];
    var m := SpellsSplit(x.doc, p, ["{"], inner, q);
    PunctuationRead(x, p, '{', m);
    if fields == [] {
      PunctuationRead(x, m, '}', q);
      MembersStep(x, m, depth + 1, [], "");
    } else {
      ReadsFields(x, m, fields, q, depth + 1, [], "");
    }
  }

  lemma {:induction false} ReadsFields(
    x: Input, p: nat, fields: seq<Field>, q: nat, depth: nat, m: seq<Entry>, name: string)
    requires fields != [] && Good(Dict(fields)) && p <= |x.doc|
    requires Spells(x.doc, p, FieldLexemes(fields[0]) + MoreFields(fields[1..]) + ["}"], q)
    ensures MembersAt(x, p, depth, m, name) ==
            if depth + FieldsHeight(fields) <= STACK_LIMIT then Read(Object(WithFields(m, fields)), q) else Overflow
    decreases fields, 3
  {
    hide MembersAt, MemberValueAt, Spells, NextToken, SkippedTo, TokenAt, SkipSpaces, Lexemes, MoreFields, WithFields,
      FieldsHeight, ScalarAt, Abandon, NumberOf, StringAt, CharAt, Matches, Recovered, IsScalarValue, ScalarText,
      ArrayAt, ElementsAt, ValueAt;
    var d, first := x.doc, fields[0];
    var value := Lexemes(first.doc) + (MoreFields(fields[1..]) + ["}"]);
    assert FieldLexemes(first) + MoreFields(fields[1..]) + ["}"] == [Quote(first.name)] + ([":"] + value);
    var a := SpellsSplit(d, p, [Quote(first.name)], [":"] + value, q);
    var b := SpellsSplit(d, a, [":"], value, q);
    StringRead(x, p, first.name, a);
    PunctuationRead(x, a, ':', b);
    MembersStep(x, p, depth, m, name);
    ReadsFieldValue(x, b, fields, q, depth, m);
  }

  lemma FirstField(m: seq<Entry>, fields: seq<Field>)
    requires fields != [] && Good(Dict(fields))
    ensures Good(fields[0].doc) && Good(Dict(fields[1..]))
    ensures FieldsHeight(fields) == Max(Height(fields[0].doc), FieldsHeight(fields[1..]))
    ensures var n := Put(m, Name(fields[0].name), Meaning(fields[0].doc));
            WithFields(m, fields) == WithFields(n, fields[1..]) &&
            (fields[1..] == [] ==> FieldsHeight(fields) == Height(fields[0].doc) && WithFields(m, fields) == n)
  {
  }

  lemma {:induction false} ReadsFieldValue(
    x: Input, p: nat, fields: seq<Field>, q: nat, depth: nat, m: seq<Entry>)
    requires fields != [] && Good(Dict(fields)) && p <= |x.doc|
    requires Spells(x.doc, p, Lexemes(fields[0].doc) + (MoreFields(fields[1..]) + ["}"]), q)
    ensures MemberValueAt(x, p, depth, m, fields[0].name) ==
            if depth + FieldsHeight(fields) <= STACK_LIMIT then Read(Object(WithFields(m, fields)), q) else Overflow
    decreases fields, 2
  {
    hide ValueAt, MembersAt, MemberValueAt, Spells, NextToken, SkippedTo, TokenAt, SkipSpaces, Lexemes, FieldLexemes,
      MoreFields, Put, Current, Good, Height, FieldsHeight, WithFields, Meaning, ScalarAt, Abandon, NumberOf, StringAt,
      CharAt, Matches, Recovered, IsScalarValue, ScalarText, Quote, ArrayAt, ElementsAt;
    var d, first, rest := x.doc, fields[0], fields[1..];
    MoreFieldsStep(rest);
    FirstField(m, fields);
    var k := Name(first.name);
    var e := SpellsSplit(d, p, Lexemes(first.doc), MoreFields(rest) + ["}"], q);
    assert first.doc < first;
    ReadsDoc(x, p, first.doc, e, depth, Current(m, k));
    MemberValueStep(x, p, depth, m, first.name, ValueAt(x, p, depth, Current(m, k)));
    if depth + Height(first.doc) <= STACK_LIMIT {
      if rest == [] {
        PunctuationRead(x, e, '}', q);
      } else {
        var tail := FieldLexemes(rest[0]) + MoreFields(rest[1..]) + ["}"];
        var n := SpellsSplit(d, e, [","], tail, q);
        PunctuationRead(x, e, ',', n);
        ReadsFields(x, n, rest, q, depth, Put(m, k, Meaning(first.doc)), first.name);
      }
    }
  }

  /** `parse` on a whole document that lays out a syntax tree, with anything after it. */
  lemma ParsesLayout(x: Input, doc: Doc, q: nat, prior: Value)
    requires Good(doc) && Spells(x.doc, 0, Lexemes(doc), q)
    ensures DocumentOf(x, prior) ==
            if Height(doc) <= STACK_LIMIT
            then Finished(RootErrors(x, Meaning(doc)) == [], Meaning(doc), RootErrors(x, Meaning(doc)))
            else Aborted
  {
    ReadsDoc(x, 0, doc, q, 0, prior);
  }
}
