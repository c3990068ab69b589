/** Texts made of lexemes and white space, and the layouts they are. */
module JsonWeave {
  import opened JsonValue
  import opened JsonNumber
  import opened JsonScan
  import opened JsonString
  import opened JsonGrammar
  import opened JsonLayout

  /** A lexeme and the white space before it. */
  datatype Piece = Piece(gap: string, lexeme: string)

  function Weave(ps: seq<Piece>): string {
    if ps == [] then "" else ps[0].gap + ps[0].lexeme + Weave(ps[1..])
  }

  function LexemesOf(ps: seq<Piece>): seq<string> {
    if ps == [] then [] else [ps[0].lexeme] + LexemesOf(ps[1..])
  }

  predicate AllSpace(s: string) {
    forall i :: 0 <= i < |s| ==> IsSpace(s[i])
  }

  predicate GapsAreSpace(ps: seq<Piece>) {
    forall i :: 0 <= i < |ps| ==> AllSpace(ps[i].gap)
  }

  /** The text consists of the lexemes, with nothing but white space before, between and after them. */
  ghost predicate LaysOut(text: string, lexemes: seq<string>) {
    exists ps: seq<Piece>, tail: string ::
      text == Weave(ps) + tail && AllSpace(tail) && GapsAreSpace(ps) && LexemesOf(ps) == lexemes
  }

  lemma Regroup(gap: string, lexeme: string, first: string, second: string)
    ensures gap + lexeme + (first + second) == gap + lexeme + first + second && "" + second == second
  {
  }

  lemma {:induction false} WeaveConcat(a: seq<Piece>, b: seq<Piece>)
    ensures Weave(a + b) == Weave(a) + Weave(b)
    ensures LexemesOf(a + b) == LexemesOf(a) + LexemesOf(b)
  {
    if a == [] {
      assert a + b == b;
    } else {
      assert (a + b)[1..] == a[1..] + b;
      WeaveConcat(a[1..], b);
      Regroup(a[0].gap, a[0].lexeme, Weave(a[1..]), Weave(b));
    }
  }

  lemma WeaveSnoc(ps: seq<Piece>, p: Piece)
    ensures Weave(ps + [p]) == Weave(ps) + p.gap + p.lexeme
    ensures LexemesOf(ps + [p]) == LexemesOf(ps) + [p.lexeme]
  {
    WeaveConcat(ps, [p]);
    assert [p][1..] == [];
    assert Weave([p]) == p.gap + p.lexeme;
  }

  lemma WeaveNothing()
    ensures Weave([]) == "" && LexemesOf([]) == []
  {
  }

  /** A piece in front of others. */
  lemma PieceFirst(gap: string, ls: seq<string>, rest: seq<Piece>)
    requires ls != [] && AllSpace(gap) && GapsAreSpace(rest) && LexemesOf(rest) == ls[1..]
    ensures var ps := [Piece(gap, ls[0])] + rest;
            Weave(ps) == gap + ls[0] + Weave(rest) && GapsAreSpace(ps) && LexemesOf(ps) == ls
  {
    assert ([Piece(gap, ls[0])] + rest)[1..] == rest;
  }

  // ---- Every such text of a syntax tree is a layout of it ----

  /** A lexeme stands on its own: it is not empty and does not start with white space. */
  predicate IsLexeme(s: string) {
    s != [] && !IsSpace(s[0])
  }

  /** No lexeme could run into the one after it. */
  ghost predicate Separate(ls: seq<string>) {
    && (forall i :: 0 <= i < |ls| ==> IsLexeme(ls[i]))
    && (forall i :: 0 <= i < |ls| - 1 ==> EndsInDigit(ls[i]) ==> StopsNumber(ls[i + 1][0]))
  }

  /** The lexemes form a whole: they do not run into each other, and a stop character may follow or precede them. */
  lemma SeparateConcat(a: seq<string>, b: seq<string>)
    requires Separate(a) && Separate(b)
    requires a != [] && b != [] ==> EndsInDigit(a[|a| - 1]) ==> StopsNumber(b[0][0])
    ensures Separate(a + b)
  {
    var ls := a + b;
    forall i | 0 <= i < |ls| - 1 && EndsInDigit(ls[i])
      ensures StopsNumber(ls[i + 1][0])
    {
      if i + 1 < |a| {
        assert ls[i + 1] == a[i + 1];
      } else if i >= |a| {
        assert ls[i] == b[i - |a|] && ls[i + 1] == b[i + 1 - |a|];
      }
    }
  }

  /** White space, then a lexeme. */
  lemma PieceSpells(d: string, p: nat, piece: Piece)
    requires AllSpace(piece.gap) && IsLexeme(piece.lexeme) && Matches(d, p, piece.gap + piece.lexeme)
    ensures SkipSpaces(d, p) == p + |piece.gap|
    ensures Matches(d, p + |piece.gap|, piece.lexeme)
  {
    MatchesSplit(d, p, piece.gap, piece.lexeme);
    assert d[p + |piece.gap| + 0] == piece.lexeme[0];
    SpacesRun(d, p, p + |piece.gap|, piece.gap);
  }

  lemma {:induction false} SpacesRun(d: string, p: nat, q: nat, gap: string)
    requires p <= q < |d| && !IsSpace(d[q])
    requires q - p == |gap| && AllSpace(gap) && Matches(d, p, gap)
    ensures SkipSpaces(d, p) == q
    decreases q - p
  {
    if p < q {
      assert d[p + 0] == gap[0];
      MatchesSplit(d, p, gap[..1], gap[1..]);
      assert gap == gap[..1] + gap[1..];
      SpacesRun(d, p + 1, q, gap[1..]);
    }
  }

  lemma {:induction false} WeaveSpells(d: string, p: nat, ps: seq<Piece>, tail: string)
    requires GapsAreSpace(ps) && Separate(LexemesOf(ps)) && AllSpace(tail)
    requires Matches(d, p, Weave(ps) + tail) && p + |Weave(ps) + tail| == |d|
    ensures Spells(d, p, LexemesOf(ps), p + |Weave(ps)|)
    decreases |ps|
  {
    hide Separate, Matches, StopsNumber, AllSpace, EndsInDigit, SkipSpaces, IsLexeme;
    if ps != [] {
      var first, rest := ps[0], ps[1..];
      var start := first.gap + first.lexeme;
      var e := p + |start|;
      assert Weave(ps) + tail == start + (Weave(rest) + tail);
      MatchesSplit(d, p, start, Weave(rest) + tail);
      assert LexemesOf(ps)[1..] == LexemesOf(rest);
      SeparateTail(LexemesOf(ps));
      PieceSpells(d, p, first);
      if EndsInDigit(first.lexeme) && e < |d| {
        AfterNumber(d, e, rest, tail, LexemesOf(ps));
      }
      WeaveSpells(d, e, rest, tail);
    }
  }

  lemma SeparateTail(ls: seq<string>)
    requires Separate(ls) && ls != []
    ensures Separate(ls[1..]) && IsLexeme(ls[0])
  {
    var t := ls[1..];
    forall i | 0 <= i < |t| - 1 && EndsInDigit(t[i])
      ensures StopsNumber(t[i + 1][0])
    {
      assert t[i] == ls[i + 1] && t[i + 1] == ls[i + 2];
    }
  }

  /** What follows a number is white space or a stop character. */
  lemma AfterNumber(d: string, e: nat, rest: seq<Piece>, tail: string, ls: seq<string>)
    requires e < |d| && Matches(d, e, Weave(rest) + tail) && e + |Weave(rest) + tail| == |d|
    requires AllSpace(tail) && GapsAreSpace(rest)
    requires ls != [] && ls[1..] == LexemesOf(rest) && Separate(ls) && EndsInDigit(ls[0])
    ensures StopsNumber(d[e])
  {
    var text := Weave(rest) + tail;
    assert d[e + 0] == text[0];
    if rest == [] {
      assert text == tail;
    } else {
      assert ls[1] == LexemesOf(rest)[0] == rest[0].lexeme;
      assert EndsInDigit(ls[0]) ==> StopsNumber(ls[0 + 1][0]);
      if rest[0].gap != [] {
        assert text[0] == rest[0].gap[0];
      } else {
        assert text[0] == rest[0].lexeme[0];
      }
    }
  }

  // ---- The lexemes of a syntax tree do not run into each other ----

  predicate IsPunctuation(lexeme: string) {
    |lexeme| == 1 && lexeme[0] in ['{', '}', '[', ']', ',', ':']
  }

  /** Runs of lexemes may meet where one side is punctuation. */
  lemma SeparateMeet(a: seq<string>, b: seq<string>)
    requires Separate(a) && Separate(b)
    requires a != [] && b != [] ==> IsPunctuation(a[|a| - 1]) || IsPunctuation(b[0])
    ensures Separate(a + b)
  {
    SeparateConcat(a, b);
  }

  lemma ScalarSeparate(v: Value)
    requires IsScalarValue(v)
    ensures Separate([ScalarText(v)])
  {
    if v.Int? || v.UInt? {
      IntTextShape(if v.Int? then v.i else v.u);
    }
  }

  lemma {:induction false} DocSeparate(doc: Doc)
    requires Good(doc)
    ensures Separate(Lexemes(doc)) && Lexemes(doc) != []
    decreases doc, 1
  {
    match doc
    case Scalar(v) => ScalarSeparate(v);
    case List(items) =>
      if items == [] {
        assert Lexemes(doc) == ["[", "]"];
      } else {
        DocSeparate(items[0]);
        MoreItemsSeparate(items[1..]);
        SeparateMeet(Lexemes(items[0]), MoreItems(items[1..]));
        Bracketed("[", ItemLexemes(items), "]");
      }
    case Dict(fields) =>
      if fields == [] {
        assert Lexemes(doc) == ["{", "}"];
      } else {
        FieldSeparate(fields[0]);
        MoreFieldsSeparate(fields[1..]);
        SeparateMeet(FieldLexemes(fields[0]), MoreFields(fields[1..]));
        Bracketed("{", MemberLexemes(fields), "}");
      }
  }

  lemma Bracketed(open: string, ls: seq<string>, close: string)
    requires IsPunctuation(open) && IsPunctuation(close) && Separate(ls)
    ensures Separate([open] + ls + [close])
  {
    SeparateMeet([open], ls);
    SeparateMeet([open] + ls, [close]);
  }

  lemma {:induction false} MoreItemsSeparate(items: seq<Doc>)
    requires Good(List(items))
    ensures Separate(MoreItems(items)) && (items != [] ==> MoreItems(items) != [] && IsPunctuation(MoreItems(items)[0]))
    decreases items, 0
  {
    if items != [] {
      DocSeparate(items[0]);
      MoreItemsSeparate(items[1..]);
      SeparateMeet([","], Lexemes(items[0]));
      SeparateMeet([","] + Lexemes(items[0]), MoreItems(items[1..]));
    }
  }

  lemma {:induction false} FieldSeparate(f: Field)
    requires Good(f.doc)
    ensures Separate(FieldLexemes(f))
    decreases f, 2
  {
    DocSeparate(f.doc);
    assert Separate([Quote(f.name), ":"]);
    SeparateMeet([Quote(f.name), ":"], Lexemes(f.doc));
  }

  lemma {:induction false} MoreFieldsSeparate(fields: seq<Field>)
    requires Good(Dict(fields))
    ensures Separate(MoreFields(fields))
    ensures fields != [] ==> MoreFields(fields) != [] && IsPunctuation(MoreFields(fields)[0])
    decreases fields, 0
  {
    if fields != [] {
      FieldSeparate(fields[0]);
      MoreFieldsSeparate(fields[1..]);
      SeparateMeet([","], FieldLexemes(fields[0]));
      SeparateMeet([","] + FieldLexemes(fields[0]), MoreFields(fields[1..]));
    }
  }

  /** The parser gives every text that lays out a syntax tree the meaning of the tree. */
  lemma ParsesText(x: Input, doc: Doc, prior: Value)
    requires Good(doc) && LaysOut(x.doc, Lexemes(doc))
    ensures DocumentOf(x, prior) ==
            if Height(doc) <= STACK_LIMIT
            then Finished(RootErrors(x, Meaning(doc)) == [], Meaning(doc), RootErrors(x, Meaning(doc)))
            else Aborted
  {
    hide DocumentOf, ValueAt, Lexemes, Good, Height, Meaning, Spells, SkipSpaces, Weave, LexemesOf, Separate;
    var ps: seq<Piece>, tail: string :|
      x.doc == Weave(ps) + tail && AllSpace(tail) && GapsAreSpace(ps) && LexemesOf(ps) == Lexemes(doc);
    DocSeparate(doc);
    WeaveSpells(x.doc, 0, ps, tail);
    ParsesLayout(x, doc, |Weave(ps)|, prior);
  }
}
