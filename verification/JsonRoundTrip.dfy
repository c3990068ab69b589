/** The parser undoes the printers: what `Reader::parse` makes of the output of `FastWriter` and `StyledWriter`. */
module JsonRoundTrip {
  import opened JsonValue
  import opened JsonNumber
  import opened JsonScan
  import opened JsonString
  import opened JsonGrammar
  import opened JsonReader
  import opened JsonLayout
  import opened JsonWeave
  import opened JsonTree
  import opened JsonNormal
  import opened JsonFastWriter
  import opened JsonStyledWriter

  // ---- The output of FastWriter is a layout ----

  /** A colon lexeme gets the writer's own text; all others stand for themselves. */
  function Printed(lexeme: string, colon: string): string {
    if lexeme == ":" then colon else lexeme
  }

  /** The lexemes in a row. */
  function Run(ls: seq<string>, colon: string): string {
    if ls == [] then "" else Printed(ls[0], colon) + Run(ls[1..], colon)
  }

  lemma {:induction false} RunConcat(a: seq<string>, b: seq<string>, colon: string)
    ensures Run(a + b, colon) == Run(a, colon) + Run(b, colon)
  {
    if a == [] {
      assert a + b == b;
    } else {
      assert (a + b)[1..] == a[1..] + b;
      RunConcat(a[1..], b, colon);
    }
  }

  lemma RunOne(lexeme: string, colon: string)
    ensures Run([lexeme], colon) == Printed(lexeme, colon)
  {
    assert [lexeme][1..] == [];
  }

  lemma RunBracketed(open: string, ls: seq<string>, close: string, colon: string)
    requires open != ":" && close != ":"
    ensures Run([open] + ls + [close], colon) == open + Run(ls, colon) + close
  {
    RunOne(open, colon);
    RunOne(close, colon);
    RunConcat([open], ls, colon);
    RunConcat([open] + ls, [close], colon);
  }

  lemma ScalarIsNoColon(v: Value)
    ensures ScalarText(v) != ":"
  {
    if v.Int? || v.UInt? {
      IntTextShape(if v.Int? then v.i else v.u);
    }
  }

  lemma {:induction false} FastTextRuns(doc: Doc, colon: string)
    ensures FastText(doc, colon) == Run(Lexemes(doc), colon)
    decreases doc, 1
  {
    hide FastItems, FastFields, Run, ScalarText, ItemLexemes, MemberLexemes;
    match doc
    case Scalar(v) =>
      ScalarIsNoColon(v);
      RunOne(ScalarText(v), colon);
    case List(items) =>
      FastItemsRun(items, colon);
      RunBracketed("[", ItemLexemes(items), "]", colon);
    case Dict(fields) =>
      FastFieldsRun(fields, colon);
      RunBracketed("{", MemberLexemes(fields), "}", colon);
  }

  /** Without the colons of YAML the printer writes the lexemes and nothing between them. */
  lemma FastTextJoins(doc: Doc)
    ensures FastText(doc, ":") == Joined(Lexemes(doc))
  {
    FastTextRuns(doc, ":");
    RunJoins(Lexemes(doc));
  }

  lemma {:induction false} RunJoins(ls: seq<string>)
    ensures Run(ls, ":") == Joined(ls)
  {
    if ls != [] {
      RunJoins(ls[1..]);
    }
  }

  lemma {:induction false} FastItemsRun(items: seq<Doc>, colon: string)
    ensures FastItems(items, colon) == Run(ItemLexemes(items), colon)
    decreases items, 3
  {
    hide FastText, FastMoreItems, Lexemes, MoreItems;
    if items != [] {
      FastTextRuns(items[0], colon);
      FastMoreItemsRun(items[1..], colon);
      RunConcat(Lexemes(items[0]), MoreItems(items[1..]), colon);
    }
  }

  lemma {:induction false} FastMoreItemsRun(items: seq<Doc>, colon: string)
    ensures FastMoreItems(items, colon) == Run(MoreItems(items), colon)
    decreases items, 2
  {
    hide FastText, Lexemes;
    if items != [] {
      FastTextRuns(items[0], colon);
      FastMoreItemsRun(items[1..], colon);
      RunOne(",", colon);
      RunConcat([","], Lexemes(items[0]), colon);
      RunConcat([","] + Lexemes(items[0]), MoreItems(items[1..]), colon);
    }
  }

  lemma {:induction false} FastFieldRuns(f: Field, colon: string)
    ensures FastField(f, colon) == Run(FieldLexemes(f), colon)
    decreases f, 2
  {
    hide FastText, Lexemes, Run;
    FastTextRuns(f.doc, colon);
    RunOne(Quote(f.name), colon);
    RunOne(":", colon);
    RunConcat([Quote(f.name)], [":"], colon);
    RunConcat([Quote(f.name)] + [":"], Lexemes(f.doc), colon);
    assert [Quote(f.name), ":"] == [Quote(f.name)] + [":"];
  }

  lemma {:induction false} FastFieldsRun(fields: seq<Field>, colon: string)
    ensures FastFields(fields, colon) == Run(MemberLexemes(fields), colon)
    decreases fields, 4
  {
    hide FastField, FastMoreFields, FieldLexemes, MoreFields;
    if fields != [] {
      FastFieldRuns(fields[0], colon);
      FastMoreFieldsRun(fields[1..], colon);
      RunConcat(FieldLexemes(fields[0]), MoreFields(fields[1..]), colon);
    }
  }

  lemma {:induction false} FastMoreFieldsRun(fields: seq<Field>, colon: string)
    ensures FastMoreFields(fields, colon) == Run(MoreFields(fields), colon)
    decreases fields, 3
  {
    hide FastField, FieldLexemes;
    if fields != [] {
      FastFieldRuns(fields[0], colon);
      FastMoreFieldsRun(fields[1..], colon);
      RunOne(",", colon);
      RunConcat([","], FieldLexemes(fields[0]), colon);
      RunConcat([","] + FieldLexemes(fields[0]), MoreFields(fields[1..]), colon);
    }
  }

  /** Lexemes in a row are a layout: the space after a colon goes before the next lexeme. */
  lemma {:induction false} RunLaysOut(gap: string, ls: seq<string>, colon: string)
    returns (ps: seq<Piece>, tail: string)
    requires AllSpace(gap) && (colon == ":" || colon == ": ")
    ensures gap + Run(ls, colon) == Weave(ps) + tail
    ensures AllSpace(tail) && GapsAreSpace(ps) && LexemesOf(ps) == ls
    decreases |ls|
  {
    hide Weave, LexemesOf, Printed;
    if ls == [] {
      ps, tail := [], gap;
      WeaveNothing();
    } else {
      var after := if ls[0] == ":" then colon[1..] else "";
      var rest;
      rest, tail := RunLaysOut(after, ls[1..], colon);
      ps := [Piece(gap, ls[0])] + rest;
      PrintedSplits(ls[0], after, colon);
      PieceFirst(gap, ls, rest);
      assert gap + Run(ls, colon) == gap + ls[0] + (after + Run(ls[1..], colon));
      assert Weave(ps) + tail == gap + ls[0] + (Weave(rest) + tail);
    }
  }

  lemma PrintedSplits(lexeme: string, after: string, colon: string)
    requires colon == ":" || colon == ": "
    requires after == if lexeme == ":" then colon[1..] else ""
    ensures Printed(lexeme, colon) == lexeme + after && AllSpace(after)
  {
  }

  lemma FastTextLaysOut(doc: Doc, colon: string, end: string)
    requires (colon == ":" || colon == ": ") && AllSpace(end)
    ensures LaysOut(FastText(doc, colon) + end, Lexemes(doc))
  {
    hide FastText, Lexemes, Run;
    var ps, tail := RunLaysOut("", Lexemes(doc), colon);
    FastTextRuns(doc, colon);
    assert "" + Run(Lexemes(doc), colon) == Run(Lexemes(doc), colon);
    assert FastText(doc, colon) + end == Weave(ps) + (tail + end);
    assert AllSpace(tail + end);
  }

  // ---- Names with a NUL ----

  /** No name of an object member in the value contains a NUL. */
  ghost predicate NulFree(v: Value) {
    match v
    case Array(m) => forall i :: 0 <= i < |m| ==> NulFree(m[i].value)
    case Object(m) => forall i :: 0 <= i < |m| ==> NulFreeKey(m[i].key) && NulFree(m[i].value)
    case _ => true
  }

  ghost predicate NulFreeKey(k: CZString) {
    k.Name? ==> '\0' !in k.str
  }

  /** Both writers print the same tree for a value without such names. */
  lemma {:induction false} CutKeepsNulFree(v: Value)
    requires NulFree(v)
    ensures DocOf(v, true) == DocOf(v, false)
    decreases Weight(v), 0
  {
    if v.Array? {
      CutKeepsItems(v.entries, 0);
    } else if v.Object? {
      CutKeepsFields(v.entries);
    }
  }

  lemma {:induction false} CutKeepsItems(m: seq<Entry>, i: nat)
    requires forall j :: 0 <= j < |m| ==> NulFree(m[j].value)
    ensures ItemsOf(m, i, true) == ItemsOf(m, i, false)
    decreases MapWeight(m), ArraySize(m) - i + 1
  {
    hide DocOf, Current;
    if i < ArraySize(m) {
      var j := LookedUp(m, Index(i));
      CurrentWeight(m, Index(i));
      CutKeepsNulFree(Current(m, Index(i)));
      CutKeepsItems(m, i + 1);
    }
  }

  lemma {:induction false} CutKeepsFields(m: seq<Entry>)
    requires forall j :: 0 <= j < |m| ==> NulFreeKey(m[j].key) && NulFree(m[j].value)
    ensures FieldsOf(m, true) == FieldsOf(m, false)
    decreases MapWeight(m), 1
  {
    hide DocOf;
    if m != [] {
      if m[0].key.Name? {
        CStringOf(m[0].key.str);
      }
      CutKeepsNulFree(m[0].value);
      CutKeepsFields(m[1..]);
    }
  }

  ghost predicate NulFreeMap(m: seq<Entry>) {
    forall i :: 0 <= i < |m| ==> NulFreeKey(m[i].key) && NulFree(m[i].value)
  }

  lemma PutNulFree(m: seq<Entry>, k: CZString, v: Value)
    requires NulFreeMap(m) && NulFreeKey(k) && NulFree(v)
    ensures NulFreeMap(Put(m, k, v))
  {
    hide NulFree, NulFreeKey;
  }

  /** Cut names contain no NUL. */
  lemma {:induction false} CutIsNulFree(v: Value)
    ensures NulFree(Meaning(DocOf(v, true)))
    decreases Weight(v), 0
  {
    if v.Array? {
      CutItemsNulFree([], v.entries, 0);
    } else if v.Object? {
      CutFieldsNulFree([], v.entries);
    }
  }

  lemma {:induction false} CutItemsNulFree(acc: seq<Entry>, m: seq<Entry>, i: nat)
    requires NulFreeMap(acc)
    ensures NulFreeMap(WithItems(acc, i, ItemsOf(m, i, true)))
    decreases MapWeight(m), ArraySize(m) - i + 1
  {
    hide DocOf, Meaning, Put, NulFree, NulFreeMap, Current;
    if i < ArraySize(m) {
      var v := Current(m, Index(i));
      CurrentWeight(m, Index(i));
      CutIsNulFree(v);
      PutNulFree(acc, Index(i), Meaning(DocOf(v, true)));
      CutItemsNulFree(Put(acc, Index(i), Meaning(DocOf(v, true))), m, i + 1);
      assert ItemsOf(m, i, true)[1..] == ItemsOf(m, i + 1, true);
    }
  }

  lemma {:induction false} CutFieldsNulFree(acc: seq<Entry>, m: seq<Entry>)
    requires NulFreeMap(acc)
    ensures NulFreeMap(WithFields(acc, FieldsOf(m, true)))
    decreases MapWeight(m), 1
  {
    hide DocOf, Meaning, Put, NulFree, NulFreeMap;
    if m != [] {
      var name, v := PrintedName(m[0].key, true), Meaning(DocOf(m[0].value, true));
      if m[0].key.Name? {
        CStringOf(m[0].key.str);
      }
      CutIsNulFree(m[0].value);
      PutNulFree(acc, Name(name), v);
      CutFieldsNulFree(Put(acc, Name(name), v), m[1..]);
      assert FieldsOf(m, true)[1..] == FieldsOf(m[1..], true);
    }
  }

  lemma {:induction false} NormalNulFree(v: Value)
    requires Valid(v)
    ensures NulFree(Normal(v)) <==> NulFree(v)
    decreases Weight(v)
  {
    if v.Array? {
      NormalArrayNulFree(v.entries);
    } else if v.Object? {
      var m, n := v.entries, NormalFields(v.entries);
      forall i | 0 <= i < |m|
        ensures n[i].key == m[i].key && (NulFree(n[i].value) <==> NulFree(m[i].value))
      {
        NormalFieldsAt(m, i);
        EntryWeight(m, i);
        NormalNulFree(m[i].value);
      }
    }
  }

  lemma {:induction false} NormalArrayNulFree(m: seq<Entry>)
    requires Valid(Array(m))
    ensures NulFree(Normal(Array(m))) <==> NulFree(Array(m))
    decreases MapWeight(m)
  {
    hide NormalItems, Current, Valid, NulFree, MapWeight;
    var n := NormalItems(m, 0);
    NormalArray(m);
    NormalLength(m);
    ArrayNulFree(m);
    ArrayNulFree(n);
    ArrayIsValid(m);
    forall i | 0 <= i < |n| && NulFree(Array(m))
      ensures NulFree(n[i].value)
    {
      NormalItemAt(m, i);
      var j := LookedUp(m, Index(i));
      if Current(m, Index(i)) == Null {
        assert Normal(Null) == Null;
      } else {
        EntryWeight(m, j);
        NormalNulFree(m[j].value);
      }
    }
    forall j | 0 <= j < |m| && NulFree(Array(n))
      ensures NulFree(m[j].value)
    {
      StoredElement(m, j);
      NormalItemAt(m, m[j].key.index);
      EntryWeight(m, j);
      NormalNulFree(m[j].value);
    }
  }

  lemma ArrayNulFree(m: seq<Entry>)
    ensures NulFree(Null)
    ensures NulFree(Array(m)) <==> forall i :: 0 <= i < |m| ==> NulFree(m[i].value)
  {
  }

  // ---- Reading back ----

  /** What the reader makes of a layout of the tree printed for a value. */
  lemma ReadsPrinted(x: Input, v: Value, cut: bool, prior: Value)
    requires Printable(v) && LaysOut(x.doc, Lexemes(DocOf(v, cut)))
    ensures DocumentOf(x, prior) ==
            if NestsWithin(v, STACK_LIMIT)
            then Finished(RootErrors(x, v) == [], Meaning(DocOf(v, cut)), RootErrors(x, v))
            else Aborted
  {
    hide DocumentOf, LaysOut, Lexemes, Valid, RealFree, NestsWithin, Height;
    PrintableDoc(v, cut);
    HeightIsNesting(v, cut, STACK_LIMIT);
    ParsesText(x, DocOf(v, cut), prior);
  }

  /** A printed value, read back. Names are taken whole by the one writer and as C strings by the other. */
  lemma CutMatters(v: Value)
    requires Valid(v)
    ensures Meaning(DocOf(v, false)) == Normal(v)
    ensures Meaning(DocOf(v, true)) == Normal(v) <==> NulFree(v)
  {
    hide DocOf, Meaning, Normal, Valid, NulFree;
    MeaningIsNormal(v);
    CutIsNulFree(v);
    NormalNulFree(v);
    if NulFree(v) {
      CutKeepsNulFree(v);
    }
  }

  /**
   * Prints a value with `FastWriter` and parses the text. Unless the value nests too deep, which ends in the exception
   * of the stack limit, the text is read as the value itself, up to integer tags and the gaps of arrays. A strict
   * reader objects to a root that is neither array nor object.
   */
  method WriteFastAndParse(
    value: Value, yaml: bool, omitEndingLineFeed: bool, features: Features, toDouble: string -> Option<real>)
    returns (exit: Exit, root: Value)
    requires Printable(value)
    ensures exit ==
            if NestsWithin(value, STACK_LIMIT) then Returned(features.strictRoot ==> value.Array? || value.Object?)
            else Threw
    ensures exit.Returned? ==> root == Normal(value)
    ensures exit.Returned? ==> (SameUpToTag(root, value) <==> Dense(value))
  {
    hide Lexemes, DocOf, Meaning, Normal, Printable, NestsWithin, DocumentOf, LaysOut, FastText, SameUpToTag, Dense;
    var writer := new FastWriter(yaml, omitEndingLineFeed);
    var text := writer.Write(value);
    FastTextLaysOut(DocOf(value, false), writer.Colon(), if omitEndingLineFeed then "" else "\n");
    var reader := new Reader(features, toDouble);
    ReadsPrinted(Input(text, features, toDouble), value, false, reader.root_);
    exit := reader.Parse(text);
    root := reader.root_;
    PrintableIsValid(value);
    CutMatters(value);
    NormalKeepsDense(value);
  }

  /**
   * The same with `StyledWriter`: the layout changes nothing. The tree is that of the value with its names cut at a
   * NUL; it is the one that `FastWriter` would have led to exactly when no member name contains a NUL.
   */
  method WriteStyledAndParse(value: Value, features: Features, toDouble: string -> Option<real>)
    returns (exit: Exit, root: Value)
    requires Printable(value)
    ensures exit ==
            if NestsWithin(value, STACK_LIMIT) then Returned(features.strictRoot ==> value.Array? || value.Object?)
            else Threw
    ensures exit.Returned? ==> root == Meaning(DocOf(value, true)) && (root == Normal(value) <==> NulFree(value))
  {
    hide Lexemes, DocOf, Meaning, Normal, Printable, NestsWithin, DocumentOf, LaysOut, NulFree;
    var writer := new StyledWriter();
    var text := writer.Write(value);
    var reader := new Reader(features, toDouble);
    ReadsPrinted(Input(text, features, toDouble), value, true, reader.root_);
    exit := reader.Parse(text);
    root := reader.root_;
    PrintableIsValid(value);
    CutMatters(value);
  }

  lemma PrintableIsValid(v: Value)
    requires Printable(v)
    ensures Valid(v)
  {
  }
}
