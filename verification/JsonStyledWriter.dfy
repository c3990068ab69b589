/** Class `Json::StyledWriter`: the printer with indentation, for values without comments. */
module JsonStyledWriter {
  import opened JsonValue
  import opened JsonScan
  import opened JsonString
  import opened JsonLayout
  import opened JsonTree
  import opened JsonWeave
  import opened JsonFastWriter

  const RIGHT_MARGIN := 74
  const INDENT_SIZE := 3

  /** The lexemes run together: the text of a child value that is kept for later. */
  function Joined(ls: seq<string>): string {
    if ls == [] then "" else ls[0] + Joined(ls[1..])
  }

  /** A value that prints as one word or as a pair of brackets: the only kind that is ever kept for later. */
  predicate Simple(v: Value) {
    match v
    case Array(m) => ArraySize(m) == 0
    case Object(m) => m == []
    case _ => true
  }

  /** The text of a child value that is kept for later. */
  ghost function ChildText(m: seq<Entry>, index: nat): string {
    Joined(Lexemes(DocOf(Current(m, Index(index)), true)))
  }

  class StyledWriter {
    var document_: string
    var childValues_: seq<string>
    var indentString_: string
    var addChildValues_: bool

    // What the document consists of: lexemes, each after its white space, and the white space after them.
    ghost var pieces: seq<Piece>
    ghost var gap: string

    constructor ()
      ensures Valid() && indentString_ == ""
    {
      document_, childValues_, indentString_, addChildValues_ := "", [], "", false;
      pieces, gap := [], "";
    }

    ghost predicate Valid()
      reads this`document_, this`indentString_, this`pieces, this`gap
    {
      document_ == Weave(pieces) + gap && AllSpace(gap) && GapsAreSpace(pieces) && AllSpace(indentString_)
    }

    /** The lexemes written so far. */
    ghost function Written(): seq<string>
      reads this`pieces
    {
      LexemesOf(pieces)
    }

    /** `document_ += value`, for the text of one lexeme. */
    method Append(value: string)
      requires Valid()
      modifies this`document_, this`pieces, this`gap
      ensures Valid() && Written() == old(Written()) + [value]
    {
      WeaveSnoc(pieces, Piece(gap, value));
      document_ := document_ + value;
      pieces, gap := pieces + [Piece(gap, value)], "";
    }

    /** `document_ += space` */
    method AppendSpace(space: string)
      requires Valid() && AllSpace(space)
      modifies this`document_, this`gap
      ensures Valid()
    {
      document_ := document_ + space;
      gap := gap + space;
    }

    /** `document_ += value`, for the text of lexemes run together. */
    method AppendAll(value: string, ghost ls: seq<string>)
      requires Valid() && value == Joined(ls)
      modifies this`document_, this`pieces, this`gap
      ensures Valid() && Written() == old(Written()) + ls
    {
      ghost var before := pieces;
      document_ := document_ + value;
      if ls != [] {
        pieces, gap := pieces + Pieces(gap, ls), "";
        WeavePieces(before, old(gap), ls);
      }
    }

    method WriteIndent()
      requires Valid()
      modifies this`document_, this`gap
      ensures Valid()
    {
      if document_ != "" {
        var last := document_[|document_| - 1];
        if last == ' ' {
          return;
        }
        if last != '\n' {
          AppendSpace("\n");
        }
      }
      AppendSpace(indentString_);
    }

    method WriteWithIndent(value: string, ghost ls: seq<string>)
      requires Valid() && value == Joined(ls)
      modifies this`document_, this`pieces, this`gap
      ensures Valid() && Written() == old(Written()) + ls
    {
      WriteIndent();
      AppendAll(value, ls);
    }

    method Indent()
      requires Valid()
      modifies this`indentString_
      ensures Valid() && |indentString_| == |old(indentString_)| + INDENT_SIZE
      ensures indentString_[..|old(indentString_)|] == old(indentString_)
    {
      indentString_ := indentString_ + "   ";
    }

    method Unindent()
      requires Valid() && |indentString_| >= INDENT_SIZE
      modifies this`indentString_
      ensures Valid() && indentString_ == old(indentString_)[..|old(indentString_)| - INDENT_SIZE]
    {
      indentString_ := indentString_[..|indentString_| - INDENT_SIZE];
    }

    /** Keeps the text as a child value, or writes it. */
    method PushValue(value: string, ghost ls: seq<string>)
      requires Valid() && value == Joined(ls)
      modifies this`document_, this`pieces, this`gap, this`childValues_
      ensures Valid()
      ensures addChildValues_ ==> Written() == old(Written()) && childValues_ == old(childValues_) + [value]
      ensures !addChildValues_ ==> Written() == old(Written()) + ls && childValues_ == old(childValues_)
    {
      if addChildValues_ {
        childValues_ := childValues_ + [value];
      } else {
        AppendAll(value, ls);
      }
    }

    /**
     * Writes a value: its lexemes, with white space anywhere between them. While child values are kept, the text of
     * a simple value is kept instead. The indentation ends as it began.
     */
    method WriteValue(value: Value)
      requires Valid() && Printable(value) && (addChildValues_ ==> Simple(value))
      modifies this
      ensures Valid() && indentString_ == old(indentString_) && addChildValues_ == old(addChildValues_)
      ensures !addChildValues_ ==> Written() == old(Written()) + Lexemes(DocOf(value, true))
      ensures addChildValues_ ==> Written() == old(Written())
      ensures addChildValues_ ==> childValues_ == old(childValues_) + [Joined(Lexemes(DocOf(value, true)))]
      decreases Weight(value), 0
    {
      if value.Array? {
        WriteArrayValue(value.entries);
      } else if value.Object? {
        WriteObjectValue(value.entries);
      } else {
        var text := ScalarToString(value);
        JoinedOne(text);
        PushValue(text, [text]);
      }
    }

    method WriteObjectValue(m: seq<Entry>)
      requires Valid() && Printable(Object(m)) && (addChildValues_ ==> m == [])
      modifies this
      ensures Valid() && indentString_ == old(indentString_) && addChildValues_ == old(addChildValues_)
      ensures !addChildValues_ ==> Written() == old(Written()) + Lexemes(DocOf(Object(m), true))
      ensures addChildValues_ ==> Written() == old(Written())
      ensures addChildValues_ ==> childValues_ == old(childValues_) + [Joined(Lexemes(DocOf(Object(m), true)))]
      decreases MapWeight(m), 2
    {
      hide Lexemes, MemberLexemes, MoreFields, FieldLexemes, DocOf, FieldsOf, Printable, Valid, Written, MembersFrom,
        Joined, MapWeight;
      PrintableNames(m);
      var members := GetMemberNames(m);
      ObjectLexemes(m);
      if members == [] {
        PushValue("{}", ["{", "}"]);
        return;
      }
      WriteWithIndent("{", ["{"]);
      Indent();
      var it := 0;
      ghost var indented := indentString_;
      assert m[0..] == m;
      while true
        invariant it < |m| && Valid() && indentString_ == indented && !addChildValues_
        invariant Written() + MembersFrom(m, it) == old(Written()) + ["{"] + MembersFrom(m, 0)
        decreases |m| - it
      {
        MembersFromStep(m, it, Written());
        WriteMember(m, it, members[it]);
        it := it + 1;
        if it == |members| {
          break;
        }
        Append(",");
      }
      Unindent();
      WriteWithIndent("}", ["}"]);
      assert Written() == old(Written()) + (["{"] + MembersFrom(m, 0) + ["}"]);
    }

    method WriteMember(m: seq<Entry>, ghost it: nat, name: string)
      requires Valid() && !addChildValues_
      requires Printable(Object(m)) && it < |m| && m[it].key == Name(name)
      modifies this
      ensures Valid() && indentString_ == old(indentString_) && !addChildValues_
      ensures Written() == old(Written()) + FieldLexemes(Field(CString(name), DocOf(m[it].value, true)))
      decreases MapWeight(m), 1
    {
      hide Lexemes, DocOf, Printable, Find, Quote, Valid, Written, Joined, MapWeight, Weight;
      MemberFound(m, it);
      var quoted := ValueToQuotedString(name);
      JoinedOne(quoted);
      WriteWithIndent(quoted, [quoted]);
      AppendSpace(" ");
      Append(":");
      AppendSpace(" ");
      WriteValue(Current(m, Name(name)));
      assert Written() == old(Written()) + ([quoted, ":"] + Lexemes(DocOf(m[it].value, true)));
    }

    /** The texts of all elements have been kept. */
    ghost predicate Kept(m: seq<Entry>)
      reads this`childValues_
    {
      |childValues_| == ArraySize(m) && forall i :: 0 <= i < |childValues_| ==> childValues_[i] == ChildText(m, i)
    }

    method WriteArrayValue(m: seq<Entry>)
      requires Valid() && Printable(Array(m)) && (addChildValues_ ==> ArraySize(m) == 0)
      modifies this
      ensures Valid() && indentString_ == old(indentString_) && addChildValues_ == old(addChildValues_)
      ensures !addChildValues_ ==> Written() == old(Written()) + Lexemes(DocOf(Array(m), true))
      ensures addChildValues_ ==> Written() == old(Written())
      ensures addChildValues_ ==> childValues_ == old(childValues_) + [Joined(Lexemes(DocOf(Array(m), true)))]
      decreases MapWeight(m), ArraySize(m) + 3
    {
      hide Lexemes, ItemLexemes, DocOf, ItemsOf, Printable;
      ArrayLexemes(m);
      var size := ArraySize(m);
      if size == 0 {
        PushValue("[]", ["[", "]"]);
      } else {
        var isArrayMultiLine := IsMultilineArray(m);
        if isArrayMultiLine {
          WriteMultilineArray(m);
        } else {
          WriteOneLineArray(m);
        }
      }
    }

    /**
     * Whether the array takes several lines: when it has many elements, a non-empty container among them, or a long
     * line. The texts of the elements are kept unless one of the first two reasons was found. Sizes and lengths are
     * 32-bit unsigned integers.
     */
    method IsMultilineArray(m: seq<Entry>) returns (isMultiLine: bool)
      requires Valid() && Printable(Array(m)) && !addChildValues_ && ArraySize(m) > 0
      modifies this
      ensures Valid() && indentString_ == old(indentString_) && !addChildValues_ && Written() == old(Written())
      ensures Kept(m) || (isMultiLine && childValues_ == [])
      decreases MapWeight(m), ArraySize(m) + 2
    {
      hide Lexemes, DocOf, Printable, Current, Find, Valid, Written, Joined, MapWeight, ArraySize;
      var size := ArraySize(m);
      isMultiLine := size * 3 % 0x1_0000_0000 >= RIGHT_MARGIN;
      childValues_ := [];
      var index := 0;
      while index < size && !isMultiLine
        invariant index <= size
        invariant !isMultiLine ==> forall i :: 0 <= i < index ==> Simple(Current(m, Index(i)))
      {
        isMultiLine := !Simple(Current(m, Index(index)));
        index := index + 1;
      }
      if !isMultiLine {
        addChildValues_ := true;
        var lineLength := (4 + (size - 1) * 2) % 0x1_0000_0000;
        for index := 0 to size
          invariant Valid() && indentString_ == old(indentString_) && addChildValues_ && Written() == old(Written())
          invariant |childValues_| == index && forall i :: 0 <= i < index ==> childValues_[i] == ChildText(m, i)
        {
          CurrentWeight(m, Index(index));
          ElementPrintable(m, index);
          WriteValue(Current(m, Index(index)));
          lineLength := (lineLength + |childValues_[index]|) % 0x1_0000_0000;
        }
        addChildValues_ := false;
        isMultiLine := isMultiLine || lineLength >= RIGHT_MARGIN;
      }
    }

    method WriteMultilineArray(m: seq<Entry>)
      requires Valid() && Printable(Array(m)) && !addChildValues_ && ArraySize(m) > 0
      requires Kept(m) || childValues_ == []
      modifies this
      ensures Valid() && indentString_ == old(indentString_) && !addChildValues_
      ensures Written() == old(Written()) + Lexemes(DocOf(Array(m), true))
      decreases MapWeight(m), ArraySize(m) + 2
    {
      hide Lexemes, ItemLexemes, DocOf, ItemsOf, Printable, Valid, Written, ItemsFrom, Joined, MapWeight, Current,
        ArraySize;
      ArrayLexemes(m);
      var size := ArraySize(m);
      WriteWithIndent("[", ["["]);
      Indent();
      ghost var indented := indentString_;
      var hasChildValue := childValues_ != [];
      var index := 0;
      while true
        invariant index < size && Valid() && indentString_ == indented && !addChildValues_
        invariant hasChildValue ==> Kept(m)
        invariant Written() + ItemsFrom(m, index) == old(Written()) + ["["] + ItemsFrom(m, 0)
        decreases size - index
      {
        ItemsFromStep(m, index, Written());
        if hasChildValue {
          WriteWithIndent(childValues_[index], Lexemes(DocOf(Current(m, Index(index)), true)));
        } else {
          WriteIndent();
          CurrentWeight(m, Index(index));
          ElementPrintable(m, index);
          WriteValue(Current(m, Index(index)));
        }
        index := index + 1;
        if index == size {
          break;
        }
        Append(",");
      }
      Unindent();
      WriteWithIndent("]", ["]"]);
      assert Written() == old(Written()) + (["["] + ItemsFrom(m, 0) + ["]"]);
    }

    method WriteOneLineArray(m: seq<Entry>)
      requires Valid() && Kept(m) && ArraySize(m) > 0
      modifies this`document_, this`pieces, this`gap
      ensures Valid() && Written() == old(Written()) + Lexemes(DocOf(Array(m), true))
    {
      hide Lexemes, ItemLexemes, DocOf, ItemsOf, ItemsFrom, CommaAndItemsFrom, Valid, Written, Joined, Current,
        ArraySize;
      ArrayLexemes(m);
      CommaEnds(m);
      var size := ArraySize(m);
      Append("[");
      AppendSpace(" ");
      for index := 0 to size
        invariant Valid()
        invariant Written() + CommaAndItemsFrom(m, index) == old(Written()) + ["["] + ItemsFrom(m, 0)
      {
        CommaStep(m, index, Written());
        if index > 0 {
          Append(",");
          AppendSpace(" ");
        }
        AppendAll(childValues_[index], Lexemes(DocOf(Current(m, Index(index)), true)));
      }
      AppendSpace(" ");
      assert Written() == old(Written()) + ["["] + ItemsFrom(m, 0);
      Append("]");
      assert Written() == old(Written()) + (["["] + ItemsFrom(m, 0) + ["]"]);
    }

    /** Prints a whole value: the result lays out the lexemes of its syntax tree. */
    method Write(root: Value) returns (text: string)
      requires Printable(root)
      modifies this
      ensures LaysOut(text, Lexemes(DocOf(root, true)))
      ensures indentString_ == ""
    {
      document_ := "";
      addChildValues_ := false;
      indentString_ := "";
      pieces, gap := [], "";
      WriteValue(root);
      AppendSpace("\n");
      text := document_;
      assert Written() == [] + Lexemes(DocOf(root, true)) == Lexemes(DocOf(root, true));
    }
  }

  /** The lexemes of the elements from `index` on. */
  ghost function ItemsFrom(m: seq<Entry>, index: nat): seq<string> {
    ItemLexemes(ItemsOf(m, index, true))
  }

  /** The same after a comma, where one is needed. */
  ghost function CommaAndItemsFrom(m: seq<Entry>, index: nat): seq<string> {
    if 0 < index < ArraySize(m) then [","] + ItemsFrom(m, index) else ItemsFrom(m, index)
  }

  lemma ArrayLexemes(m: seq<Entry>)
    ensures Lexemes(DocOf(Array(m), true)) == ["["] + ItemsFrom(m, 0) + ["]"]
    ensures ArraySize(m) == 0 ==> Lexemes(DocOf(Array(m), true)) == ["[", "]"] && Joined(["[", "]"]) == "[]"
    ensures Joined(["["]) == "[" && Joined(["]"]) == "]"
    ensures ItemsFrom(m, ArraySize(m)) == []
  {
    JoinedOne("[");
    JoinedOne("]");
    JoinedTwo("[", "]");
  }

  lemma ItemsFromStep(m: seq<Entry>, index: nat, written: seq<string>)
    requires index < ArraySize(m)
    ensures var ls := Lexemes(DocOf(Current(m, Index(index)), true));
            written + ItemsFrom(m, index) ==
            if index + 1 == ArraySize(m) then written + ls else written + ls + [","] + ItemsFrom(m, index + 1)
  {
    hide Lexemes, DocOf, Current, ItemsOf;
    var rest := ItemsOf(m, index + 1, true);
    ItemsStep(m, index, true);
    ItemsStep(m, index + 1, true);
    assert ItemsOf(m, index, true)[1..] == rest;
    MoreAfterComma(rest, []);
  }

  /** The lexemes of the members from the `it`-th on. */
  ghost function MembersFrom(m: seq<Entry>, it: nat): seq<string>
    requires it <= |m|
  {
    MemberLexemes(FieldsOf(m[it..], true))
  }

  lemma ObjectLexemes(m: seq<Entry>)
    ensures Lexemes(DocOf(Object(m), true)) == ["{"] + MembersFrom(m, 0) + ["}"]
    ensures m == [] ==> Lexemes(DocOf(Object(m), true)) == ["{", "}"] && Joined(["{", "}"]) == "{}"
    ensures Joined(["{"]) == "{" && Joined(["}"]) == "}"
  {
    assert m[0..] == m;
    JoinedOne("{");
    JoinedOne("}");
    JoinedTwo("{", "}");
  }

  lemma MembersFromStep(m: seq<Entry>, it: nat, written: seq<string>)
    requires it < |m|
    ensures var f := Field(PrintedName(m[it].key, true), DocOf(m[it].value, true));
            written + MembersFrom(m, it) ==
            if it + 1 == |m| then written + FieldLexemes(f)
            else written + FieldLexemes(f) + [","] + MembersFrom(m, it + 1)
  {
    var rest := FieldsOf(m[it + 1..], true);
    FieldsStep(m, it, true);
    assert FieldsOf(m[it..], true)[1..] == rest;
    MoreAfterComma([], rest);
  }

  lemma PrintableNames(m: seq<Entry>)
    requires Printable(Object(m))
    ensures forall i :: 0 <= i < |m| ==> m[i].key.Name?
  {
  }

  lemma CommaEnds(m: seq<Entry>)
    ensures CommaAndItemsFrom(m, 0) == ItemsFrom(m, 0) && CommaAndItemsFrom(m, ArraySize(m)) == []
  {
  }

  lemma CommaBefore(m: seq<Entry>, index: nat, written: seq<string>)
    requires index <= ArraySize(m)
    ensures written + CommaAndItemsFrom(m, index) ==
            if index == ArraySize(m) then written
            else if index > 0 then written + [","] + ItemsFrom(m, index) else written + ItemsFrom(m, index)
  {
    CommaEnds(m);
    hide ItemsFrom;
  }

  lemma CommaStep(m: seq<Entry>, index: nat, written: seq<string>)
    requires index < ArraySize(m)
    ensures written + CommaAndItemsFrom(m, index) ==
            (if index > 0 then written + [","] else written) + Lexemes(DocOf(Current(m, Index(index)), true))
            + CommaAndItemsFrom(m, index + 1)
  {
    hide ItemsFrom, CommaAndItemsFrom, ItemsOf, Lexemes, ItemLexemes, DocOf, Current;
    var before := if index > 0 then written + [","] else written;
    CommaBefore(m, index, written);
    ItemsFromStep(m, index, before);
    CommaBefore(m, index + 1, before + Lexemes(DocOf(Current(m, Index(index)), true)));
  }

  lemma JoinedOne(text: string)
    ensures Joined([text]) == text
  {
    assert [text][1..] == [];
    assert text + "" == text;
  }

  lemma JoinedTwo(a: string, b: string)
    ensures Joined([a, b]) == a + b
  {
    assert [a, b][1..] == [b];
    JoinedOne(b);
  }

  /** The pieces of lexemes run together after one gap. */
  ghost function Pieces(gap: string, ls: seq<string>): seq<Piece>
    decreases |ls|
  {
    if ls == [] then [] else [Piece(gap, ls[0])] + Pieces("", ls[1..])
  }

  lemma {:induction false} PiecesText(gap: string, ls: seq<string>)
    requires AllSpace(gap)
    ensures Weave(Pieces(gap, ls)) == if ls == [] then "" else gap + Joined(ls)
    ensures LexemesOf(Pieces(gap, ls)) == ls && GapsAreSpace(Pieces(gap, ls))
    decreases |ls|
  {
    hide Weave, LexemesOf, Joined, AllSpace;
    WeaveNothing();
    NoSpace();
    if ls != [] {
      var rest := Pieces("", ls[1..]);
      PiecesText("", ls[1..]);
      PieceFirst(gap, ls, rest);
      JoinedStep(ls);
      JoinedStep(ls[1..]);
      Regroup(gap, ls[0], Joined(ls[1..]));
    }
  }

  lemma Regroup(a: string, b: string, c: string)
    ensures "" + c == c && a + b + c == a + (b + c)
  {
  }

  lemma NoSpace()
    ensures AllSpace("") && GapsAreSpace([])
  {
  }

  lemma JoinedStep(ls: seq<string>)
    ensures Joined(ls) == if ls == [] then "" else ls[0] + Joined(ls[1..])
  {
  }

  lemma WeavePieces(ps: seq<Piece>, gap: string, ls: seq<string>)
    requires ls != [] && AllSpace(gap) && GapsAreSpace(ps)
    ensures Weave(ps + Pieces(gap, ls)) == Weave(ps) + gap + Joined(ls)
    ensures LexemesOf(ps + Pieces(gap, ls)) == LexemesOf(ps) + ls
    ensures GapsAreSpace(ps + Pieces(gap, ls))
  {
    hide Weave, LexemesOf, Joined, AllSpace, Pieces;
    PiecesText(gap, ls);
    WeaveConcat(ps, Pieces(gap, ls));
  }
}
