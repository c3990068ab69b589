/** Class `Json::FastWriter`: the printer without white space. */
module JsonFastWriter {
  import opened JsonValue
  import opened JsonNumber
  import opened JsonString
  import opened JsonLayout
  import opened JsonTree

  /** The text of a syntax tree with `colon` after each name and no white space elsewhere. */
  function FastText(doc: Doc, colon: string): string {
    match doc
    case Scalar(v) => ScalarText(v)
    case List(items) => "[" + FastItems(items, colon) + "]"
    case Dict(fields) => "{" + FastFields(fields, colon) + "}"
  }

  function FastItems(items: seq<Doc>, colon: string): string
    decreases items, 1
  {
    if items == [] then "" else FastText(items[0], colon) + FastMoreItems(items[1..], colon)
  }

  function FastMoreItems(items: seq<Doc>, colon: string): string
    decreases items, 0
  {
    if items == [] then "" else "," + FastText(items[0], colon) + FastMoreItems(items[1..], colon)
  }

  function FastField(f: Field, colon: string): string {
    Quote(f.name) + colon + FastText(f.doc, colon)
  }

  function FastFields(fields: seq<Field>, colon: string): string
    decreases fields, 1
  {
    if fields == [] then "" else FastField(fields[0], colon) + FastMoreFields(fields[1..], colon)
  }

  function FastMoreFields(fields: seq<Field>, colon: string): string
    decreases fields, 0
  {
    if fields == [] then "" else "," + FastField(fields[0], colon) + FastMoreFields(fields[1..], colon)
  }

  /** The members of every object in the tree are in the order of their names. */
  ghost predicate NamesAscend(doc: Doc) {
    match doc
    case Scalar(_) => true
    case List(items) => forall i :: 0 <= i < |items| ==> NamesAscend(items[i])
    case Dict(fields) =>
      (forall i, j :: 0 <= i < j < |fields| ==> NameBefore(fields[i].name, fields[j].name)) &&
      forall i :: 0 <= i < |fields| ==> NamesAscend(fields[i].doc)
  }

  lemma {:induction false} DocAscends(v: Value)
    requires Valid(v)
    ensures NamesAscend(DocOf(v, false))
    decreases Weight(v), 0
  {
    if v.Array? {
      ItemsAscend(v.entries, 0);
    } else if v.Object? {
      FieldsAscend(v.entries);
    }
  }

  lemma {:induction false} ItemsAscend(m: seq<Entry>, i: nat)
    requires forall j :: 0 <= j < |m| ==> Valid(m[j].value)
    ensures forall j :: 0 <= j < |ItemsOf(m, i, false)| ==> NamesAscend(ItemsOf(m, i, false)[j])
    decreases MapWeight(m), ArraySize(m) - i + 1
  {
    hide DocOf, NamesAscend, Current;
    if i < ArraySize(m) {
      CurrentWeight(m, Index(i));
      CurrentValid(m, Index(i));
      DocAscends(Current(m, Index(i)));
      ItemsAscend(m, i + 1);
    }
  }

  lemma {:induction false} FieldsAscend(m: seq<Entry>)
    requires Valid(Object(m))
    ensures NamesAscend(Dict(FieldsOf(m, false)))
    decreases MapWeight(m), 1
  {
    hide DocOf;
    var fields := FieldsOf(m, false);
    forall i | 0 <= i < |m|
      ensures fields[i] == Field(m[i].key.str, DocOf(m[i].value, false)) && NamesAscend(fields[i].doc)
    {
      FieldAt(m, i);
      EntryWeight(m, i);
      DocAscends(m[i].value);
    }
    forall i, j | 0 <= i < j < |m|
      ensures NameBefore(m[i].key.str, m[j].key.str)
    {
      KeyOrder(m[i].key, m[j].key);
    }
  }

  lemma {:induction false} FieldAt(m: seq<Entry>, i: nat)
    requires i < |m|
    ensures FieldsOf(m, false)[i] == Field(PrintedName(m[i].key, false), DocOf(m[i].value, false))
  {
    hide DocOf;
    if i > 0 {
      FieldAt(m[1..], i - 1);
    }
  }

  /** `Value::getMemberNames`. */
  method GetMemberNames(m: seq<Entry>) returns (members: seq<string>)
    requires forall i :: 0 <= i < |m| ==> m[i].key.Name?
    ensures |members| == |m| && forall i :: 0 <= i < |m| ==> m[i].key == Name(members[i])
    ensures Sorted(m) ==> forall i, j :: 0 <= i < j < |m| ==> NameBefore(members[i], members[j])
  {
    members := [];
    for it := 0 to |m|
      invariant |members| == it && forall i :: 0 <= i < it ==> m[i].key == Name(members[i])
    {
      members := members + [m[it].key.str];
    }
    forall i, j | 0 <= i < j < |m| && Sorted(m)
      ensures NameBefore(members[i], members[j])
    {
      KeyOrder(m[i].key, m[j].key);
    }
  }

  /** The text of a scalar. */
  method ScalarToString(v: Value) returns (text: string)
    requires IsScalarValue(v)
    ensures text == ScalarText(v)
  {
    match v {
      case Null => text := "null";
      case Bool(b) => text := if b then "true" else "false";
      case Str(s) => text := ValueToQuotedStringN(s);
      case Int(i) => text := ValueToString(i);
      case UInt(u) => text := ValueToStringUnsigned(u);
    }
  }

  class FastWriter {
    const yamlCompatibilityEnabled_: bool
    const omitEndingLineFeed_: bool
    var document_: string

    constructor (yaml: bool, omitEndingLineFeed: bool)
      ensures yamlCompatibilityEnabled_ == yaml && omitEndingLineFeed_ == omitEndingLineFeed
    {
      yamlCompatibilityEnabled_, omitEndingLineFeed_, document_ := yaml, omitEndingLineFeed, "";
    }

    function Colon(): string {
      if yamlCompatibilityEnabled_ then ": " else ":"
    }

    method Write(root: Value) returns (text: string)
      requires Printable(root)
      modifies this
      ensures text == FastText(DocOf(root, false), if yamlCompatibilityEnabled_ then ": " else ":")
                      + if omitEndingLineFeed_ then "" else "\n"
      ensures NamesAscend(DocOf(root, false))
    {
      DocAscends(root);
      document_ := "";
      WriteValue(root);
      assert document_ == FastText(DocOf(root, false), Colon());
      if !omitEndingLineFeed_ {
        document_ := document_ + "\n";
      }
      text := document_;
    }

    method WriteValue(value: Value)
      requires Printable(value)
      modifies this`document_
      ensures document_ == old(document_) + FastText(DocOf(value, false), Colon())
      decreases Weight(value), 0
    {
      if value.Array? {
        WriteArray(value.entries);
      } else if value.Object? {
        WriteObject(value.entries);
      } else {
        var text := ScalarToString(value);
        document_ := document_ + text;
      }
    }

    method WriteArray(m: seq<Entry>)
      requires Printable(Array(m))
      modifies this`document_
      ensures document_ == old(document_) + FastText(DocOf(Array(m), false), Colon())
      decreases MapWeight(m), ArraySize(m) + 1
    {
      hide FastItems, FastMoreItems, FastText, ItemsOf, DocOf, Current, Valid, RealFree;
      ArrayText(m, Colon());
      document_ := document_ + "[";
      var size := ArraySize(m);
      for index := 0 to size
        invariant document_ + Rest(m, index, Colon()) == old(document_) + "[" + Rest(m, 0, Colon())
      {
        RestStep(m, index, Colon(), document_);
        if index > 0 {
          document_ := document_ + ",";
        }
        CurrentWeight(m, Index(index));
        ElementPrintable(m, index);
        WriteValue(Current(m, Index(index)));
      }
      RestStep(m, size, Colon(), document_);
      assert document_ == old(document_) + "[" + Rest(m, 0, Colon());
      document_ := document_ + "]";
      assert document_ == old(document_) + ("[" + Rest(m, 0, Colon()) + "]");
    }

    method WriteObject(m: seq<Entry>)
      requires Printable(Object(m))
      modifies this`document_
      ensures document_ == old(document_) + FastText(DocOf(Object(m), false), Colon())
      decreases MapWeight(m), 2
    {
      hide FastFields, FastMoreFields, FastText, FastField, FieldsOf, DocOf;
      ObjectText(m, Colon());
      var members := GetMemberNames(m);
      document_ := document_ + "{";
      for it := 0 to |members|
        invariant document_ + RestOfObject(m, it, Colon()) == old(document_) + "{" + RestOfObject(m, 0, Colon())
      {
        RestOfObjectStep(m, it, Colon(), document_);
        if it > 0 {
          document_ := document_ + ",";
        }
        WriteMember(m, it, members[it]);
      }
      RestOfObjectStep(m, |m|, Colon(), document_);
      assert document_ == old(document_) + "{" + RestOfObject(m, 0, Colon());
      document_ := document_ + "}";
      assert document_ == old(document_) + ("{" + RestOfObject(m, 0, Colon()) + "}");
    }

    /** One member: its name, looked up again for its value. */
    method WriteMember(m: seq<Entry>, ghost it: nat, name: string)
      requires Printable(Object(m)) && it < |m| && m[it].key == Name(name)
      modifies this`document_
      ensures document_ == old(document_) + FastField(Field(name, DocOf(m[it].value, false)), Colon())
      decreases MapWeight(m), 1
    {
      hide FastText, DocOf, Find, Quote, Valid, RealFree, KeyLess;
      MemberFound(m, it);
      var quoted := ValueToQuotedStringN(name);
      document_ := document_ + quoted;
      document_ := document_ + (if yamlCompatibilityEnabled_ then ": " else ":");
      WriteValue(Current(m, Name(name)));
      assert document_ == old(document_) + (quoted + Colon() + FastText(DocOf(m[it].value, false), Colon()));
    }
  }

  // ---- The loops of the writer ----

  /** What is still to be printed of an array when the loop has reached `index`. */
  ghost function Rest(m: seq<Entry>, index: nat, colon: string): string {
    if index == 0 then FastItems(ItemsOf(m, 0, false), colon) else FastMoreItems(ItemsOf(m, index, false), colon)
  }

  lemma ArrayText(m: seq<Entry>, colon: string)
    ensures FastText(DocOf(Array(m), false), colon) == "[" + Rest(m, 0, colon) + "]"
  {
  }

  lemma RestStep(m: seq<Entry>, index: nat, colon: string, d: string)
    ensures index >= ArraySize(m) ==> Rest(m, index, colon) == ""
    ensures index < ArraySize(m) ==>
              d + Rest(m, index, colon) ==
              (if index > 0 then d + "," else d) + FastText(DocOf(Current(m, Index(index)), false), colon)
              + Rest(m, index + 1, colon)
  {
    hide FastText, DocOf, ItemsOf, Current, ArraySize;
    var items, rest := ItemsOf(m, index, false), ItemsOf(m, index + 1, false);
    ItemsStep(m, index, false);
    if index < ArraySize(m) {
      assert items[0] == DocOf(Current(m, Index(index)), false) && items[1..] == rest;
      Regroup(d, ",", FastText(items[0], colon), FastMoreItems(rest, colon));
    }
  }

  lemma Regroup(a: string, b: string, c: string, d: string)
    ensures a + (b + c + d) == a + b + c + d && a + (c + d) == a + c + d
  {
  }

  lemma ElementPrintable(m: seq<Entry>, index: nat)
    requires Printable(Array(m))
    ensures Printable(Current(m, Index(index)))
  {
    CurrentPrintable(m, Index(index));
  }

  /** Looking a member up by its name finds it. */
  lemma MemberFound(m: seq<Entry>, it: nat)
    requires Printable(Object(m)) && it < |m|
    ensures Current(m, m[it].key) == m[it].value && Printable(m[it].value) && Weight(m[it].value) < MapWeight(m)
  {
    FindAt(m, m[it].key);
    EntryWeight(m, it);
  }

  /** What is still to be printed of an object when the loop has reached its `it`-th member. */
  ghost function RestOfObject(m: seq<Entry>, it: nat, colon: string): string
    requires it <= |m|
  {
    if it == 0 then FastFields(FieldsOf(m[0..], false), colon) else FastMoreFields(FieldsOf(m[it..], false), colon)
  }

  lemma ObjectText(m: seq<Entry>, colon: string)
    ensures FastText(DocOf(Object(m), false), colon) == "{" + RestOfObject(m, 0, colon) + "}"
  {
    assert m[0..] == m;
  }

  lemma RestOfObjectStep(m: seq<Entry>, it: nat, colon: string, d: string)
    requires it <= |m|
    ensures it == |m| ==> RestOfObject(m, it, colon) == ""
    ensures it < |m| ==>
              d + RestOfObject(m, it, colon) ==
              (if it > 0 then d + "," else d)
              + FastField(Field(PrintedName(m[it].key, false), DocOf(m[it].value, false)), colon)
              + RestOfObject(m, it + 1, colon)
  {
    hide FastField, DocOf, FieldsOf, PrintedName;
    if it < |m| {
      var fields, rest := FieldsOf(m[it..], false), FieldsOf(m[it + 1..], false);
      FieldsStep(m, it, false);
      assert fields[1..] == rest;
      Regroup(d, ",", FastField(fields[0], colon), FastMoreFields(rest, colon));
    } else {
      assert m[it..] == [];
      NoFields();
    }
  }

  lemma NoFields()
    ensures FieldsOf([], false) == []
  {
  }
}
