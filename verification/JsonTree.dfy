/** The syntax tree that a writer prints for a value, and the value that reading it back gives. */
module JsonTree {
  import opened JsonValue
  import opened JsonNumber
  import opened JsonString
  import opened JsonLayout

  /**
   * The syntax tree of a value: arrays from 0 up to their size, missing elements as null, objects in key order.
   * A writer that takes names as C strings (`cut`) loses what follows a NUL in them.
   */
  function DocOf(v: Value, cut: bool): Doc
    decreases Weight(v), 0
  {
    match v
    case Array(m) => List(ItemsOf(m, 0, cut))
    case Object(m) => Dict(FieldsOf(m, cut))
    case _ => Scalar(v)
  }

  function ItemsOf(m: seq<Entry>, i: nat, cut: bool): seq<Doc>
    decreases MapWeight(m), ArraySize(m) - i + 1
  {
    if i >= ArraySize(m) then []
    else
      CurrentWeight(m, Index(i));
      [DocOf(Current(m, Index(i)), cut)] + ItemsOf(m, i + 1, cut)
  }

  /** The name under which a member is printed. */
  function PrintedName(k: CZString, cut: bool): string {
    match k
    case Name(s) => if cut then CString(s) else s
    case Index(_) => ""
  }

  function FieldsOf(m: seq<Entry>, cut: bool): (fields: seq<Field>)
    ensures |fields| == |m|
    decreases MapWeight(m), 1
  {
    if m == [] then []
    else [Field(PrintedName(m[0].key, cut), DocOf(m[0].value, cut))] + FieldsOf(m[1..], cut)
  }

  /** No double occurs in the value. */
  ghost predicate RealFree(v: Value) {
    match v
    case Real(_) => false
    case Array(m) => forall i :: 0 <= i < |m| ==> RealFree(m[i].value)
    case Object(m) => forall i :: 0 <= i < |m| ==> RealFree(m[i].value)
    case _ => true
  }

  ghost predicate Printable(v: Value) {
    Valid(v) && RealFree(v)
  }

  ghost predicate PrintableMap(m: seq<Entry>) {
    forall i :: 0 <= i < |m| ==> Printable(m[i].value)
  }

  lemma CurrentPrintable(m: seq<Entry>, k: CZString)
    requires PrintableMap(m)
    ensures Printable(Current(m, k))
  {
  }

  lemma CurrentValid(m: seq<Entry>, k: CZString)
    requires forall i :: 0 <= i < |m| ==> Valid(m[i].value)
    ensures Valid(Current(m, k))
  {
  }

  /** A stored element is found under its index, which lies below the size. */
  lemma StoredElement(m: seq<Entry>, j: nat)
    requires Valid(Array(m)) && j < |m|
    ensures m[j].key.Index? && m[j].key.index < ArraySize(m) && Current(m, m[j].key) == m[j].value
  {
    FindAt(m, m[j].key);
    assert j < |m| - 1 ==> KeyLess(m[j].key, m[|m| - 1].key);
  }

  /** What is found under a key is a stored element, or null. */
  lemma LookedUp(m: seq<Entry>, k: CZString) returns (j: nat)
    ensures Current(m, k) == Null || (j < |m| && Current(m, k) == m[j].value)
  {
    j := LowerBound(m, k);
  }

  lemma {:induction false} PrintableDoc(v: Value, cut: bool)
    requires Printable(v)
    ensures Good(DocOf(v, cut))
    decreases Weight(v), 0
  {
    match v
    case Array(m) => PrintableItems(m, 0, cut);
    case Object(m) => PrintableFields(m, cut);
    case _ =>
  }

  lemma {:induction false} PrintableItems(m: seq<Entry>, i: nat, cut: bool)
    requires PrintableMap(m)
    ensures Good(List(ItemsOf(m, i, cut)))
    decreases MapWeight(m), ArraySize(m) - i + 1
  {
    if i < ArraySize(m) {
      CurrentWeight(m, Index(i));
      CurrentPrintable(m, Index(i));
      PrintableDoc(Current(m, Index(i)), cut);
      PrintableItems(m, i + 1, cut);
    }
  }

  lemma {:induction false} PrintableFields(m: seq<Entry>, cut: bool)
    requires PrintableMap(m)
    ensures Good(Dict(FieldsOf(m, cut)))
    decreases MapWeight(m), 1
  {
    if m != [] {
      PrintableDoc(m[0].value, cut);
      PrintableFields(m[1..], cut);
    }
  }

  lemma ItemsStep(m: seq<Entry>, i: nat, cut: bool)
    ensures i < ArraySize(m) ==> ItemsOf(m, i, cut) == [DocOf(Current(m, Index(i)), cut)] + ItemsOf(m, i + 1, cut)
    ensures i >= ArraySize(m) ==> ItemsOf(m, i, cut) == []
  {
  }

  lemma FieldsStep(m: seq<Entry>, i: nat, cut: bool)
    requires i < |m|
    ensures FieldsOf(m[i..], cut) ==
            [Field(PrintedName(m[i].key, cut), DocOf(m[i].value, cut))] + FieldsOf(m[i + 1..], cut)
  {
    assert m[i..][1..] == m[i + 1..];
  }

  // ---- The value that comes back ----

  /** A value as it is read back: integers tagged by size, and the gaps of arrays filled with null. */
  function Normal(v: Value): Value
    decreases Weight(v), 0
  {
    match v
    case Array(m) => Array(NormalItems(m, 0))
    case Object(m) => Object(NormalFields(m))
    case _ => Retagged(v)
  }

  function NormalItems(m: seq<Entry>, i: nat): seq<Entry>
    decreases MapWeight(m), ArraySize(m) - i + 1
  {
    if i >= ArraySize(m) then []
    else
      CurrentWeight(m, Index(i));
      [Entry(Index(i), Normal(Current(m, Index(i))))] + NormalItems(m, i + 1)
  }

  function NormalFields(m: seq<Entry>): (n: seq<Entry>)
    ensures |n| == |m|
    ensures forall i :: 0 <= i < |m| ==> n[i].key == m[i].key
    decreases MapWeight(m), 1
  {
    if m == [] then [] else [Entry(m[0].key, Normal(m[0].value))] + NormalFields(m[1..])
  }

  lemma {:induction false} MeaningIsNormal(v: Value)
    requires Valid(v)
    ensures Meaning(DocOf(v, false)) == Normal(v)
    decreases Weight(v), 0
  {
    match v
    case Array(m) => MeaningOfItems([], m, 0);
    case Object(m) =>
      assert AllBelow([], m);
      MeaningOfFields([], m);
    case _ =>
  }

  lemma FirstItem(acc: seq<Entry>, m: seq<Entry>, i: nat)
    requires i < ArraySize(m)
    ensures var v := Current(m, Index(i));
            WithItems(acc, i, ItemsOf(m, i, false)) ==
            WithItems(Put(acc, Index(i), Meaning(DocOf(v, false))), i + 1, ItemsOf(m, i + 1, false))
    ensures acc + NormalItems(m, i) ==
            acc + [Entry(Index(i), Normal(Current(m, Index(i))))] + NormalItems(m, i + 1)
  {
    hide Put, DocOf, Meaning, Normal, Current;
    assert ItemsOf(m, i, false)[1..] == ItemsOf(m, i + 1, false);
  }

  lemma {:induction false} MeaningOfItems(acc: seq<Entry>, m: seq<Entry>, i: nat)
    requires forall j :: 0 <= j < |m| ==> Valid(m[j].value)
    requires forall j :: 0 <= j < |acc| ==> KeyLess(acc[j].key, Index(i))
    ensures WithItems(acc, i, ItemsOf(m, i, false)) == acc + NormalItems(m, i)
    decreases MapWeight(m), ArraySize(m) - i + 1
  {
    hide Put, Find, LowerBound, DocOf, Normal, Meaning, Current, Retagged, Valid;
    if i < ArraySize(m) {
      var v := Current(m, Index(i));
      CurrentWeight(m, Index(i));
      CurrentValid(m, Index(i));
      MeaningIsNormal(v);
      hide WithItems, ItemsOf, NormalItems;
      FirstItem(acc, m, i);
      PutAppends(acc, Index(i), Normal(v));
      MeaningOfItems(acc + [Entry(Index(i), Normal(v))], m, i + 1);
    }
  }

  ghost predicate AllBelow(acc: seq<Entry>, m: seq<Entry>) {
    forall i, j :: 0 <= i < |acc| && 0 <= j < |m| ==> KeyLess(acc[i].key, m[j].key)
  }

  lemma AllBelowTail(acc: seq<Entry>, m: seq<Entry>, e: Entry)
    requires Valid(Object(m)) && AllBelow(acc, m) && m != [] && e.key == m[0].key
    ensures m[0].key.Name? && Valid(m[0].value) && Valid(Object(m[1..])) && AllBelow(acc + [e], m[1..])
    ensures forall i :: 0 <= i < |acc| ==> KeyLess(acc[i].key, m[0].key)
  {
  }

  lemma FirstField(acc: seq<Entry>, m: seq<Entry>)
    requires m != [] && m[0].key.Name?
    ensures var e := Entry(m[0].key, Meaning(DocOf(m[0].value, false)));
            WithFields(acc, FieldsOf(m, false)) == WithFields(Put(acc, e.key, e.value), FieldsOf(m[1..], false))
  {
    hide Put, DocOf, Meaning;
    assert FieldsOf(m, false)[1..] == FieldsOf(m[1..], false);
  }

  lemma FirstNormalField(acc: seq<Entry>, m: seq<Entry>)
    requires m != []
    ensures acc + NormalFields(m) == acc + [Entry(m[0].key, Normal(m[0].value))] + NormalFields(m[1..])
  {
    hide Normal;
  }

  lemma {:induction false} MeaningOfFields(acc: seq<Entry>, m: seq<Entry>)
    requires Valid(Object(m)) && AllBelow(acc, m)
    ensures WithFields(acc, FieldsOf(m, false)) == acc + NormalFields(m)
    decreases MapWeight(m), 1
  {
    hide Put, LowerBound, KeyLess, DocOf, Normal, Meaning, Valid, AllBelow;
    if m != [] {
      hide WithFields, FieldsOf, NormalFields;
      var e := Entry(m[0].key, Normal(m[0].value));
      AllBelowTail(acc, m, e);
      MeaningIsNormal(m[0].value);
      FirstField(acc, m);
      PutAppends(acc, m[0].key, e.value);
      MeaningOfFields(acc + [e], m[1..]);
      FirstNormalField(acc, m);
    }
  }
}
