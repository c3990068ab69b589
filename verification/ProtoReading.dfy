/**
 * What JSON values mean for the fields of a message, apart from how they are printed: reading takes every JSON value
 * that means something for its field and no other, also those that printing never writes.
 */
module ProtoReading {
  import opened JsonValue
  import JsonString
  import Base64
  import opened ProtoMessage
  import opened ProtoJson
  import opened ProtoConvert

  // ---- Scalars ----

  /** The first value declared under the name has the number. */
  ghost predicate Declared(values: seq<EnumValue>, name: string, number: int) {
    exists j ::
      0 <= j < |values| && values[j].name == name && values[j].number == number &&
      forall l :: 0 <= l < j ==> values[l].name != name
  }

  ghost predicate IntegerMeans(json: Json, d: Datum, low: int, high: int) {
    json.IntJson? && low <= json.i <= high && d == Number(json.i)
  }

  /**
   * The JSON value means the datum for a field of kind `k`: an integer within the range of the field, a number, a
   * truth value, a text, the base64 text of bytes, the number of an enum value, or its name up to a NUL.
   */
  ghost predicate Means(s: Schema, k: Kind, json: Json, d: Datum)
    requires !k.MessageKind?
  {
    match k
    case Int32Kind => IntegerMeans(json, d, -0x8000_0000, 0x7FFF_FFFF)
    case UInt32Kind => IntegerMeans(json, d, 0, 0xFFFF_FFFF)
    case Int64Kind => IntegerMeans(json, d, -0x8000_0000_0000_0000, 0x7FFF_FFFF_FFFF_FFFF)
    case UInt64Kind => IntegerMeans(json, d, 0, 0xFFFF_FFFF_FFFF_FFFF)
    case DoubleKind =>
      (json.DoubleJson? && d == Floating(json.r)) || (json.IntJson? && d == Floating(s.ofInt(json.i)))
    case FloatKind =>
      (json.DoubleJson? && d == Floating(s.toFloat(json.r))) ||
      (json.IntJson? && d == Floating(s.toFloat(s.ofInt(json.i))))
    case BoolKind => json.BoolJson? && d == Flag(json.b)
    case StringKind => json.StringJson? && d == Text(json.s)
    case BytesKind =>
      json.StringJson? && Base64.Accepted(json.s) && d == Text(Base64.Unlettered(json.s))
    case EnumKind(values) =>
      d.Number? &&
      ((IntegerMeans(json, d, -0x8000_0000, 0x7FFF_FFFF) && exists j :: 0 <= j < |values| && values[j].number == d.i) ||
       (json.StringJson? && Declared(values, JsonString.CString(json.s), d.i)))
  }

  lemma DeclaredFirst(values: seq<EnumValue>, name: string, number: int)
    requires values != []
    ensures Declared(values, name, number) <==>
            if values[0].name == name then values[0].number == number else Declared(values[1..], name, number)
  {
    var rest := values[1..];
    assert forall l :: 0 <= l < |rest| ==> rest[l] == values[l + 1];
    if Declared(rest, name, number) && values[0].name != name {
      var j :|
        0 <= j < |rest| && rest[j].name == name && rest[j].number == number &&
        forall l :: 0 <= l < j ==> rest[l].name != name;
      assert values[j + 1] == rest[j];
      assert forall l :: 0 < l < j + 1 ==> values[l] == rest[l - 1];
    }
    if Declared(values, name, number) && values[0].name != name {
      var j :|
        0 <= j < |values| && values[j].name == name && values[j].number == number &&
        forall l :: 0 <= l < j ==> values[l].name != name;
      assert rest[j - 1] == values[j];
    }
  }

  lemma {:induction false} ByNameFinds(values: seq<EnumValue>, name: string, number: int)
    ensures (ByName(values, name).Some? && ByName(values, name).value.number == number) <==>
            Declared(values, name, number)
  {
    if values != [] {
      hide Declared;
      DeclaredFirst(values, name, number);
      ByNameFinds(values[1..], name, number);
    }
  }

  lemma ByNumberFinds(values: seq<EnumValue>, number: int)
    ensures ByNumber(values, number).Some? <==> exists j :: 0 <= j < |values| && values[j].number == number
  {
  }

  /** Reading ends well exactly when the JSON value means something, and stores what it means. */
  lemma ReadsMeaning(s: Schema, k: Kind, json: Json, d: Datum)
    requires !k.MessageKind?
    ensures ScalarRead(s, k, json) == Got(d) <==> Means(s, k, json, d)
  {
    if k.BytesKind? && json.StringJson? {
      Base64.DecodesAccepted(json.s);
    } else if k.EnumKind? && json.StringJson? {
      if d.Number? {
        ByNameFinds(k.values, JsonString.CString(json.s), d.i);
      }
    } else if k.EnumKind? && json.IntJson? {
      ByNumberFinds(k.values, json.i);
    }
  }

  function Complaint(d: Base64.Decoding): string {
    match d
    case Failed(what) => what
    case Decoded(_) => ""
  }

  predicate IsIntegral(k: Kind) {
    k.Int32Kind? || k.UInt32Kind? || k.Int64Kind? || k.UInt64Kind?
  }

  /** What is said of a JSON value of the wrong kind. */
  function WrongKind(k: Kind): string {
    match k
    case BoolKind => "Not a bool"
    case StringKind => "Not a string"
    case BytesKind => "Not a string"
    case EnumKind(_) => "Not an integer or string"
    case _ => "Not a number"
  }

  predicate RightKind(k: Kind, json: Json) {
    match k
    case BoolKind => json.BoolJson?
    case StringKind => json.StringJson?
    case BytesKind => json.StringJson?
    case EnumKind(_) => IsNumber(json) || json.StringJson?
    case _ => IsNumber(json)
  }

  /**
   * How it ends otherwise: with an error for a value of the wrong kind or an unknown enum value, with a failed
   * assertion for a number that is no integer in the range, or with the exception for what is no base64 text.
   */
  lemma RefusesOthers(s: Schema, k: Kind, json: Json)
    requires !k.MessageKind? && forall d :: !Means(s, k, json, d)
    ensures ScalarRead(s, k, json) ==
            Bad(if !RightKind(k, json) then Error(-4, WrongKind(k))
                else if k.BytesKind? then Threw(Complaint(Base64.TextDecoded(json.s)))
                else if IsIntegral(k) || (IsNumber(json) && !(json.IntJson? && MIN_INT32 <= json.i <= MAX_INT))
                then Aborted
                else Error(-4, "Enum value not found"))
  {
    var r := ScalarRead(s, k, json);
    if r.Got? {
      ReadsMeaning(s, k, json, r.d);
    }
  }

  /** How a value is printed; an unsigned 64-bit integer of a single field that is 2^63 or more loses 2^64. */
  lemma PrintedForm(s: Schema, k: Kind, repeated: bool, d: Datum)
    requires DatumTyped(s, k, d) && !k.MessageKind?
    ensures var json := ScalarJson(s, k, repeated, d);
            match d
            case Number(i) =>
              var wraps := k.UInt64Kind? && !repeated && i >= 0x8000_0000_0000_0000;
              json == IntJson(if wraps then i - 0x1_0000_0000_0000_0000 else i)
            case Floating(r) => json == DoubleJson(r)
            case Flag(b) => json == BoolJson(b)
            case Text(t) =>
              json.StringJson? &&
              if k.StringKind? then json.s == t
              else |json.s| == (|t| + 2) / 3 * 4 && Base64.Accepted(json.s) && Base64.Unlettered(json.s) == t
  {
    if k.BytesKind? {
      Base64.DecodeUndoesEncode(d.s);
    }
  }

  // ---- Printing ----

  /** The fields that are printed: all but the optional ones that are absent, in the order of the descriptor. */
  function Printed(s: Schema, m: Message, i: nat): (ps: seq<nat>)
    requires MessageTyped(s, m)
    ensures forall j :: 0 <= j < |ps| ==> i <= ps[j] < |m.slots|
    decreases |m.slots| - i
  {
    if i >= |m.slots| then []
    else (if Fields(s, m)[i].presence.Optional? && m.slots[i].Unset? then [] else [i]) + Printed(s, m, i + 1)
  }

  lemma {:induction false} PrintedAre(s: Schema, m: Message, i: nat, k: nat)
    requires MessageTyped(s, m) && k < |m.slots|
    ensures k in Printed(s, m, i) <==> i <= k && !(Fields(s, m)[k].presence.Optional? && m.slots[k].Unset?)
    ensures forall a, b :: 0 <= a < b < |Printed(s, m, i)| ==> Printed(s, m, i)[a] < Printed(s, m, i)[b]
    decreases |m.slots| - i
  {
    hide MessageTyped;
    if i < |m.slots| {
      PrintedAre(s, m, i + 1, k);
    }
  }

  /** Each of them has a member, in this order, with its name. */
  lemma {:induction false} MembersAre(s: Schema, m: Message, i: nat)
    requires ValidSchema(s) && MessageTyped(s, m)
    ensures var ps, members := Printed(s, m, i), MembersJson(s, m, i);
            |members| == |ps| &&
            forall j :: 0 <= j < |ps| ==>
                          var k := ps[j];
                          !(Fields(s, m)[k].presence.Optional? && m.slots[k].Unset?) &&
                          members[j] == Member(Fields(s, m)[k].name, FieldJson(s, m, k))
    decreases |m.slots| - i
  {
    hide FieldJson, ValidSchema, MessageTyped;
    SlotCount(s, m);
    if i < |m.slots| {
      MembersAre(s, m, i + 1);
      MembersJsonStep(s, m, i, []);
      assert [] + MembersJson(s, m, i) == MembersJson(s, m, i);
      assert [] + MembersJson(s, m, i + 1) == MembersJson(s, m, i + 1);
    }
  }

  /** A required field that is absent is printed as if it held its default, or the empty message. */
  lemma AbsentShowsDefault(s: Schema, m: Message, i: nat)
    requires ValidSchema(s) && MessageTyped(s, m) && i < |m.slots|
    requires m.slots[i].Unset? && Fields(s, m)[i].presence.Required?
    ensures var f := Fields(s, m)[i];
            f.kind.MessageKind? ==> f.kind.typeName in s.types
    ensures var f := Fields(s, m)[i];
            var d := if f.kind.MessageKind? then Sub(Empty(s, f.kind.typeName)) else f.default;
            var n := WithSlot(m, i, One(d));
            MessageTyped(s, n) && FieldJson(s, m, i) == FieldJson(s, n, i)
  {
    SlotCount(s, m);
    FieldFacts(s, m, i);
  }

  // ---- Fields ----

  /** Null clears a field, whatever it held, and a member whose name is that of no field changes nothing. */
  lemma NullClears(s: Schema, name: string, json: Json, m: Message)
    requires ValidSchema(s) && MessageTyped(s, m)
    ensures (forall i :: 0 <= i < |m.slots| ==> Fields(s, m)[i].name != JsonString.CString(name)) ==>
              MemberInto(s, Member(name, json), m) == (Done, m)
    ensures forall i :: 0 <= i < |m.slots| && Fields(s, m)[i].name == JsonString.CString(name) ==>
              MemberInto(s, Member(name, NullJson), m) ==
              (Done, WithSlot(m, i, if Fields(s, m)[i].presence.Repeated? then Many([]) else Unset))
  {
    SlotCount(s, m);
    var cname := JsonString.CString(name);
    forall i | 0 <= i < |m.slots| && Fields(s, m)[i].name == cname
      ensures FieldIndex(Fields(s, m), cname) == Some(i)
    {
      OneFieldEach(s, m, i);
    }
  }

  /** No two fields share a name. */
  lemma OneFieldEach(s: Schema, m: Message, i: nat)
    requires ValidSchema(s) && MessageTyped(s, m) && i < |m.slots|
    ensures FieldIndex(Fields(s, m), Fields(s, m)[i].name) == Some(i)
  {
    assert ValidType(s, m.typeName);
    var r := FieldIndex(Fields(s, m), Fields(s, m)[i].name);
  }

  /** The slot of a field after a value is added to it, or set. */
  function Grown(slot: Slot, d: Datum): Slot {
    if slot.Many? then Many(slot.items + [d]) else One(d)
  }

  /** A value that means something is set, or added to a repeated field; any other leaves the message alone. */
  lemma ValueMeans(s: Schema, json: Json, m: Message, i: nat, d: Datum)
    requires ValidSchema(s) && MessageTyped(s, m) && i < |m.slots| && !Fields(s, m)[i].kind.MessageKind?
    ensures Means(s, Fields(s, m)[i].kind, json, d) ==>
              ValueInto(s, json, m, i) == (Done, WithSlot(m, i, Grown(m.slots[i], d)))
    ensures (forall d :: !Means(s, Fields(s, m)[i].kind, json, d)) ==>
              ValueInto(s, json, m, i).0 != Done && ValueInto(s, json, m, i).1 == m
  {
    SlotCount(s, m);
    FieldFacts(s, m, i);
    var f := Fields(s, m)[i];
    ReadsMeaning(s, f.kind, json, d);
    var r := ScalarRead(s, f.kind, json);
    if r.Got? {
      ReadsMeaning(s, f.kind, json, r.d);
    }
  }

  /** The values `ds` are what the first JSON values mean, and the next one, if any, means nothing. */
  ghost predicate MeansList(s: Schema, k: Kind, items: seq<Json>, ds: seq<Datum>)
    requires !k.MessageKind?
  {
    |ds| <= |items| && (forall j :: 0 <= j < |ds| ==> Means(s, k, items[j], ds[j])) &&
    (|ds| < |items| ==> forall d :: !Means(s, k, items[|ds|], d))
  }

  /** A repeated field gets the values of the array in order, up to the first one that means nothing. */
  lemma {:induction false} ItemsMean(s: Schema, items: seq<Json>, m: Message, i: nat, ds: seq<Datum>)
    requires ValidSchema(s) && MessageTyped(s, m) && i < |m.slots| && m.slots[i].Many?
    requires !Fields(s, m)[i].kind.MessageKind? && MeansList(s, Fields(s, m)[i].kind, items, ds)
    ensures var (exit, n) := ItemsInto(s, items, m, i);
            (exit == Done <==> |ds| == |items|) && n == WithSlot(m, i, Many(m.slots[i].items + ds))
    decreases |items|
  {
    hide ValueInto, ItemsInto, ValidSchema, MessageTyped, Means;
    SlotCount(s, m);
    var k := Fields(s, m)[i].kind;
    if items == [] {
      NoItems(s, items, m, i);
      assert m.slots[i].items + ds == m.slots[i].items;
    } else {
      assert items[0..] == items;
      ItemsStep(s, items, 0, m, i);
      var (exit, n) := ValueInto(s, items[0], m, i);
      if ds == [] {
        ValueMeans(s, items[0], m, i, Flag(true));
        assert m.slots[i].items + ds == m.slots[i].items;
      } else {
        ValueMeans(s, items[0], m, i, ds[0]);
        assert items[1..][|ds| - 1..] == items[|ds|..];
        ItemsMean(s, items[1..], n, i, ds[1..]);
        assert m.slots[i].items + [ds[0]] + ds[1..] == m.slots[i].items + ds;
      }
    }
  }

  /** Only an array is read into a repeated field, and only an object into a message. */
  lemma WrongShape(s: Schema, name: string, json: Json, m: Message, i: nat)
    requires ValidSchema(s) && MessageTyped(s, m) && i < |m.slots|
    requires Fields(s, m)[i].name == JsonString.CString(name) && !json.NullJson?
    ensures !json.ObjectJson? ==> ParseInto(s, json, m) == (Error(-1, ""), m)
    ensures Fields(s, m)[i].presence.Repeated? && !json.ArrayJson? ==>
              MemberInto(s, Member(name, json), m) == (Error(-4, "Not array"), m)
  {
    OneFieldEach(s, m, i);
  }

  // ---- Objects ----

  /** Members are read one after the other: reading two objects in turn is reading their members in one. */
  lemma {:induction false} MembersInTurn(s: Schema, a: seq<Member>, b: seq<Member>, m: Message)
    requires ValidSchema(s) && MessageTyped(s, m)
    ensures var (exit, n) := ParseInto(s, ObjectJson(a), m);
            ParseInto(s, ObjectJson(a + b), m) == if exit == Done then ParseInto(s, ObjectJson(b), n) else (exit, n)
    decreases |a|
  {
    hide MemberInto, ValidSchema, MessageTyped;
    if a == [] {
      assert a + b == b;
    } else {
      assert (a + b)[1..] == a[1..] + b;
      var (exit, n) := MemberInto(s, a[0], m);
      if exit == Done {
        MembersInTurn(s, a[1..], b, n);
      }
    }
  }

  /**
   * The same inside a message that a single field holds: an object adds to it, and keeps what it does not name. It
   * starts from the empty message when the field is absent, and always in a repeated field.
   */
  lemma SubMessageMerged(s: Schema, a: seq<Member>, b: seq<Member>, m: Message, i: nat)
    requires ValidSchema(s) && MessageTyped(s, m) && i < |m.slots|
    requires Fields(s, m)[i].kind.MessageKind? && !Fields(s, m)[i].presence.Repeated?
    ensures m.slots[i].One? ==> ValueInto(s, ObjectJson([]), m, i) == (Done, m)
    ensures var (exit, n) := ValueInto(s, ObjectJson(a), m, i);
            ValueInto(s, ObjectJson(a + b), m, i) ==
            if exit == Done then ValueInto(s, ObjectJson(b), n, i) else (exit, n)
  {
    SlotCount(s, m);
    FieldFacts(s, m, i);
    var t := Target(s, m, i);
    MembersInTurn(s, a, b, t);
    assert WithSlot(m, i, m.slots[i]) == m;
    hide ParseInto, ValidSchema;
    var (exit, sub) := ParseInto(s, ObjectJson(a), t);
    SubTyped(s, Fields(s, m)[i], sub);
    var n := ValueInto(s, ObjectJson(a), m, i).1;
    assert n == WithSlot(m, i, One(Sub(sub)));
    SetTwice(m.slots, i, One(Sub(sub)), One(Sub(ParseInto(s, ObjectJson(b), sub).1)));
    assert Target(s, n, i) == sub;
  }

  lemma SetTwice(slots: seq<Slot>, i: nat, x: Slot, y: Slot)
    requires i < |slots|
    ensures slots[i := x][i := y] == slots[i := y]
  {
  }

  lemma NewMessage(s: Schema, m: Message, i: nat)
    requires ValidSchema(s) && MessageTyped(s, m) && i < |m.slots| && Fields(s, m)[i].kind.MessageKind?
    requires Fields(s, m)[i].presence.Repeated? || m.slots[i].Unset?
    ensures Fields(s, m)[i].kind.typeName in s.types &&
            ValueInto(s, ObjectJson([]), m, i) ==
            (Done, WithSlot(m, i, Grown(m.slots[i], Sub(Empty(s, Fields(s, m)[i].kind.typeName)))))
  {
    SlotCount(s, m);
    FieldFacts(s, m, i);
  }
}
