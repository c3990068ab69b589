/** The loops of pbjson.cpp, proved against the functions of `ProtoJson`. */
module ProtoConvert {
  import opened JsonValue
  import JsonString
  import Base64
  import opened ProtoMessage
  import opened ProtoJson

  /** The text of a bytes field and of a string field, and the other scalars. */
  method ScalarToJson(s: Schema, k: Kind, repeated: bool, d: Datum) returns (json: Json)
    requires DatumTyped(s, k, d) && !k.MessageKind?
    ensures json == ScalarJson(s, k, repeated, d)
  {
    if d.Number? {
      json := IntJson(if k.UInt64Kind? && !repeated then ToInt64(d.i) else d.i);
    } else if d.Floating? {
      json := DoubleJson(d.r);
    } else if d.Flag? {
      json := BoolJson(d.b);
    } else {
      var value := d.s;
      if k.BytesKind? {
        value := Base64.Encode(value);
      }
      json := StringJson(value);
    }
  }

  method Field2Json(s: Schema, m: Message, i: nat) returns (json: Json)
    requires ValidSchema(s) && MessageTyped(s, m) && i < |m.slots|
    requires Fields(s, m)[i].presence.Optional? ==> !m.slots[i].Unset?
    ensures json == FieldJson(s, m, i)
    decreases Size(m), s.rank(m.typeName), 1, 0
  {
    hide MessageJson, ScalarJson, ItemsJson, ValidSchema, ValidType, MessageTyped, DatumTyped;
    SlotCount(s, m);
    var f, slot := Fields(s, m)[i], m.slots[i];
    FieldFacts(s, m, i);
    if f.presence.Repeated? {
      var items := ItemsToJson(s, f.kind, slot.items);
      json := ArrayJson(items);
    } else if f.kind.MessageKind? {
      var value := if slot.One? then slot.d.message else Empty(s, f.kind.typeName);
      json := ParseMsg(s, value);
    } else {
      json := ScalarToJson(s, f.kind, false, if slot.One? then slot.d else f.default);
    }
  }

  /** What is known of one field of a message. */
  lemma FieldFacts(s: Schema, m: Message, i: nat)
    requires ValidSchema(s) && MessageTyped(s, m) && i < |m.slots|
    ensures var f, slot := Fields(s, m)[i], m.slots[i];
            ValidField(s, m.typeName, f) && SlotTyped(s, f, slot) && SlotSize(slot) < Size(m)
    ensures var f, slot := Fields(s, m)[i], m.slots[i];
            slot.One? ==> DatumTyped(s, f.kind, slot.d) && (slot.d.Sub? <==> f.kind.MessageKind?)
    ensures var f, slot := Fields(s, m)[i], m.slots[i];
            slot.One? && slot.d.Sub? ==> MessageTyped(s, slot.d.message) && Size(slot.d.message) < Size(m)
    ensures Fields(s, m)[i].kind.MessageKind? ==>
              Fields(s, m)[i].kind.typeName in s.types && Size(Empty(s, Fields(s, m)[i].kind.typeName)) == 1
  {
    var f, slot := Fields(s, m)[i], m.slots[i];
    assert ValidType(s, m.typeName) && ValidField(s, m.typeName, f) && SlotTyped(s, f, slot);
    SlotIsSmaller(m.slots, i);
    assert slot.One? ==> DatumTyped(s, f.kind, slot.d);
    if f.kind.MessageKind? {
      EmptySize(s, f.kind.typeName);
    }
  }

  /** The loops over the values of a repeated field. */
  method ItemsToJson(s: Schema, k: Kind, items: seq<Datum>) returns (js: seq<Json>)
    requires ValidSchema(s) && forall i :: 0 <= i < |items| ==> DatumTyped(s, k, items[i])
    ensures js == ItemsJson(s, k, items)
    decreases 1 + DatumsSize(items), 0, 0, |items|
  {
    hide MessageJson, ScalarJson, ItemsJson, ValidSchema, DatumTyped;
    js := [];
    assert items[0..] == items;
    for i := 0 to |items|
      invariant js + ItemsJson(s, k, items[i..]) == ItemsJson(s, k, items)
    {
      ItemFacts(s, k, items, i);
      var v;
      if k.MessageKind? {
        v := ParseMsg(s, items[i].message);
      } else {
        v := ScalarToJson(s, k, true, items[i]);
      }
      assert js + ([v] + ItemsJson(s, k, items[i + 1..])) == js + [v] + ItemsJson(s, k, items[i + 1..]);
      js := js + [v];
    }
    assert ItemsJson(s, k, items[|items|..]) == [];
  }

  lemma ItemFacts(s: Schema, k: Kind, items: seq<Datum>, i: nat)
    requires ValidSchema(s) && (forall j :: 0 <= j < |items| ==> DatumTyped(s, k, items[j])) && i < |items|
    ensures items[i].Sub? <==> k.MessageKind?
    ensures items[i].Sub? ==> MessageTyped(s, items[i].message) && Size(items[i].message) <= DatumsSize(items)
    ensures ItemsJson(s, k, items[i..]) ==
            [if items[i].Sub? then MessageJson(s, items[i].message) else ScalarJson(s, k, true, items[i])]
            + ItemsJson(s, k, items[i + 1..])
  {
    hide MessageJson, ScalarJson, ValidSchema;
    assert DatumTyped(s, k, items[i]);
    DatumIsSmaller(items, i);
    assert items[i..][1..] == items[i + 1..];
  }

  method ParseMsg(s: Schema, m: Message) returns (root: Json)
    requires ValidSchema(s) && MessageTyped(s, m)
    ensures root == MessageJson(s, m)
    decreases Size(m), s.rank(m.typeName), 3, 0
  {
    hide FieldJson, MembersJson, ValidSchema, MessageTyped;
    var members: seq<Member> := [];
    var count := |Fields(s, m)|;
    SlotCount(s, m);
    for i := 0 to count
      invariant members + MembersJson(s, m, i) == MembersJson(s, m, 0)
    {
      MembersJsonStep(s, m, i, members);
      var f := Fields(s, m)[i];
      if !(f.presence.Optional? && m.slots[i].Unset?) {
        var json := Field2Json(s, m, i);
        members := members + [Member(f.name, json)];
      }
    }
    MembersJsonStep(s, m, count, members);
    root := ObjectJson(members);
  }

  lemma SlotCount(s: Schema, m: Message)
    requires MessageTyped(s, m)
    ensures |Fields(s, m)| == |m.slots|
  {
  }

  lemma MembersJsonStep(s: Schema, m: Message, i: nat, before: seq<Member>)
    requires ValidSchema(s) && MessageTyped(s, m)
    ensures i >= |m.slots| ==> MembersJson(s, m, i) == []
    ensures i < |m.slots| ==>
              var f := Fields(s, m)[i];
              before + MembersJson(s, m, i) ==
              if f.presence.Optional? && m.slots[i].Unset? then before + MembersJson(s, m, i + 1)
              else before + [Member(f.name, FieldJson(s, m, i))] + MembersJson(s, m, i + 1)
  {
    hide FieldJson, ValidSchema;
  }

  // ---- JSON to messages ----

  /**
   * A message object that is changed through reflection. A nested message is changed in an object of its own, which
   * is stored back where it came from.
   */
  class MessageObject {
    var message: Message

    constructor (m: Message)
      ensures message == m
    {
      message := m;
    }

    /** `AddInt32`, `SetInt32` and their kin. */
    method Store(s: Schema, i: nat, d: Datum)
      requires MessageTyped(s, message) && i < |message.slots| && DatumTyped(s, Fields(s, message)[i].kind, d)
      modifies this
      ensures MessageTyped(s, message) && message == Stored(s, old(message), i, d)
    {
      message := Stored(s, message, i, d);
    }

    /** `ClearField` */
    method ClearField(s: Schema, i: nat)
      requires MessageTyped(s, message) && i < |message.slots|
      modifies this
      ensures MessageTyped(s, message) && message == WithSlot(old(message), i, EmptySlot(Fields(s, old(message))[i]))
    {
      message := WithSlot(message, i, EmptySlot(Fields(s, message)[i]));
    }
  }

  method Json2Field(s: Schema, json: Json, msg: MessageObject, i: nat) returns (exit: Exit)
    requires ValidSchema(s) && MessageTyped(s, msg.message) && i < |msg.message.slots|
    modifies msg
    ensures MessageTyped(s, msg.message) && (exit, msg.message) == ValueInto(s, json, old(msg.message), i)
    decreases json, 3
  {
    hide ParseInto, ScalarRead, ValidSchema, MessageTyped, DatumTyped, Stored;
    SlotCount(s, msg.message);
    var f := Fields(s, msg.message)[i];
    FieldFacts(s, msg.message, i);
    if f.kind.MessageKind? {
      var mf := new MessageObject(Target(s, msg.message, i));
      exit := ParseJson(s, json, mf);
      SubTyped(s, f, mf.message);
      msg.Store(s, i, Sub(mf.message));
    } else {
      ScalarReadTyped(s, msg.message.typeName, f, json);
      var reading := ReadScalar(s, f.kind, json);
      if reading.Got? {
        msg.Store(s, i, reading.d);
        exit := Done;
      } else {
        exit := reading.exit;
      }
    }
  }

  lemma SubTyped(s: Schema, f: FieldDescriptor, m: Message)
    requires f.kind.MessageKind? && m.typeName == f.kind.typeName && MessageTyped(s, m)
    ensures DatumTyped(s, f.kind, Sub(m))
  {
  }

  /** The bytes of a base64 text are decoded by a loop; the other cases only look at the JSON value. */
  method ReadScalar(s: Schema, k: Kind, json: Json) returns (reading: Reading)
    requires !k.MessageKind?
    ensures reading == ScalarRead(s, k, json)
  {
    hide IntegerIn, EnumRead;
    if k.BytesKind? && json.StringJson? {
      var decoding := Base64.Decode(json.s);
      reading := match decoding
        case Decoded(data) => Got(Text(data))
        case Failed(what) => Bad(Threw(what));
    } else {
      reading := ScalarRead(s, k, json);
    }
  }

  method ParseJson(s: Schema, json: Json, msg: MessageObject) returns (exit: Exit)
    requires ValidSchema(s) && MessageTyped(s, msg.message)
    modifies msg
    ensures MessageTyped(s, msg.message) && (exit, msg.message) == ParseInto(s, json, old(msg.message))
    decreases json, 2
  {
    hide MembersInto, MemberInto, ValidSchema, MessageTyped;
    if !json.ObjectJson? {
      return Error(ERR_INVALID_ARG, "");
    }
    assert json.members[0..] == json.members;
    for itr := 0 to |json.members|
      invariant MessageTyped(s, msg.message)
      invariant MembersInto(s, json.members[itr..], msg.message) == MembersInto(s, json.members, old(msg.message))
    {
      MembersStep(s, json.members, itr, msg.message);
      MemberIsSmaller(json, itr);
      exit := ParseMember(s, json.members[itr], msg);
      if exit != Done {
        return;
      }
    }
    exit := Done;
    NoMembers(s, json.members[|json.members|..], msg.message);
  }

  lemma NoMembers(s: Schema, members: seq<Member>, m: Message)
    requires ValidSchema(s) && MessageTyped(s, m) && members == []
    ensures MembersInto(s, members, m) == (Done, m)
  {
  }

  lemma MemberIsSmaller(json: Json, i: nat)
    requires json.ObjectJson? && i < |json.members|
    ensures json.members[i] < json
  {
  }

  lemma MembersStep(s: Schema, members: seq<Member>, i: nat, m: Message)
    requires ValidSchema(s) && MessageTyped(s, m) && i < |members|
    ensures var (exit, n) := MemberInto(s, members[i], m);
            MembersInto(s, members[i..], m) == if exit != Done then (exit, n) else MembersInto(s, members[i + 1..], n)
  {
    hide MemberInto, ValidSchema;
    assert members[i..][1..] == members[i + 1..];
  }

  /** The body of the loop of `parse_json`. */
  method ParseMember(s: Schema, member: Member, msg: MessageObject) returns (exit: Exit)
    requires ValidSchema(s) && MessageTyped(s, msg.message)
    modifies msg
    ensures MessageTyped(s, msg.message) && (exit, msg.message) == MemberInto(s, member, old(msg.message))
    decreases member, 1
  {
    hide ValueInto, ItemsInto, ValidSchema, MessageTyped, SlotTyped;
    SlotCount(s, msg.message);
    var field := FieldIndex(Fields(s, msg.message), JsonString.CString(member.name));
    if field.None? {
      return Done;
    }
    var i := field.value;
    assert member.value < member;
    if member.value.NullJson? {
      msg.ClearField(s, i);
      return Done;
    }
    if Fields(s, msg.message)[i].presence.Repeated? {
      if !member.value.ArrayJson? {
        return Error(ERR_INVALID_JSON, "Not array");
      }
      exit := ParseItems(s, member.value.items, msg, i);
    } else {
      exit := Json2Field(s, member.value, msg, i);
    }
  }

  /** The inner loop of `parse_json`. */
  method ParseItems(s: Schema, items: seq<Json>, msg: MessageObject, i: nat) returns (exit: Exit)
    requires ValidSchema(s) && MessageTyped(s, msg.message) && i < |msg.message.slots|
    modifies msg
    ensures MessageTyped(s, msg.message) && (exit, msg.message) == ItemsInto(s, items, old(msg.message), i)
    decreases items, 4
  {
    hide ItemsInto, ValueInto, ValidSchema, MessageTyped;
    assert items[0..] == items;
    for ait := 0 to |items|
      invariant MessageTyped(s, msg.message) && i < |msg.message.slots|
      invariant ItemsInto(s, items[ait..], msg.message, i) == ItemsInto(s, items, old(msg.message), i)
    {
      ItemsStep(s, items, ait, msg.message, i);
      exit := Json2Field(s, items[ait], msg, i);
      if exit != Done {
        return;
      }
    }
    exit := Done;
    NoItems(s, items[|items|..], msg.message, i);
  }

  lemma NoItems(s: Schema, items: seq<Json>, m: Message, i: nat)
    requires ValidSchema(s) && MessageTyped(s, m) && i < |m.slots| && items == []
    ensures ItemsInto(s, items, m, i) == (Done, m)
  {
  }

  lemma ItemsStep(s: Schema, items: seq<Json>, ait: nat, m: Message, i: nat)
    requires ValidSchema(s) && MessageTyped(s, m) && i < |m.slots| && ait < |items|
    ensures var (exit, n) := ValueInto(s, items[ait], m, i);
            |n.slots| == |m.slots| &&
            ItemsInto(s, items[ait..], m, i) == if exit != Done then (exit, n) else ItemsInto(s, items[ait + 1..], n, i)
  {
    hide ValueInto, ValidSchema;
    assert items[ait..][1..] == items[ait + 1..];
  }
}
