/**
 * The conversion between protocol buffer messages and JSON trees of pbjson.cpp: `field2json` and `parse_msg` one way,
 * `json2field` and `parse_json` the other. These functions are what the methods of `ProtoConvert` are proved against.
 */
module ProtoJson {
  import opened JsonValue
  import JsonString
  import Base64
  import opened ProtoMessage

  /** A JSON tree. A number holds a 64-bit integer, signed or unsigned, or a double. */
  datatype Json =
    | NullJson
    | BoolJson(b: bool)
    | IntJson(i: int)
    | DoubleJson(r: real)
    | StringJson(s: string)
    | ArrayJson(items: seq<Json>)
    | ObjectJson(members: seq<Member>)

  datatype Member = Member(name: string, value: Json)

  const ERR_INVALID_ARG := -1
  const ERR_INVALID_JSON := -4

  /**
   * How a call ends: it returns 0, or an error code and its cause, which is empty where the source sets none; an
   * assertion about the kind of a number fails; or `b64_decode` throws.
   */
  datatype Exit = Done | Error(code: int, cause: string) | Aborted | Threw(what: string)

  predicate IsNumber(json: Json) {
    json.IntJson? || json.DoubleJson?
  }

  // ---- Messages to JSON ----

  /** The JSON number for an unsigned 64-bit integer that is cast to a signed one. */
  function ToInt64(u: int): int {
    if u > MAX_INT64 then u - 0x1_0000_0000_0000_0000 else u
  }

  /** The JSON for a value that is no message. A single unsigned 64-bit integer is cast, repeated ones are not. */
  function ScalarJson(s: Schema, k: Kind, repeated: bool, d: Datum): Json
    requires DatumTyped(s, k, d) && !k.MessageKind?
  {
    match d
    case Number(i) => IntJson(if k.UInt64Kind? && !repeated then ToInt64(i) else i)
    case Floating(r) => DoubleJson(r)
    case Flag(b) => BoolJson(b)
    case Text(t) => StringJson(if k.BytesKind? then Base64.Encoded(t) else t)
  }

  /** `parse_msg` */
  function MessageJson(s: Schema, m: Message): Json
    requires ValidSchema(s) && MessageTyped(s, m)
    decreases Size(m), s.rank(m.typeName), 3, 0
  {
    ObjectJson(MembersJson(s, m, 0))
  }

  /** The members for the fields from `i` on. An optional field that is absent has none. */
  function MembersJson(s: Schema, m: Message, i: nat): seq<Member>
    requires ValidSchema(s) && MessageTyped(s, m)
    decreases Size(m), s.rank(m.typeName), 2, |m.slots| - i
  {
    if i >= |m.slots| then []
    else
      var f := s.types[m.typeName][i];
      if f.presence.Optional? && m.slots[i].Unset? then MembersJson(s, m, i + 1)
      else [Member(f.name, FieldJson(s, m, i))] + MembersJson(s, m, i + 1)
  }

  /** `field2json`. A required field that is absent shows its default. */
  function FieldJson(s: Schema, m: Message, i: nat): Json
    requires ValidSchema(s) && MessageTyped(s, m) && i < |m.slots|
    requires s.types[m.typeName][i].presence.Optional? ==> !m.slots[i].Unset?
    decreases Size(m), s.rank(m.typeName), 1, 0
  {
    var f, slot := s.types[m.typeName][i], m.slots[i];
    assert ValidType(s, m.typeName) && ValidField(s, m.typeName, f) && SlotTyped(s, f, slot);
    SlotIsSmaller(m.slots, i);
    match slot
    case Many(items) => ArrayJson(ItemsJson(s, f.kind, items))
    case One(d) =>
      assert DatumTyped(s, f.kind, d);
      if d.Sub? then MessageJson(s, d.message) else ScalarJson(s, f.kind, false, d)
    case Unset =>
      if f.kind.MessageKind? then
        EmptySize(s, f.kind.typeName);
        MessageJson(s, Empty(s, f.kind.typeName))
      else ScalarJson(s, f.kind, false, f.default)
  }

  /** The values of a repeated field. */
  function ItemsJson(s: Schema, k: Kind, items: seq<Datum>): (js: seq<Json>)
    requires ValidSchema(s) && forall i :: 0 <= i < |items| ==> DatumTyped(s, k, items[i])
    ensures |js| == |items|
    decreases 1 + DatumsSize(items), 0, 0, |items|
  {
    if items == [] then []
    else
      assert DatumTyped(s, k, items[0]);
      DatumIsSmaller(items, 0);
      [if items[0].Sub? then MessageJson(s, items[0].message) else ScalarJson(s, k, true, items[0])]
      + ItemsJson(s, k, items[1..])
  }

  // ---- JSON to messages ----

  /** A value that was read, or how reading it ended the call. */
  datatype Reading = Got(d: Datum) | Bad(exit: Exit)

  function InvalidJson(cause: string): Reading {
    Bad(Error(ERR_INVALID_JSON, cause))
  }

  /** `GetInt` and its kin: an assertion fails unless the number is an integer in the range. */
  function IntegerIn(json: Json, low: int, high: int): (r: Reading)
    ensures r.Got? ==> r.d.Number? && low <= r.d.i <= high
  {
    if !IsNumber(json) then InvalidJson("Not a number")
    else if json.IntJson? && low <= json.i <= high then Got(Number(json.i))
    else Bad(Aborted)
  }

  function ByNumber(values: seq<EnumValue>, number: int): (r: Option<EnumValue>)
    ensures r.Some? ==> r.value in values && r.value.number == number
    ensures r.None? ==> number !in Numbers(values)
  {
    if values == [] then None else if values[0].number == number then Some(values[0]) else ByNumber(values[1..], number)
  }

  function ByName(values: seq<EnumValue>, name: string): (r: Option<EnumValue>)
    ensures r.Some? ==> r.value in values && r.value.name == name
  {
    if values == [] then None else if values[0].name == name then Some(values[0]) else ByName(values[1..], name)
  }

  /** An enum value by its number or by its name, which is taken as a C string. */
  function EnumRead(values: seq<EnumValue>, json: Json): Reading {
    if IsNumber(json) && !(json.IntJson? && MIN_INT32 <= json.i <= MAX_INT) then Bad(Aborted)
    else if !IsNumber(json) && !json.StringJson? then InvalidJson("Not an integer or string")
    else
      match if json.IntJson? then ByNumber(values, json.i) else ByName(values, JsonString.CString(json.s))
      case Some(v) => Got(Number(v.number))
      case None => InvalidJson("Enum value not found")
  }

  /** The cases of `json2field` for a field that is no message. */
  function ScalarRead(s: Schema, k: Kind, json: Json): (r: Reading)
    requires !k.MessageKind?
    ensures r.Bad? ==> r.exit != Done
  {
    match k
    case Int32Kind => IntegerIn(json, MIN_INT32, MAX_INT)
    case UInt32Kind => IntegerIn(json, 0, MAX_UINT32)
    case Int64Kind => IntegerIn(json, MIN_INT64, MAX_INT64)
    case UInt64Kind => IntegerIn(json, 0, MAX_UINT64)
    case DoubleKind =>
      if !IsNumber(json) then InvalidJson("Not a number")
      else Got(Floating(if json.IntJson? then s.ofInt(json.i) else json.r))
    case FloatKind =>
      if !IsNumber(json) then InvalidJson("Not a number")
      else Got(Floating(s.toFloat(if json.IntJson? then s.ofInt(json.i) else json.r)))
    case BoolKind => if json.BoolJson? then Got(Flag(json.b)) else InvalidJson("Not a bool")
    case StringKind => if json.StringJson? then Got(Text(json.s)) else InvalidJson("Not a string")
    case BytesKind =>
      if !json.StringJson? then InvalidJson("Not a string")
      else
        (match Base64.TextDecoded(json.s)
         case Decoded(data) => Got(Text(data))
         case Failed(what) => Bad(Threw(what)))
    case EnumKind(values) => EnumRead(values, json)
  }

  lemma ScalarReadTyped(s: Schema, t: string, f: FieldDescriptor, json: Json)
    requires ValidSchema(s) && ValidField(s, t, f) && !f.kind.MessageKind?
    ensures ScalarRead(s, f.kind, json).Got? ==> DatumTyped(s, f.kind, ScalarRead(s, f.kind, json).d)
  {
  }

  function Fields(s: Schema, m: Message): seq<FieldDescriptor>
    requires MessageTyped(s, m)
  {
    s.types[m.typeName]
  }

  /** The message with slot `i` holding `slot`. */
  function WithSlot(m: Message, i: nat, slot: Slot): Message
    requires i < |m.slots|
  {
    m.(slots := m.slots[i := slot])
  }

  /** Adding a value to a repeated field, or setting a single one. */
  function Stored(s: Schema, m: Message, i: nat, d: Datum): (r: Message)
    requires MessageTyped(s, m) && i < |m.slots| && DatumTyped(s, Fields(s, m)[i].kind, d)
    ensures MessageTyped(s, r) && r.typeName == m.typeName
    ensures forall k :: 0 <= k < |m.slots| && k != i ==> r.slots[k] == m.slots[k]
  {
    assert SlotTyped(s, Fields(s, m)[i], m.slots[i]);
    WithSlot(m, i, if m.slots[i].Many? then Many(m.slots[i].items + [d]) else One(d))
  }

  /** `FindFieldByName` */
  function FieldIndex(fields: seq<FieldDescriptor>, name: string): (r: Option<nat>)
    ensures r.Some? ==> r.value < |fields| && fields[r.value].name == name
    ensures r.None? ==> forall i :: 0 <= i < |fields| ==> fields[i].name != name
  {
    if fields == [] then None
    else if fields[0].name == name then Some(0)
    else
      match FieldIndex(fields[1..], name)
      case Some(i) => Some(i + 1)
      case None => None
  }

  /** `parse_json`: how it ends, and the message it leaves. */
  function ParseInto(s: Schema, json: Json, m: Message): (r: (Exit, Message))
    requires ValidSchema(s) && MessageTyped(s, m)
    ensures MessageTyped(s, r.1) && r.1.typeName == m.typeName
    decreases json, 2
  {
    if !json.ObjectJson? then (Error(ERR_INVALID_ARG, ""), m) else MembersInto(s, json.members, m)
  }

  function MembersInto(s: Schema, members: seq<Member>, m: Message): (r: (Exit, Message))
    requires ValidSchema(s) && MessageTyped(s, m)
    ensures MessageTyped(s, r.1) && r.1.typeName == m.typeName
    decreases members, 1
  {
    if members == [] then (Done, m)
    else
      var (exit, n) := MemberInto(s, members[0], m);
      if exit != Done then (exit, n) else MembersInto(s, members[1..], n)
  }

  /** One round of the loop of `parse_json`. A name that is no field is passed over, and null clears the field. */
  function MemberInto(s: Schema, member: Member, m: Message): (r: (Exit, Message))
    requires ValidSchema(s) && MessageTyped(s, m)
    ensures MessageTyped(s, r.1) && r.1.typeName == m.typeName
    decreases member, 1
  {
    match FieldIndex(Fields(s, m), JsonString.CString(member.name))
    case None => (Done, m)
    case Some(i) =>
      assert member.value < member;
      var f := Fields(s, m)[i];
      if member.value.NullJson? then (Done, WithSlot(m, i, EmptySlot(f)))
      else if !f.presence.Repeated? then ValueInto(s, member.value, m, i)
      else if !member.value.ArrayJson? then (Error(ERR_INVALID_JSON, "Not array"), m)
      else ItemsInto(s, member.value.items, m, i)
  }

  function ItemsInto(s: Schema, items: seq<Json>, m: Message, i: nat): (r: (Exit, Message))
    requires ValidSchema(s) && MessageTyped(s, m) && i < |m.slots|
    ensures MessageTyped(s, r.1) && r.1.typeName == m.typeName
    decreases items, 4
  {
    if items == [] then (Done, m)
    else
      var (exit, n) := ValueInto(s, items[0], m, i);
      if exit != Done then (exit, n) else ItemsInto(s, items[1..], n, i)
  }

  /** The message that `AddMessage` or `MutableMessage` gives access to. */
  function Target(s: Schema, m: Message, i: nat): (t: Message)
    requires ValidSchema(s) && MessageTyped(s, m) && i < |m.slots| && Fields(s, m)[i].kind.MessageKind?
    ensures MessageTyped(s, t) && t.typeName == Fields(s, m)[i].kind.typeName
  {
    var f := Fields(s, m)[i];
    assert ValidType(s, m.typeName) && ValidField(s, m.typeName, f) && SlotTyped(s, f, m.slots[i]);
    assert m.slots[i].One? ==> DatumTyped(s, f.kind, m.slots[i].d);
    if m.slots[i].One? then m.slots[i].d.message else Empty(s, f.kind.typeName)
  }

  /** `json2field`. A message is stored even when reading it fails half way. */
  function ValueInto(s: Schema, json: Json, m: Message, i: nat): (r: (Exit, Message))
    requires ValidSchema(s) && MessageTyped(s, m) && i < |m.slots|
    ensures MessageTyped(s, r.1) && r.1.typeName == m.typeName
    decreases json, 3
  {
    var f := Fields(s, m)[i];
    assert ValidType(s, m.typeName) && ValidField(s, m.typeName, f);
    if f.kind.MessageKind? then
      var (exit, sub) := ParseInto(s, json, Target(s, m, i));
      (exit, Stored(s, m, i, Sub(sub)))
    else
      ScalarReadTyped(s, m.typeName, f, json);
      match ScalarRead(s, f.kind, json)
      case Got(d) => (Done, Stored(s, m, i, d))
      case Bad(exit) => (exit, m)
  }
}
