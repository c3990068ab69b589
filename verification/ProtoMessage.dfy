/** Protocol buffer messages, as far as their reflection interface shows them: descriptors, and values with presence. */
module ProtoMessage {
  import opened JsonValue

  const MIN_INT32 := -0x8000_0000

  datatype EnumValue = EnumValue(name: string, number: int)

  /** The C++ type of a field; strings and bytes share one and are told apart by the declared type. */
  datatype Kind =
    | Int32Kind
    | UInt32Kind
    | Int64Kind
    | UInt64Kind
    | DoubleKind
    | FloatKind
    | BoolKind
    | StringKind
    | BytesKind
    | EnumKind(values: seq<EnumValue>)
    | MessageKind(typeName: string)

  datatype Presence = Optional | Required | Repeated

  datatype FieldDescriptor = FieldDescriptor(name: string, presence: Presence, kind: Kind, default: Datum)

  /** A value of a field. An enum value is its number. */
  datatype Datum =
    | Number(i: int)
    | Floating(r: real)
    | Flag(b: bool)
    | Text(s: string)
    | Sub(message: Message)

  /** The content of a field: absent, one value, or the values of a repeated field. */
  datatype Slot = Unset | One(d: Datum) | Many(items: seq<Datum>)

  /** A message holds one slot for each field of its type, in the order of the descriptor. */
  datatype Message = Message(typeName: string, slots: seq<Slot>)

  /**
   * Message types by name, and how integers and doubles are rounded to `double` and `float`. `rank` witnesses that
   * no message type requires itself: a default instance has a finite text.
   */
  datatype Schema = Schema(
    types: map<string, seq<FieldDescriptor>>, rank: string -> nat, ofInt: int -> real, toFloat: real -> real)

  function Numbers(values: seq<EnumValue>): set<int> {
    set v | v in values :: v.number
  }

  ghost predicate ValidSchema(s: Schema) {
    (forall x :: s.toFloat(s.toFloat(x)) == s.toFloat(x)) &&
    forall t :: t in s.types ==> ValidType(s, t)
  }

  ghost predicate ValidType(s: Schema, t: string)
    requires t in s.types
  {
    var fields := s.types[t];
    (forall i, j :: 0 <= i < j < |fields| ==> fields[i].name != fields[j].name) &&
    forall i :: 0 <= i < |fields| ==> ValidField(s, t, fields[i])
  }

  ghost predicate ValidField(s: Schema, t: string, f: FieldDescriptor) {
    '\0' !in f.name &&
    match f.kind
    case MessageKind(u) => u in s.types && (f.presence.Required? ==> s.rank(u) < s.rank(t))
    case EnumKind(values) =>
      DatumTyped(s, f.kind, f.default) && forall v :: v in values ==> MIN_INT32 <= v.number <= MAX_INT
    case _ => DatumTyped(s, f.kind, f.default)
  }

  ghost predicate DatumTyped(s: Schema, k: Kind, d: Datum)
    decreases d
  {
    match k
    case Int32Kind => d.Number? && MIN_INT32 <= d.i <= MAX_INT
    case UInt32Kind => d.Number? && 0 <= d.i <= MAX_UINT32
    case Int64Kind => d.Number? && MIN_INT64 <= d.i <= MAX_INT64
    case UInt64Kind => d.Number? && 0 <= d.i <= MAX_UINT64
    case DoubleKind => d.Floating?
    case FloatKind => d.Floating? && s.toFloat(d.r) == d.r
    case BoolKind => d.Flag?
    case StringKind => d.Text?
    case BytesKind => d.Text? && forall i :: 0 <= i < |d.s| ==> d.s[i] as int < 256
    case EnumKind(_) => d.Number? && MIN_INT32 <= d.i <= MAX_INT
    case MessageKind(t) => d.Sub? && d.message.typeName == t && MessageTyped(s, d.message)
  }

  ghost predicate SlotTyped(s: Schema, f: FieldDescriptor, slot: Slot)
    decreases slot
  {
    if f.presence.Repeated? then
      slot.Many? && forall i :: 0 <= i < |slot.items| ==> DatumTyped(s, f.kind, slot.items[i])
    else slot.Unset? || (slot.One? && DatumTyped(s, f.kind, slot.d))
  }

  ghost predicate MessageTyped(s: Schema, m: Message)
    decreases m
  {
    m.typeName in s.types &&
    |m.slots| == |s.types[m.typeName]| &&
    forall i :: 0 <= i < |m.slots| ==> SlotTyped(s, s.types[m.typeName][i], m.slots[i])
  }

  function EmptySlot(f: FieldDescriptor): Slot {
    if f.presence.Repeated? then Many([]) else Unset
  }

  /** The default instance. */
  function Empty(s: Schema, t: string): (m: Message)
    requires t in s.types
    ensures m.typeName == t && |m.slots| == |s.types[t]|
    ensures MessageTyped(s, m)
  {
    Message(t, seq(|s.types[t]|, i requires 0 <= i < |s.types[t]| => EmptySlot(s.types[t][i])))
  }

  // ---- A measure for recursion through messages ----

  ghost function Size(m: Message): (n: nat)
    ensures n > 0
  {
    1 + SlotsSize(m.slots)
  }

  ghost function SlotsSize(slots: seq<Slot>): nat {
    if slots == [] then 0 else SlotSize(slots[0]) + SlotsSize(slots[1..])
  }

  ghost function SlotSize(slot: Slot): nat {
    match slot
    case Unset => 0
    case One(d) => DatumSize(d)
    case Many(items) => DatumsSize(items)
  }

  ghost function DatumsSize(items: seq<Datum>): nat {
    if items == [] then 0 else DatumSize(items[0]) + DatumsSize(items[1..])
  }

  ghost function DatumSize(d: Datum): nat {
    match d
    case Sub(m) => Size(m)
    case _ => 0
  }

  lemma {:induction false} SlotIsSmaller(slots: seq<Slot>, i: nat)
    requires i < |slots|
    ensures SlotSize(slots[i]) <= SlotsSize(slots)
  {
    if i > 0 {
      SlotIsSmaller(slots[1..], i - 1);
    }
  }

  lemma {:induction false} DatumIsSmaller(items: seq<Datum>, i: nat)
    requires i < |items|
    ensures DatumSize(items[i]) <= DatumsSize(items)
  {
    if i > 0 {
      DatumIsSmaller(items[1..], i - 1);
    }
  }

  lemma {:induction false} NoSlots(slots: seq<Slot>)
    requires forall i :: 0 <= i < |slots| ==> slots[i] == Unset || slots[i] == Many([])
    ensures SlotsSize(slots) == 0
  {
    if slots != [] {
      NoSlots(slots[1..]);
    }
  }

  lemma EmptySize(s: Schema, t: string)
    requires t in s.types
    ensures Size(Empty(s, t)) == 1
  {
    NoSlots(Empty(s, t).slots);
  }
}
