/** Printing a message and reading it back into an empty one: exactly when this rebuilds the message. */
module ProtoRoundTrip {
  import opened JsonValue
  import JsonString
  import Base64
  import opened ProtoMessage
  import opened ProtoJson
  import opened ProtoConvert

  /**
   * A value survives unless it is a single unsigned integer that does not fit 63 bits, an enum number without a name,
   * or a message that does not survive.
   */
  ghost predicate DatumFaithful(s: Schema, k: Kind, repeated: bool, d: Datum)
    requires DatumTyped(s, k, d)
    decreases d
  {
    match k
    case UInt64Kind => repeated || d.i <= MAX_INT64
    case EnumKind(values) => d.i in Numbers(values)
    case MessageKind(_) => MessageFaithful(s, d.message)
    case _ => true
  }

  ghost predicate SlotFaithful(s: Schema, f: FieldDescriptor, slot: Slot)
    requires SlotTyped(s, f, slot)
    decreases slot
  {
    match slot
    case Unset => !f.presence.Required?
    case One(d) => DatumFaithful(s, f.kind, false, d)
    case Many(items) => forall i :: 0 <= i < |items| ==> DatumFaithful(s, f.kind, true, items[i])
  }

  /** Every required field is present, and every value survives. */
  ghost predicate MessageFaithful(s: Schema, m: Message)
    requires MessageTyped(s, m)
    decreases m
  {
    forall i :: 0 <= i < |m.slots| ==> SlotFaithful(s, s.types[m.typeName][i], m.slots[i])
  }

  lemma ScalarRoundTrip(s: Schema, k: Kind, repeated: bool, d: Datum)
    requires DatumTyped(s, k, d) && !k.MessageKind?
    ensures ScalarRead(s, k, ScalarJson(s, k, repeated, d)) == Got(d) <==> DatumFaithful(s, k, repeated, d)
  {
    if k.BytesKind? {
      Base64.DecodeUndoesEncode(d.s);
    }
  }

  // ---- What reading changes ----

  lemma StoredSlot(s: Schema, m: Message, i: nat, d: Datum)
    requires MessageTyped(s, m) && i < |m.slots| && DatumTyped(s, Fields(s, m)[i].kind, d)
    ensures Stored(s, m, i, d) == WithSlot(m, i, if m.slots[i].Many? then Many(m.slots[i].items + [d]) else One(d))
  {
  }

  /** Reading a value that ends well has stored one value in the field. */
  lemma ValueStores(s: Schema, json: Json, m: Message, i: nat) returns (d: Datum)
    requires ValidSchema(s) && MessageTyped(s, m) && i < |m.slots|
    requires ValueInto(s, json, m, i).0 == Done
    ensures DatumTyped(s, Fields(s, m)[i].kind, d) && ValueInto(s, json, m, i).1 == Stored(s, m, i, d)
  {
    hide ParseInto, ScalarRead, ValidSchema, MessageTyped, DatumTyped, Stored;
    SlotCount(s, m);
    var f := Fields(s, m)[i];
    FieldFacts(s, m, i);
    if f.kind.MessageKind? {
      var sub := ParseInto(s, json, Target(s, m, i)).1;
      SubTyped(s, f, sub);
      d := Sub(sub);
    } else {
      ScalarReadTyped(s, m.typeName, f, json);
      d := ScalarRead(s, f.kind, json).d;
    }
  }

  /** Reading a value touches no other field. */
  lemma ValueKeeps(s: Schema, json: Json, m: Message, i: nat)
    requires ValidSchema(s) && MessageTyped(s, m) && i < |m.slots|
    ensures var n := ValueInto(s, json, m, i).1;
            |n.slots| == |m.slots| && n.typeName == m.typeName &&
            forall k :: 0 <= k < |m.slots| && k != i ==> n.slots[k] == m.slots[k]
  {
    hide ParseInto, ScalarRead, ValidSchema, MessageTyped, DatumTyped, Stored;
    var n := ValueInto(s, json, m, i).1;
    SlotCount(s, m);
    SlotCount(s, n);
  }

  /** Reading the values of a repeated field appends to it and touches no other field. */
  lemma {:induction false} ItemsAppend(s: Schema, items: seq<Json>, m: Message, i: nat)
    requires ValidSchema(s) && MessageTyped(s, m) && i < |m.slots| && m.slots[i].Many?
    ensures var n := ItemsInto(s, items, m, i).1;
            |n.slots| == |m.slots| && n.slots[i].Many? && m.slots[i].items <= n.slots[i].items &&
            forall k :: 0 <= k < |m.slots| && k != i ==> n.slots[k] == m.slots[k]
    decreases |items|
  {
    hide ValueInto, ItemsInto, ValidSchema, MessageTyped, DatumTyped, Stored;
    if items == [] {
      NoItems(s, items, m, i);
    } else {
      assert items[0..] == items;
      ItemsStep(s, items, 0, m, i);
      ValueAppends(s, items[0], m, i);
      var (exit, n) := ValueInto(s, items[0], m, i);
      if exit == Done {
        ItemsAppend(s, items[1..], n, i);
      }
    }
  }

  lemma ValueAppends(s: Schema, json: Json, m: Message, i: nat)
    requires ValidSchema(s) && MessageTyped(s, m) && i < |m.slots| && m.slots[i].Many?
    ensures var n := ValueInto(s, json, m, i).1;
            |n.slots| == |m.slots| && n.slots[i].Many? && m.slots[i].items <= n.slots[i].items &&
            forall k :: 0 <= k < |m.slots| && k != i ==> n.slots[k] == m.slots[k]
  {
    hide ParseInto, ScalarRead, ValidSchema, MessageTyped, DatumTyped;
    ValueKeeps(s, json, m, i);
  }

  /** Reading a member touches no field but the one it names. */
  lemma MemberKeeps(s: Schema, member: Member, m: Message, i: nat)
    requires ValidSchema(s) && MessageTyped(s, m)
    requires i < |m.slots| && FieldIndex(Fields(s, m), JsonString.CString(member.name)) == Some(i)
    ensures var n := MemberInto(s, member, m).1;
            |n.slots| == |m.slots| && forall k :: 0 <= k < |m.slots| && k != i ==> n.slots[k] == m.slots[k]
  {
    hide ValueInto, ItemsInto, ValidSchema, MessageTyped;
    SlotCount(s, m);
    FieldFacts(s, m, i);
    if member.value.ArrayJson? && Fields(s, m)[i].presence.Repeated? {
      ItemsAppend(s, member.value.items, m, i);
    }
    if !Fields(s, m)[i].presence.Repeated? {
      ValueKeeps(s, member.value, m, i);
    }
  }

  /** A field is found under its own name. */
  lemma FieldFound(s: Schema, m: Message, i: nat)
    requires ValidSchema(s) && MessageTyped(s, m) && i < |m.slots|
    ensures FieldIndex(Fields(s, m), JsonString.CString(Fields(s, m)[i].name)) == Some(i)
  {
    var fields := Fields(s, m);
    assert ValidType(s, m.typeName) && ValidField(s, m.typeName, fields[i]);
    JsonString.CStringOf(fields[i].name);
    var r := FieldIndex(fields, fields[i].name);
    assert r.Some? && fields[r.value].name == fields[i].name;
  }

  /** What is printed from field `i` on: nothing for it when it is absent, or else its member first. */
  lemma NextMember(s: Schema, m: Message, i: nat)
    requires ValidSchema(s) && MessageTyped(s, m) && i < |m.slots|
    ensures i < |Fields(s, m)| &&
            var f, members, rest := Fields(s, m)[i], MembersJson(s, m, i), MembersJson(s, m, i + 1);
            if f.presence.Optional? && m.slots[i].Unset? then members == rest
            else
              members != [] && members[0] == Member(f.name, FieldJson(s, m, i)) && members[1..] == rest &&
              members[0..] == members
  {
    hide FieldJson, MembersJson, ValidSchema, MessageTyped;
    SlotCount(s, m);
    MembersJsonStep(s, m, i, []);
    var members, rest := MembersJson(s, m, i), MembersJson(s, m, i + 1);
    assert [] + members == members && [] + rest == rest;
  }

  /** Reading the members printed for the fields from `i` on touches none of the fields before. */
  lemma {:induction false} MembersKeep(s: Schema, m: Message, i: nat, acc: Message)
    requires ValidSchema(s) && MessageTyped(s, m) && MessageTyped(s, acc) && acc.typeName == m.typeName
    ensures var n := MembersInto(s, MembersJson(s, m, i), acc).1;
            |n.slots| == |acc.slots| == |m.slots| &&
            forall k :: 0 <= k < i && k < |acc.slots| ==> n.slots[k] == acc.slots[k]
    decreases |m.slots| - i
  {
    hide FieldJson, MemberInto, MembersInto, MembersJson, ValidSchema, MessageTyped;
    SlotCount(s, m);
    SlotCount(s, acc);
    if i >= |m.slots| {
      MembersJsonStep(s, m, i, []);
      NoMembers(s, MembersJson(s, m, i), acc);
    } else {
      NextMember(s, m, i);
      var f := Fields(s, m)[i];
      if f.presence.Optional? && m.slots[i].Unset? {
        MembersKeep(s, m, i + 1, acc);
      } else {
        var member := Member(f.name, FieldJson(s, m, i));
        MembersStep(s, MembersJson(s, m, i), 0, acc);
        FieldFound(s, acc, i);
        MemberKeeps(s, member, acc, i);
        var (exit, n) := MemberInto(s, member, acc);
        if exit == Done {
          MembersKeep(s, m, i + 1, n);
        }
      }
    }
  }

  // ---- Round trips ----

  /** The JSON that is printed for a value. */
  ghost function DatumJson(s: Schema, k: Kind, repeated: bool, d: Datum): Json
    requires ValidSchema(s) && DatumTyped(s, k, d)
  {
    if d.Sub? then MessageJson(s, d.message) else ScalarJson(s, k, repeated, d)
  }

  /** A value printed and read into an empty field is stored there exactly when it is faithful. */
  lemma {:induction false} ValueRoundTrip(s: Schema, d: Datum, acc: Message, i: nat, repeated: bool)
    requires ValidSchema(s) && MessageTyped(s, acc) && i < |acc.slots| && !acc.slots[i].One?
    requires DatumTyped(s, Fields(s, acc)[i].kind, d)
    ensures var k := Fields(s, acc)[i].kind;
            ValueInto(s, DatumJson(s, k, repeated, d), acc, i) == (Done, Stored(s, acc, i, d)) <==>
            DatumFaithful(s, k, repeated, d)
    decreases DatumSize(d), 4
  {
    hide ParseInto, MessageJson, ScalarRead, ScalarJson, ValidSchema, MessageTyped, MessageFaithful, Stored, Empty;
    SlotCount(s, acc);
    var f := Fields(s, acc)[i];
    FieldFacts(s, acc, i);
    if f.kind.MessageKind? {
      RoundTrip(s, d.message);
      var sub := ParseInto(s, MessageJson(s, d.message), Target(s, acc, i)).1;
      StoredIsInjective(s, acc, i, d, Sub(sub));
    } else {
      ScalarRoundTrip(s, f.kind, repeated, d);
      var reading := ScalarRead(s, f.kind, ScalarJson(s, f.kind, repeated, d));
      ScalarReadTyped(s, acc.typeName, f, ScalarJson(s, f.kind, repeated, d));
      if reading.Got? {
        StoredIsInjective(s, acc, i, d, reading.d);
      }
    }
  }

  lemma StoredIsInjective(s: Schema, m: Message, i: nat, d: Datum, e: Datum)
    requires MessageTyped(s, m) && i < |m.slots|
    requires DatumTyped(s, Fields(s, m)[i].kind, d) && DatumTyped(s, Fields(s, m)[i].kind, e)
    ensures Stored(s, m, i, d) == Stored(s, m, i, e) <==> d == e
  {
    hide MessageTyped, DatumTyped;
    StoredSlot(s, m, i, d);
    StoredSlot(s, m, i, e);
    var a, b := Stored(s, m, i, d), Stored(s, m, i, e);
    if a == b {
      assert a.slots[i] == b.slots[i];
      assert m.slots[i].Many? ==> a.slots[i].items[|m.slots[i].items|] == d;
    }
  }

  /** The values of a repeated field, printed and read after `prefix`. */
  lemma {:induction false} ItemsRoundTrip(s: Schema, items: seq<Datum>, acc: Message, i: nat, prefix: seq<Datum>)
    requires ValidSchema(s) && MessageTyped(s, acc) && i < |acc.slots| && acc.slots[i] == Many(prefix)
    requires forall j :: 0 <= j < |items| ==> DatumTyped(s, Fields(s, acc)[i].kind, items[j])
    ensures var k := Fields(s, acc)[i].kind;
            ItemsInto(s, ItemsJson(s, k, items), acc, i) == (Done, WithSlot(acc, i, Many(prefix + items))) <==>
            forall j :: 0 <= j < |items| ==> DatumFaithful(s, k, true, items[j])
    decreases DatumsSize(items), 5, |items|
  {
    hide ItemsInto, ValueInto, ItemsJson, MessageJson, ScalarJson, ValidSchema, MessageTyped, DatumTyped, DatumFaithful,
      Stored, DatumJson;
    SlotCount(s, acc);
    var k := Fields(s, acc)[i].kind;
    var js := ItemsJson(s, k, items);
    if items == [] {
      NoItems(s, js, acc, i);
      assert prefix + items == prefix && acc.slots[i := acc.slots[i]] == acc.slots;
    } else {
      var d, rest := items[0], items[1..];
      assert items[0..] == items && js[0..] == js;
      ItemFacts(s, k, items, 0);
      DatumJsonIs(s, k, true, d);
      assert js[0] == DatumJson(s, k, true, d) && js[1..] == ItemsJson(s, k, rest);
      ItemsStep(s, js, 0, acc, i);
      DatumIsSmaller(items, 0);
      ValueRoundTrip(s, d, acc, i, true);
      StoredSlot(s, acc, i, d);
      assert prefix + [d] + rest == prefix + items;
      if DatumFaithful(s, k, true, d) {
        var n := Stored(s, acc, i, d);
        assert WithSlot(n, i, Many(prefix + [d] + rest)) == WithSlot(acc, i, Many(prefix + items));
        ItemsRoundTrip(s, rest, n, i, prefix + [d]);
        assert forall j :: 0 < j < |items| ==> items[j] == rest[j - 1];
      } else if ValueInto(s, js[0], acc, i).0 == Done {
        WrongItem(s, js, acc, i, prefix, d, rest);
      }
    }
  }

  lemma DatumJsonIs(s: Schema, k: Kind, repeated: bool, d: Datum)
    requires ValidSchema(s) && DatumTyped(s, k, d)
    ensures DatumJson(s, k, repeated, d) == if d.Sub? then MessageJson(s, d.message) else ScalarJson(s, k, repeated, d)
  {
  }

  /** Once a wrong value has been appended, the right sequence is out of reach. */
  lemma WrongItem(
    s: Schema, js: seq<Json>, acc: Message, i: nat, prefix: seq<Datum>, d: Datum, rest: seq<Datum>)
    requires ValidSchema(s) && MessageTyped(s, acc) && i < |acc.slots| && acc.slots[i] == Many(prefix)
    requires DatumTyped(s, Fields(s, acc)[i].kind, d)
    requires js != [] && ValueInto(s, js[0], acc, i).0 == Done
    requires ValueInto(s, js[0], acc, i) != (Done, Stored(s, acc, i, d))
    ensures ItemsInto(s, js, acc, i).1 != WithSlot(acc, i, Many(prefix + [d] + rest))
  {
    hide ItemsInto, ValueInto, ValidSchema, MessageTyped, DatumTyped, Stored;
    SlotCount(s, acc);
    var e := ValueStores(s, js[0], acc, i);
    StoredSlot(s, acc, i, e);
    var n := Stored(s, acc, i, e);
    assert js[0..] == js;
    ItemsStep(s, js, 0, acc, i);
    ItemsAppend(s, js[1..], n, i);
    var items := ItemsInto(s, js[1..], n, i).1.slots[i].items;
    assert (prefix + [e])[|prefix|] == items[|prefix|] == e;
    assert (prefix + [d] + rest)[|prefix|] == d;
  }

  /** A field that is printed and read into an empty one comes back exactly when it is faithful. */
  lemma {:induction false} FieldRoundTrip(s: Schema, m: Message, i: nat, acc: Message)
    requires ValidSchema(s) && MessageTyped(s, m) && MessageTyped(s, acc) && acc.typeName == m.typeName
    requires i < |m.slots| && i < |acc.slots| && acc.slots[i] == EmptySlot(Fields(s, m)[i])
    requires Fields(s, m)[i].presence.Optional? ==> !m.slots[i].Unset?
    requires SlotTyped(s, Fields(s, m)[i], m.slots[i])
    ensures MemberInto(s, Member(Fields(s, m)[i].name, FieldJson(s, m, i)), acc)
            == (Done, WithSlot(acc, i, m.slots[i])) <==>
            SlotFaithful(s, Fields(s, m)[i], m.slots[i])
    decreases Size(m), 1
  {
    hide ValueInto, ItemsInto, ItemsJson, MessageJson, ScalarJson, ValidSchema, MessageTyped, DatumTyped, DatumFaithful,
      Stored, DatumJson;
    SlotCount(s, m);
    var f, slot := Fields(s, m)[i], m.slots[i];
    FieldFound(s, acc, i);
    FieldFacts(s, m, i);
    FieldJsonIs(s, m, i);
    match slot
    case Many(items) =>
      assert [] + items == items;
      ItemsRoundTrip(s, items, acc, i, []);
    case One(d) =>
      ValueRoundTrip(s, d, acc, i, false);
      StoredSlot(s, acc, i, d);
    case Unset =>
      var json := FieldJson(s, m, i);
      if ValueInto(s, json, acc, i).0 == Done {
        var d := ValueStores(s, json, acc, i);
        StoredSlot(s, acc, i, d);
        assert WithSlot(acc, i, One(d)).slots[i] == One(d) && WithSlot(acc, i, Unset).slots[i] == Unset;
      }
  }

  lemma FieldJsonIs(s: Schema, m: Message, i: nat)
    requires ValidSchema(s) && MessageTyped(s, m) && i < |m.slots|
    requires Fields(s, m)[i].presence.Optional? ==> !m.slots[i].Unset?
    ensures var f, slot := Fields(s, m)[i], m.slots[i];
            SlotTyped(s, f, slot) && !FieldJson(s, m, i).NullJson? &&
            (slot.Many? ==> FieldJson(s, m, i) == ArrayJson(ItemsJson(s, f.kind, slot.items))) &&
            (slot.One? ==> FieldJson(s, m, i) == DatumJson(s, f.kind, false, slot.d))
  {
    FieldFacts(s, m, i);
  }

  /** The message with the slots from `i` on taken from `m`. */
  ghost function Filled(m: Message, i: nat, acc: Message): Message
    requires i <= |m.slots| == |acc.slots|
  {
    Message(m.typeName, acc.slots[..i] + m.slots[i..])
  }

  lemma FilledEnds(m: Message, i: nat, acc: Message)
    requires i <= |m.slots| == |acc.slots| && acc.typeName == m.typeName
    ensures i == |m.slots| ==> Filled(m, i, acc) == acc
    ensures i < |m.slots| && acc.slots[i] == m.slots[i] ==> Filled(m, i + 1, acc) == Filled(m, i, acc)
  {
  }

  lemma FilledStep(m: Message, i: nat, acc: Message)
    requires i < |m.slots| == |acc.slots|
    ensures Filled(m, i, acc).slots[i] == m.slots[i]
    ensures Filled(m, i + 1, WithSlot(acc, i, m.slots[i])) == Filled(m, i, acc)
  {
  }

  lemma {:induction false} MembersRoundTrip(s: Schema, m: Message, i: nat, acc: Message)
    requires ValidSchema(s) && MessageTyped(s, m) && MessageTyped(s, acc) && acc.typeName == m.typeName
    requires i <= |m.slots| == |acc.slots|
    requires forall k :: i <= k < |m.slots| ==> acc.slots[k] == EmptySlot(Fields(s, m)[k])
    requires forall k :: i <= k < |m.slots| ==> SlotTyped(s, Fields(s, m)[k], m.slots[k])
    ensures MembersInto(s, MembersJson(s, m, i), acc) == (Done, Filled(m, i, acc)) <==>
            forall k :: i <= k < |m.slots| ==> SlotFaithful(s, Fields(s, m)[k], m.slots[k])
    decreases Size(m), 2, |m.slots| - i
  {
    hide FieldJson, MemberInto, MembersInto, MembersJson, ValidSchema, MessageTyped, SlotTyped, SlotFaithful, Filled;
    SlotCount(s, m);
    FilledEnds(m, i, acc);
    if i == |m.slots| {
      MembersJsonStep(s, m, i, []);
      NoMembers(s, MembersJson(s, m, i), acc);
    } else {
      NextMember(s, m, i);
      var f, slot := Fields(s, m)[i], m.slots[i];
      if f.presence.Optional? && slot.Unset? {
        MembersRoundTrip(s, m, i + 1, acc);
        AbsentIsFaithful(s, f);
      } else {
        PresentRoundTrip(s, m, i, acc);
      }
    }
  }

  /** The case of a field that is printed. */
  lemma {:induction false} PresentRoundTrip(s: Schema, m: Message, i: nat, acc: Message)
    requires ValidSchema(s) && MessageTyped(s, m) && MessageTyped(s, acc) && acc.typeName == m.typeName
    requires i < |m.slots| == |acc.slots| == |Fields(s, m)|
    requires Fields(s, m)[i].presence.Optional? ==> !m.slots[i].Unset?
    requires forall k :: i <= k < |m.slots| ==> acc.slots[k] == EmptySlot(Fields(s, m)[k])
    requires forall k :: i <= k < |m.slots| ==> SlotTyped(s, Fields(s, m)[k], m.slots[k])
    ensures MembersInto(s, MembersJson(s, m, i), acc) == (Done, Filled(m, i, acc)) <==>
            forall k :: i <= k < |m.slots| ==> SlotFaithful(s, Fields(s, m)[k], m.slots[k])
    decreases Size(m), 2, |m.slots| - i, 0
  {
    hide FieldJson, MemberInto, MembersInto, MembersJson, ValidSchema, MessageTyped, SlotTyped, SlotFaithful, EmptySlot,
      Filled, WithSlot;
    NextMember(s, m, i);
    var f, slot := Fields(s, m)[i], m.slots[i];
    var member := Member(f.name, FieldJson(s, m, i));
    MembersStep(s, MembersJson(s, m, i), 0, acc);
    FieldRoundTrip(s, m, i, acc);
    FieldFound(s, acc, i);
    MemberKeeps(s, member, acc, i);
    var (exit, n) := MemberInto(s, member, acc);
    SlotDecides(acc, n, i, slot);
    FilledStep(m, i, acc);
    if SlotFaithful(s, f, slot) {
      MembersRoundTrip(s, m, i + 1, n);
    } else if exit == Done {
      MembersKeep(s, m, i + 1, n);
    }
  }

  lemma AbsentIsFaithful(s: Schema, f: FieldDescriptor)
    requires f.presence.Optional? && SlotTyped(s, f, Unset)
    ensures SlotFaithful(s, f, Unset)
  {
  }

  /** Messages that agree everywhere but in one slot are told apart by that slot. */
  lemma SlotDecides(acc: Message, n: Message, i: nat, slot: Slot)
    requires i < |acc.slots| == |n.slots| && n.typeName == acc.typeName
    requires forall k :: 0 <= k < |acc.slots| && k != i ==> n.slots[k] == acc.slots[k]
    ensures n == WithSlot(acc, i, slot) <==> n.slots[i] == slot
  {
    if n.slots[i] == slot {
      assert n.slots == acc.slots[i := slot];
    }
  }

  /**
   * The round trip over every schema: the JSON printed for a message, read into an empty message, gives 0 and the
   * same message exactly when its required fields are present, its single unsigned 64-bit integers fit 63 bits and
   * its enum numbers are declared, all the way down.
   */
  lemma {:induction false} RoundTrip(s: Schema, m: Message)
    requires ValidSchema(s) && MessageTyped(s, m)
    ensures ParseInto(s, MessageJson(s, m), Empty(s, m.typeName)) == (Done, m) <==> MessageFaithful(s, m)
    decreases Size(m), 3
  {
    hide MembersInto, MembersJson, ValidSchema, SlotTyped, SlotFaithful;
    var acc := Empty(s, m.typeName);
    MembersRoundTrip(s, m, 0, acc);
    assert Filled(m, 0, acc) == m;
  }

  /** The same for the methods: a message is printed and read back into an empty one. */
  method PrintAndParse(s: Schema, m: Message) returns (exit: Exit, r: Message)
    requires ValidSchema(s) && MessageTyped(s, m)
    ensures exit == Done && r == m <==> MessageFaithful(s, m)
    ensures MessageTyped(s, r) && r.typeName == m.typeName
  {
    hide ParseInto, MessageJson, ValidSchema, MessageTyped, MessageFaithful, Empty;
    RoundTrip(s, m);
    var json := ParseMsg(s, m);
    TypeExists(s, m);
    var msg := new MessageObject(Empty(s, m.typeName));
    exit := ParseJson(s, json, msg);
    r := msg.message;
  }

  lemma TypeExists(s: Schema, m: Message)
    requires MessageTyped(s, m)
    ensures m.typeName in s.types
  {
  }
}
