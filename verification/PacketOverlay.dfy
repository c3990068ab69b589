/**
 * `MessageDecomposer::reflectJsFieldsToMessagePacket`: the values of fields are written over a packet in place, and
 * over the packets that are embedded in it. The bytes of a value are a parameter.
 */
module PacketOverlay {

  /** The input types, as far as writing tells them apart: number types write at most 8 bytes. */
  datatype InputType = NotWritten | Text | Numeric

  datatype Field = Field(offset: nat, size: nat, inputType: InputType)

  /** An embedded message: its packet type, and the position of the packet field it lies in, or -1. */
  datatype Embedded = Embedded(packetType: string, found: bool, z: int)

  datatype Packet = Packet(fields: seq<Field>, embedded: seq<Embedded>)

  /**
   * Packet types by name. `rank` witnesses that no packet contains itself. `value` gives the bytes that a script's
   * value has for the n-th field of a packet type.
   */
  datatype Schema = Schema(packets: map<string, Packet>, rank: string -> nat, value: (string, nat) -> seq<char>)

  /** How many bytes a field's value overwrites. */
  function Width(f: Field): (w: nat)
    ensures w <= f.size
  {
    match f.inputType
    case NotWritten => 0
    case Text => f.size
    case Numeric => if f.size < 8 then f.size else 8
  }

  /** Whether the embedded packet is visited, and the field it lies in. */
  predicate Visited(s: Schema, p: Packet, e: Embedded) {
    e.found && e.packetType in s.packets && 0 <= e.z < |p.fields|
  }

  /** The fields lie in a packet of the given length, and those of embedded packets in the fields they lie in. */
  ghost predicate Fits(s: Schema, t: string, length: nat)
    requires t in s.packets
    decreases s.rank(t)
  {
    var p := s.packets[t];
    ValuesFit(s, t) && (forall i :: 0 <= i < |p.fields| ==> p.fields[i].offset + p.fields[i].size <= length) &&
    forall j :: 0 <= j < |p.embedded| && Visited(s, p, p.embedded[j]) ==>
                  s.rank(p.embedded[j].packetType) < s.rank(t) &&
                  Fits(s, p.embedded[j].packetType, p.fields[p.embedded[j].z].size)
  }

  /** Every value has as many bytes as it overwrites. */
  predicate ValuesFit(s: Schema, t: string)
    requires t in s.packets
  {
    forall i :: 0 <= i < |s.packets[t].fields| ==> |s.value(t, i)| == Width(s.packets[t].fields[i])
  }

  predicate Within(i: int, offset: nat, size: nat) {
    offset <= i < offset + size
  }

  // ---- One byte of the packet ----

  /** The byte at `i` after the first `k` fields are written, if it was `c` before. */
  function AfterFields(s: Schema, t: string, k: nat, i: int, c: char): char
    requires t in s.packets && k <= |s.packets[t].fields| && ValuesFit(s, t)
    decreases k
  {
    if k == 0 then c
    else
      var f := s.packets[t].fields[k - 1];
      if Within(i, f.offset, Width(f)) then s.value(t, k - 1)[i - f.offset] else AfterFields(s, t, k - 1, i, c)
  }

  /** The byte at `i` after the fields and then the first `j` embedded packets are written. */
  function AfterEmbedded(s: Schema, t: string, length: nat, j: nat, i: int, c: char): char
    requires t in s.packets && Fits(s, t, length) && j <= |s.packets[t].embedded|
    decreases s.rank(t), 0, j
  {
    var p := s.packets[t];
    if j == 0 then AfterFields(s, t, |p.fields|, i, c)
    else
      var e, b := p.embedded[j - 1], AfterEmbedded(s, t, length, j - 1, i, c);
      if Visited(s, p, e) && Within(i, p.fields[e.z].offset, p.fields[e.z].size)
      then ByteAfter(s, e.packetType, p.fields[e.z].size, i - p.fields[e.z].offset, b)
      else b
  }

  /** The byte at `i` of a packet after it is written over. */
  function ByteAfter(s: Schema, t: string, length: nat, i: int, c: char): char
    requires t in s.packets && Fits(s, t, length)
    decreases s.rank(t), 1
  {
    AfterEmbedded(s, t, length, |s.packets[t].embedded|, i, c)
  }

  // ---- The loops ----

  /** `memmove` into a packet. */
  function Overwritten(r: seq<char>, offset: nat, bytes: seq<char>): (q: seq<char>)
    requires offset + |bytes| <= |r|
    ensures |q| == |r|
    ensures forall i :: 0 <= i < |r| ==> q[i] == if Within(i, offset, |bytes|) then bytes[i - offset] else r[i]
  {
    r[..offset] + bytes + r[offset + |bytes|..]
  }

  /** `reflectJsFieldsToMessagePacketField` */
  method ReflectField(s: Schema, t: string, k: nat, packet: seq<char>) returns (r: seq<char>)
    requires t in s.packets && k < |s.packets[t].fields| && ValuesFit(s, t)
    requires s.packets[t].fields[k].offset + s.packets[t].fields[k].size <= |packet|
    ensures r == Overwritten(packet, s.packets[t].fields[k].offset, s.value(t, k))
  {
    var f := s.packets[t].fields[k];
    if f.inputType == NotWritten || f.size == 0 {
      return packet;
    }
    r := Overwritten(packet, f.offset, s.value(t, k));
  }

  /** The packet keeps its length, and the last field or embedded packet over a byte decides what it becomes. */
  method Reflect(s: Schema, t: string, packet: seq<char>) returns (r: seq<char>)
    requires t in s.packets && Fits(s, t, |packet|)
    ensures |r| == |packet|
    ensures forall i :: 0 <= i < |r| ==> r[i] == ByteAfter(s, t, |packet|, i, packet[i])
    decreases s.rank(t)
  {
    hide Overwritten;
    var p := s.packets[t];
    r := packet;
    for k := 0 to |p.fields|
      invariant |r| == |packet|
      invariant forall i :: 0 <= i < |r| ==> r[i] == AfterFields(s, t, k, i, packet[i])
    {
      r := ReflectField(s, t, k, r);
    }
    for j := 0 to |p.embedded|
      invariant |r| == |packet|
      invariant forall i :: 0 <= i < |r| ==> r[i] == AfterEmbedded(s, t, |packet|, j, i, packet[i])
    {
      r := ReflectEmbedded(s, t, j, r, |packet|);
    }
  }

  /** The body of the loop over embedded messages: the zone is cut out, written over and put back. */
  method ReflectEmbedded(s: Schema, t: string, j: nat, packet: seq<char>, ghost length: nat) returns (r: seq<char>)
    requires t in s.packets && Fits(s, t, length) && length == |packet| && j < |s.packets[t].embedded|
    ensures var p := s.packets[t];
            var e := p.embedded[j];
            |r| == |packet| &&
            forall i :: 0 <= i < |r| ==>
                          r[i] ==
                          if Visited(s, p, e) && Within(i, p.fields[e.z].offset, p.fields[e.z].size)
                          then ByteAfter(s, e.packetType, p.fields[e.z].size, i - p.fields[e.z].offset, packet[i])
                          else packet[i]
    decreases s.rank(t), 0
  {
    hide ByteAfter;
    var p := s.packets[t];
    var e := p.embedded[j];
    r := packet;
    if !Visited(s, p, e) {
      return;
    }
    var fld := p.fields[e.z];
    var fieldPacket := Reflect(s, e.packetType, r[fld.offset..fld.offset + fld.size]);
    r := r[..fld.offset] + fieldPacket + r[fld.offset + fld.size..];
  }

  // ---- The frame ----

  /** Byte `i` of a packet lies in the range of a field that is written, there or in an embedded packet. */
  ghost predicate Touched(s: Schema, t: string, i: int)
    requires t in s.packets
    decreases s.rank(t), 2
  {
    TouchedUpTo(s, t, |s.packets[t].fields|, |s.packets[t].embedded|, i)
  }

  /** The same for the first `k` fields and the first `j` embedded packets. */
  ghost predicate TouchedUpTo(s: Schema, t: string, k: nat, j: nat, i: int)
    requires t in s.packets && k <= |s.packets[t].fields| && j <= |s.packets[t].embedded|
    decreases s.rank(t), 1
  {
    (exists l :: 0 <= l < k && TouchedBy(s, t, l, i)) || exists l :: 0 <= l < j && TouchedIn(s, t, l, i)
  }

  predicate TouchedBy(s: Schema, t: string, k: nat, i: int)
    requires t in s.packets && k < |s.packets[t].fields|
  {
    Within(i, s.packets[t].fields[k].offset, Width(s.packets[t].fields[k]))
  }

  ghost predicate TouchedIn(s: Schema, t: string, j: nat, i: int)
    requires t in s.packets && j < |s.packets[t].embedded|
    decreases s.rank(t), 0
  {
    var p := s.packets[t];
    var e := p.embedded[j];
    Visited(s, p, e) && s.rank(e.packetType) < s.rank(t) &&
    Within(i, p.fields[e.z].offset, p.fields[e.z].size) && Touched(s, e.packetType, i - p.fields[e.z].offset)
  }

  lemma {:induction false} FieldsFrame(s: Schema, t: string, k: nat, i: int, c: char, d: char)
    requires t in s.packets && k <= |s.packets[t].fields| && ValuesFit(s, t)
    ensures if TouchedUpTo(s, t, k, 0, i) then AfterFields(s, t, k, i, c) == AfterFields(s, t, k, i, d)
            else AfterFields(s, t, k, i, c) == c
    decreases k
  {
    hide TouchedIn;
    if k > 0 {
      FieldsFrame(s, t, k - 1, i, c, d);
      assert TouchedUpTo(s, t, k, 0, i) <==> TouchedUpTo(s, t, k - 1, 0, i) || TouchedBy(s, t, k - 1, i);
    }
  }

  lemma {:induction false} EmbeddedFrame(s: Schema, t: string, length: nat, j: nat, i: int, c: char, d: char)
    requires t in s.packets && Fits(s, t, length) && j <= |s.packets[t].embedded|
    ensures if TouchedUpTo(s, t, |s.packets[t].fields|, j, i)
            then AfterEmbedded(s, t, length, j, i, c) == AfterEmbedded(s, t, length, j, i, d)
            else AfterEmbedded(s, t, length, j, i, c) == c
    decreases s.rank(t), 0, j
  {
    hide ByteAfter;
    var p := s.packets[t];
    var n := |p.fields|;
    if j == 0 {
      FieldsFrame(s, t, n, i, c, d);
    } else {
      EmbeddedFrame(s, t, length, j - 1, i, c, d);
      OneMoreTouched(s, t, n, j, i);
      var e := p.embedded[j - 1];
      if Visited(s, p, e) && Within(i, p.fields[e.z].offset, p.fields[e.z].size) {
        var b, b' := AfterEmbedded(s, t, length, j - 1, i, c), AfterEmbedded(s, t, length, j - 1, i, d);
        Frame(s, e.packetType, p.fields[e.z].size, i - p.fields[e.z].offset, b, b');
      }
    }
  }

  lemma OneMoreTouched(s: Schema, t: string, k: nat, j: nat, i: int)
    requires t in s.packets && k <= |s.packets[t].fields| && 0 < j <= |s.packets[t].embedded|
    ensures TouchedUpTo(s, t, k, j, i) <==> TouchedUpTo(s, t, k, j - 1, i) || TouchedIn(s, t, j - 1, i)
  {
    hide TouchedIn, TouchedBy;
  }

  /**
   * The frame is exact: a byte outside the written fields keeps its value, and a byte inside them does not depend on
   * the value it had.
   */
  lemma {:induction false} Frame(s: Schema, t: string, length: nat, i: int, c: char, d: char)
    requires t in s.packets && Fits(s, t, length)
    ensures if Touched(s, t, i) then ByteAfter(s, t, length, i, c) == ByteAfter(s, t, length, i, d)
            else ByteAfter(s, t, length, i, c) == c
    decreases s.rank(t), 1
  {
    EmbeddedFrame(s, t, length, |s.packets[t].embedded|, i, c, d);
  }

  /** Where the last of the fields that cover a byte decides, and which bytes a field covers. */
  lemma {:induction false} LastFieldDecides(s: Schema, t: string, n: nat, k: nat, i: int, c: char)
    requires t in s.packets && k < n <= |s.packets[t].fields| && ValuesFit(s, t)
    requires TouchedBy(s, t, k, i) && forall l :: k < l < n ==> !TouchedBy(s, t, l, i)
    ensures AfterFields(s, t, n, i, c) == s.value(t, k)[i - s.packets[t].fields[k].offset]
    decreases n
  {
    if n > k + 1 {
      assert !TouchedBy(s, t, n - 1, i);
      LastFieldDecides(s, t, n - 1, k, i, c);
    }
  }

  /** A text covers its field, a number at most the first eight bytes of it, and other fields are not written. */
  lemma FieldReach(s: Schema, t: string, k: nat, i: int)
    requires t in s.packets && k < |s.packets[t].fields|
    ensures var f := s.packets[t].fields[k];
            TouchedBy(s, t, k, i) <==>
            f.offset <= i < f.offset + f.size && f.inputType != NotWritten &&
            (f.inputType == Numeric ==> i < f.offset + 8)
  {
  }

  /**
   * An embedded packet reaches the bytes that its own type reaches, in the field it lies in. It is left out when its
   * type has no packet or no field of the outer packet holds it.
   */
  lemma EmbeddedReach(s: Schema, t: string, length: nat, j: nat, i: int)
    requires t in s.packets && Fits(s, t, length) && j < |s.packets[t].embedded|
    ensures var p := s.packets[t];
            var e := p.embedded[j];
            TouchedIn(s, t, j, i) <==>
            e.found && e.packetType in s.packets && e.z >= 0 && e.z < |p.fields| &&
            var f := p.fields[e.z];
            f.offset <= i < f.offset + f.size && Touched(s, e.packetType, i - f.offset)
  {
  }

  /** A byte that lies in no embedded packet is what the last field over it makes of it. */
  lemma {:induction false} OutsideEmbedded(s: Schema, t: string, length: nat, j: nat, i: int, c: char)
    requires t in s.packets && Fits(s, t, length) && j <= |s.packets[t].embedded|
    requires var p := s.packets[t];
             forall l :: 0 <= l < j && Visited(s, p, p.embedded[l]) ==>
                           var f := p.fields[p.embedded[l].z]; !Within(i, f.offset, f.size)
    ensures AfterEmbedded(s, t, length, j, i, c) == AfterFields(s, t, |s.packets[t].fields|, i, c)
    decreases j
  {
    if j > 0 {
      OutsideEmbedded(s, t, length, j - 1, i, c);
    }
  }

  /** An embedded packet comes after the fields: what it writes replaces what they wrote. */
  lemma EmbeddedDecides(s: Schema, t: string, length: nat, i: int, c: char)
    requires t in s.packets && Fits(s, t, length) && s.packets[t].embedded != []
    requires TouchedIn(s, t, |s.packets[t].embedded| - 1, i)
    ensures var p := s.packets[t];
            var e := p.embedded[|p.embedded| - 1];
            ByteAfter(s, t, length, i, c) ==
            ByteAfter(s, e.packetType, p.fields[e.z].size, i - p.fields[e.z].offset, c)
  {
    var p := s.packets[t];
    var j := |p.embedded|;
    var e := p.embedded[j - 1];
    Frame(s, e.packetType, p.fields[e.z].size, i - p.fields[e.z].offset,
          AfterEmbedded(s, t, length, j - 1, i, c), c);
  }
}
