/** The ordering of `Json::Value`: `operator<`, `operator==` and `compare`. */
module JsonOrder {
  import opened JsonValue

  /** The numbering of `enum ValueType`. */
  function TypeRank(v: Value): int {
    match v
    case Null => 0
    case Int(_) => 1
    case UInt(_) => 2
    case Real(_) => 3
    case Str(_) => 4
    case Bool(_) => 5
    case Array(_) => 6
    case Object(_) => 7
  }

  /** `int(a - b)` for two `size_t`: the difference wraps to 64 bits and is cut to a signed 32-bit integer. */
  function SizeDelta(a: nat, b: nat): int {
    var low := (a - b) % 0x1_0000_0000;
    if low < 0x8000_0000 then low else low - 0x1_0000_0000
  }

  /** `Value::operator<`. */
  predicate Less(a: Value, b: Value)
    decreases Weight(a) + Weight(b), 0
  {
    if TypeRank(a) != TypeRank(b) then TypeRank(a) < TypeRank(b)
    else
      match a
      case Null => false
      case Int(i) => i < b.i
      case UInt(u) => u < b.u
      case Real(r) => r < b.r
      case Str(s) => StringLess(s, b.s)
      case Bool(x) => !x && b.b
      case Array(m) => ContainerLess(m, b.entries)
      case Object(m) => ContainerLess(m, b.entries)
  }

  /** Containers compare by size first, and then entry by entry. */
  predicate ContainerLess(m: seq<Entry>, n: seq<Entry>)
    decreases MapWeight(m) + MapWeight(n), 2
  {
    var delta := SizeDelta(|m|, |n|);
    if delta != 0 then delta < 0 else MapLess(m, n)
  }

  /** `operator<` of `std::map`: the lexicographical comparison of the entries. */
  predicate MapLess(m: seq<Entry>, n: seq<Entry>)
    decreases MapWeight(m) + MapWeight(n), 1
  {
    if n == [] then false
    else if m == [] then true
    else if EntryLess(m[0], n[0]) then true
    else if EntryLess(n[0], m[0]) then false
    else MapLess(m[1..], n[1..])
  }

  /** `operator<` of `std::pair`. */
  predicate EntryLess(e: Entry, f: Entry)
    decreases Weight(e.value) + Weight(f.value), 1
  {
    KeyLess(e.key, f.key) || (!KeyLess(f.key, e.key) && Less(e.value, f.value))
  }

  /** `Value::operator==`. */
  predicate Equals(a: Value, b: Value) {
    if TypeRank(a) != TypeRank(b) then false
    else
      match a
      case Null => true
      case Int(i) => i == b.i
      case UInt(u) => u == b.u
      case Real(r) => r == b.r
      case Str(s) => |s| == |b.s| && MemCmp(s, b.s, |s|) == 0
      case Bool(x) => x == b.b
      case Array(m) => |m| == |b.entries| && MapEquals(m, b.entries)
      case Object(m) => |m| == |b.entries| && MapEquals(m, b.entries)
  }

  predicate MapEquals(m: seq<Entry>, n: seq<Entry>)
    requires |m| == |n|
  {
    if m == [] then true
    else
      assert m[0].value < m[0];
      m[0].key == n[0].key && Equals(m[0].value, n[0].value) && MapEquals(m[1..], n[1..])
  }

  /** `Value::compare`. */
  function Compare(a: Value, b: Value): int {
    if Less(a, b) then -1 else if Less(b, a) then 1 else 0
  }

  // ---- Which value is less ----

  /** The kinds, from the least to the greatest. */
  lemma KindsAscend(i: int, u: int, r: real, s: string, b: bool, m: seq<Entry>, n: seq<Entry>)
    ensures var kinds := [Null, Int(i), UInt(u), Real(r), Str(s), Bool(b), Array(m), Object(n)];
            forall j, k :: 0 <= j < 8 && 0 <= k < 8 && j != k ==> (Less(kinds[j], kinds[k]) <==> j < k)
  {
    var kinds := [Null, Int(i), UInt(u), Real(r), Str(s), Bool(b), Array(m), Object(n)];
    assert forall j :: 0 <= j < 8 ==> TypeRank(kinds[j]) == j;
  }

  /** Numbers are ordered by size, strings as names are, and false comes before true. */
  lemma ScalarsAscend(i: int, j: int, r: real, t: real, s: string, z: string, a: bool, b: bool)
    ensures Less(Int(i), Int(j)) <==> i < j
    ensures Less(UInt(i), UInt(j)) <==> i < j
    ensures Less(Real(r), Real(t)) <==> r < t
    ensures Less(Str(s), Str(z)) <==> NameBefore(s, z)
    ensures Less(Bool(a), Bool(b)) <==> !a && b
    ensures !Less(Null, Null)
  {
    StringOrder(s, z);
  }

  /** The smaller container is less. Of two of one size the first entries that differ decide. */
  lemma ContainersAscend(a: Value, b: Value, k: nat)
    requires (a.Array? && b.Array?) || (a.Object? && b.Object?)
    requires |a.entries| < 0x8000_0000 && |b.entries| < 0x8000_0000
    ensures |a.entries| != |b.entries| ==> (Less(a, b) <==> |a.entries| < |b.entries|)
    ensures |a.entries| == |b.entries| && k < |a.entries| && a.entries[..k] == b.entries[..k] ==>
              var e, f := a.entries[k], b.entries[k];
              e != f ==> (Less(a, b) <==> KeyLess(e.key, f.key) || (e.key == f.key && Less(e.value, f.value)))
  {
    var m, n := a.entries, b.entries;
    SizeDeltaSmall(|m|, |n|);
    if |m| == |n| && k < |m| && m[..k] == n[..k] && m[k] != n[k] {
      FirstDifference(m, n, k);
      KeyLessTrichotomy(m[k].key, n[k].key);
    }
  }

  lemma {:induction false} FirstDifference(m: seq<Entry>, n: seq<Entry>, k: nat)
    requires k < |m| && k < |n| && m[..k] == n[..k] && m[k] != n[k]
    ensures MapLess(m, n) <==> EntryLess(m[k], n[k])
    decreases k
  {
    hide EntryLess, HalfApart;
    EntryTrichotomy(m[0], n[0]);
    if k > 0 {
      assert m[0] == m[..k][0] == n[..k][0] == n[0];
      assert m[1..][..k - 1] == m[..k][1..] == n[..k][1..] == n[1..][..k - 1];
      FirstDifference(m[1..], n[1..], k - 1);
    }
  }

  // ---- The order is strict and total ----

  /** No container has 2^31 entries or more. */
  ghost predicate Narrow(v: Value) {
    match v
    case Array(m) => |m| < 0x8000_0000 && forall i :: 0 <= i < |m| ==> Narrow(m[i].value)
    case Object(m) => |m| < 0x8000_0000 && forall i :: 0 <= i < |m| ==> Narrow(m[i].value)
    case _ => true
  }

  ghost predicate NarrowMap(m: seq<Entry>) {
    forall i :: 0 <= i < |m| ==> Narrow(m[i].value)
  }

  lemma SizeDeltaSmall(a: nat, b: nat)
    requires a < 0x8000_0000 && b < 0x8000_0000
    ensures SizeDelta(a, b) == a - b
  {
  }

  /** `operator==` is equality of the values themselves. */
  lemma {:induction false} EqualsIsEquality(a: Value, b: Value)
    ensures Equals(a, b) <==> a == b
    decreases a, 1
  {
    match a
    case Str(s) =>
      if b.Str? && |s| == |b.s| {
        assert s[..|s|] == s && b.s[..|s|] == b.s;
      }
    case Array(m) =>
      if b.Array? && |m| == |b.entries| {
        MapEqualsIsEquality(m, b.entries);
      }
    case Object(m) =>
      if b.Object? && |m| == |b.entries| {
        MapEqualsIsEquality(m, b.entries);
      }
    case _ =>
  }

  lemma {:induction false} MapEqualsIsEquality(m: seq<Entry>, n: seq<Entry>)
    requires |m| == |n|
    ensures MapEquals(m, n) <==> m == n
    decreases m, 0
  {
    if m != [] {
      assert m[0].value < m[0];
      EqualsIsEquality(m[0].value, n[0].value);
      MapEqualsIsEquality(m[1..], n[1..]);
      assert m == [m[0]] + m[1..] && n == [n[0]] + n[1..];
    }
  }

  /**
   * Where the comparison of two values ends, it compares two containers whose sizes differ by 2^31, modulo 2^32: the
   * one distance that the `int` gives the same sign in both directions.
   */
  predicate HalfApart(a: Value, b: Value)
    decreases Weight(a) + Weight(b), 0
  {
    if a.Array? && b.Array? then HalfApartContainers(a.entries, b.entries)
    else if a.Object? && b.Object? then HalfApartContainers(a.entries, b.entries)
    else false
  }

  predicate HalfApartContainers(m: seq<Entry>, n: seq<Entry>)
    decreases MapWeight(m) + MapWeight(n), 2
  {
    var distance := (|m| - |n|) % 0x1_0000_0000;
    if distance != 0 then distance == 0x8000_0000 else HalfApartMaps(m, n)
  }

  predicate HalfApartMaps(m: seq<Entry>, n: seq<Entry>)
    decreases MapWeight(m) + MapWeight(n), 1
  {
    if m == [] || n == [] then false
    else if m[0] == n[0] then HalfApartMaps(m[1..], n[1..])
    else m[0].key == n[0].key && HalfApart(m[0].value, n[0].value)
  }

  /**
   * Of `a < b`, `a == b` and `b < a` at least one holds, and only one unless both are less because their sizes are
   * half apart where the comparison ends.
   */
  lemma {:induction false} LessTrichotomy(a: Value, b: Value)
    ensures !Less(a, b) && !Less(b, a) <==> a == b
    ensures Less(a, b) && Less(b, a) <==> HalfApart(a, b)
    decreases Weight(a) + Weight(b), 0
  {
    if TypeRank(a) == TypeRank(b) {
      match a
      case Str(s) => StringLessTrichotomy(s, b.s);
      case Array(m) => ContainerTrichotomy(m, b.entries);
      case Object(m) => ContainerTrichotomy(m, b.entries);
      case _ =>
    }
  }

  lemma {:induction false} ContainerTrichotomy(m: seq<Entry>, n: seq<Entry>)
    ensures !ContainerLess(m, n) && !ContainerLess(n, m) <==> m == n
    ensures ContainerLess(m, n) && ContainerLess(n, m) <==> HalfApartContainers(m, n)
    decreases MapWeight(m) + MapWeight(n), 2
  {
    hide MapLess, HalfApartMaps;
    MapTrichotomy(m, n);
  }

  lemma {:induction false} MapTrichotomy(m: seq<Entry>, n: seq<Entry>)
    ensures !MapLess(m, n) && !MapLess(n, m) <==> m == n
    ensures MapLess(m, n) && MapLess(n, m) <==> HalfApartMaps(m, n)
    decreases MapWeight(m) + MapWeight(n), 1
  {
    hide EntryLess, HalfApart;
    if m != [] && n != [] {
      EntryTrichotomy(m[0], n[0]);
      MapTrichotomy(m[1..], n[1..]);
      assert m == [m[0]] + m[1..] && n == [n[0]] + n[1..];
    }
  }

  lemma {:induction false} EntryTrichotomy(e: Entry, f: Entry)
    ensures !EntryLess(e, f) && !EntryLess(f, e) <==> e == f
    ensures EntryLess(e, f) && EntryLess(f, e) <==> e != f && e.key == f.key && HalfApart(e.value, f.value)
    decreases Weight(e.value) + Weight(f.value), 1
  {
    hide Less, HalfApart;
    KeyLessTrichotomy(e.key, f.key);
    LessTrichotomy(e.value, f.value);
  }

  /** Containers below 2^31 entries are never half apart. */
  lemma {:induction false} NarrowIsNotHalfApart(a: Value, b: Value)
    requires Narrow(a) && Narrow(b)
    ensures !HalfApart(a, b)
    decreases Weight(a) + Weight(b), 0
  {
    if (a.Array? && b.Array?) || (a.Object? && b.Object?) {
      NarrowMaps(a.entries, b.entries);
    }
  }

  lemma {:induction false} NarrowMaps(m: seq<Entry>, n: seq<Entry>)
    requires NarrowMap(m) && NarrowMap(n)
    ensures !HalfApartMaps(m, n)
    decreases MapWeight(m) + MapWeight(n), 1
  {
    hide HalfApart, Narrow;
    if m != [] && n != [] {
      NarrowMaps(m[1..], n[1..]);
      NarrowIsNotHalfApart(m[0].value, n[0].value);
    }
  }

  /**
   * Where the comparison of three values ends, their sizes go up by 2^31 or more in two steps that the `int` takes
   * for smaller ones: the wrap turns the order of the first and the last around.
   */
  predicate Turns(a: Value, b: Value, c: Value)
    decreases Weight(a) + Weight(b) + Weight(c), 0
  {
    if a.Array? && b.Array? && c.Array? then TurnsContainers(a.entries, b.entries, c.entries)
    else if a.Object? && b.Object? && c.Object? then TurnsContainers(a.entries, b.entries, c.entries)
    else false
  }

  predicate TurnsContainers(m: seq<Entry>, n: seq<Entry>, o: seq<Entry>)
    decreases MapWeight(m) + MapWeight(n) + MapWeight(o), 2
  {
    var d, e := SizeDelta(|m|, |n|), SizeDelta(|n|, |o|);
    if d != 0 || e != 0 then d + e < -0x8000_0000 else TurnsMaps(m, n, o)
  }

  predicate TurnsMaps(m: seq<Entry>, n: seq<Entry>, o: seq<Entry>)
    decreases MapWeight(m) + MapWeight(n) + MapWeight(o), 1
  {
    if m == [] || n == [] || o == [] then false
    else if m[0] == n[0] == o[0] then TurnsMaps(m[1..], n[1..], o[1..])
    else m[0].key == n[0].key == o[0].key && Turns(m[0].value, n[0].value, o[0].value)
  }

  /** Two steps are needed. */
  lemma {:induction false} OneStepNeverTurns(a: Value, b: Value, c: Value)
    requires a == b || b == c
    ensures !Turns(a, b, c)
    decreases Weight(a) + Weight(b) + Weight(c), 0
  {
    if (a.Array? && b.Array? && c.Array?) || (a.Object? && b.Object? && c.Object?) {
      OneStepNeverTurnsMaps(a.entries, b.entries, c.entries);
    }
  }

  lemma {:induction false} OneStepNeverTurnsMaps(m: seq<Entry>, n: seq<Entry>, o: seq<Entry>)
    requires m == n || n == o
    ensures !TurnsMaps(m, n, o)
    decreases MapWeight(m) + MapWeight(n) + MapWeight(o), 1
  {
    hide Turns;
    if m != [] && n != [] && o != [] {
      OneStepNeverTurns(m[0].value, n[0].value, o[0].value);
      OneStepNeverTurnsMaps(m[1..], n[1..], o[1..]);
    }
  }

  /** Unless both steps are half apart, `a < b < c` gives `a < c` exactly when the wrap does not turn the order. */
  lemma {:induction false} LessUnlessTurned(a: Value, b: Value, c: Value)
    requires Less(a, b) && Less(b, c) && (!HalfApart(a, b) || !HalfApart(b, c))
    ensures Less(a, c) <==> !Turns(a, b, c)
    decreases Weight(a) + Weight(b) + Weight(c), 0
  {
    if TypeRank(a) == TypeRank(b) == TypeRank(c) {
      match a
      case Str(s) => StringLessTransitive(s, b.s, c.s);
      case Array(m) => ContainerUnlessTurned(m, b.entries, c.entries);
      case Object(m) => ContainerUnlessTurned(m, b.entries, c.entries);
      case _ =>
    }
  }

  /** Two steps down make one step, unless together they are longer than an `int` shows. */
  lemma SizeDeltaSum(a: nat, b: nat, c: nat)
    requires SizeDelta(a, b) <= 0 && SizeDelta(b, c) <= 0
    ensures var sum := SizeDelta(a, b) + SizeDelta(b, c);
            SizeDelta(a, c) == if sum < -0x8000_0000 then sum + 0x1_0000_0000 else sum
  {
  }

  lemma SizeDeltaHalf(a: nat, b: nat)
    ensures -0x8000_0000 <= SizeDelta(a, b) < 0x8000_0000
    ensures (a - b) % 0x1_0000_0000 == 0 <==> SizeDelta(a, b) == 0
    ensures (a - b) % 0x1_0000_0000 == 0x8000_0000 <==> SizeDelta(a, b) == -0x8000_0000
  {
  }

  lemma {:induction false} ContainerUnlessTurned(m: seq<Entry>, n: seq<Entry>, o: seq<Entry>)
    requires ContainerLess(m, n) && ContainerLess(n, o)
    requires !HalfApartContainers(m, n) || !HalfApartContainers(n, o)
    ensures ContainerLess(m, o) <==> !TurnsContainers(m, n, o)
    decreases MapWeight(m) + MapWeight(n) + MapWeight(o), 2
  {
    hide MapLess, HalfApartMaps, TurnsMaps, SizeDelta;
    SizeDeltaHalf(|m|, |n|);
    SizeDeltaHalf(|n|, |o|);
    SizeDeltaSum(|m|, |n|, |o|);
    if SizeDelta(|m|, |n|) == 0 && SizeDelta(|n|, |o|) == 0 {
      MapUnlessTurned(m, n, o);
    }
  }

  lemma {:induction false} MapUnlessTurned(m: seq<Entry>, n: seq<Entry>, o: seq<Entry>)
    requires MapLess(m, n) && MapLess(n, o) && (!HalfApartMaps(m, n) || !HalfApartMaps(n, o))
    ensures MapLess(m, o) <==> !TurnsMaps(m, n, o)
    decreases MapWeight(m) + MapWeight(n) + MapWeight(o), 1
  {
    hide EntryLess, HalfApart, Turns;
    if m != [] {
      var e, f, g := m[0], n[0], o[0];
      EntryTrichotomy(e, f);
      EntryTrichotomy(f, g);
      EntryTrichotomy(e, g);
      if e == f == g {
        MapUnlessTurned(m[1..], n[1..], o[1..]);
      } else {
        EntryUnlessTurned(e, f, g);
      }
    }
  }

  /** The first entries that differ decide. */
  lemma {:induction false} EntryUnlessTurned(e: Entry, f: Entry, g: Entry)
    requires EntryLess(e, f) || e == f
    requires EntryLess(f, g) || f == g
    requires !(e == f == g)
    requires !(EntryLess(e, f) && EntryLess(f, e)) || !(EntryLess(f, g) && EntryLess(g, f))
    ensures EntryLess(e, g) <==> !(e.key == f.key == g.key && Turns(e.value, f.value, g.value))
    ensures EntryLess(e, g) || EntryLess(g, e)
    decreases Weight(e.value) + Weight(f.value) + Weight(g.value), 1
  {
    hide Less, Turns, HalfApart;
    KeyLessTrichotomy(e.key, f.key);
    KeyLessTrichotomy(f.key, g.key);
    KeyLessTrichotomy(e.key, g.key);
    EntryTrichotomy(e, f);
    EntryTrichotomy(f, g);
    EntryTrichotomy(e, g);
    if KeyLess(e.key, f.key) && KeyLess(f.key, g.key) {
      KeyLessTransitive(e.key, f.key, g.key);
    } else if e == f || f == g {
      OneStepNeverTurns(e.value, f.value, g.value);
    } else if e.key == f.key == g.key {
      LessUnlessTurned(e.value, f.value, g.value);
    }
  }

  /** Below 2^31 entries nothing turns. */
  lemma {:induction false} NarrowNeverTurns(a: Value, b: Value, c: Value)
    requires Narrow(a) && Narrow(b) && Narrow(c)
    ensures !Turns(a, b, c)
    decreases Weight(a) + Weight(b) + Weight(c), 0
  {
    if (a.Array? && b.Array? && c.Array?) || (a.Object? && b.Object? && c.Object?) {
      SizeDeltaSmall(|a.entries|, |b.entries|);
      SizeDeltaSmall(|b.entries|, |c.entries|);
      NarrowMapsNeverTurn(a.entries, b.entries, c.entries);
    }
  }

  lemma {:induction false} NarrowMapsNeverTurn(m: seq<Entry>, n: seq<Entry>, o: seq<Entry>)
    requires NarrowMap(m) && NarrowMap(n) && NarrowMap(o)
    ensures !TurnsMaps(m, n, o)
    decreases MapWeight(m) + MapWeight(n) + MapWeight(o), 1
  {
    hide Turns, Narrow;
    if m != [] && n != [] && o != [] {
      NarrowMapsNeverTurn(m[1..], n[1..], o[1..]);
      NarrowNeverTurns(m[0].value, n[0].value, o[0].value);
    }
  }

  /** Values whose containers stay below 2^31 entries are strictly and totally ordered. */
  lemma LessTransitive(a: Value, b: Value, c: Value)
    requires Narrow(a) && Narrow(b) && Narrow(c)
    requires Less(a, b) && Less(b, c)
    ensures Less(a, c)
  {
    NarrowIsNotHalfApart(a, b);
    NarrowNeverTurns(a, b, c);
    LessUnlessTurned(a, b, c);
  }

  /**
   * `compare` answers 0 exactly for values that `operator==` calls equal. Its sign flips with the arguments exactly
   * when they are not half apart.
   */
  lemma CompareAgrees(a: Value, b: Value)
    ensures Compare(a, b) == 0 <==> Equals(a, b)
    ensures Compare(a, b) == -Compare(b, a) <==> !HalfApart(a, b)
    ensures Compare(a, b) < 0 <==> Less(a, b)
    ensures Compare(a, b) > 0 <==> Less(b, a) && !Less(a, b)
  {
    LessTrichotomy(a, b);
    EqualsIsEquality(a, b);
    if a == b {
      SameIsNotHalfApart(a);
    }
  }

  lemma SameIsNotHalfApart(a: Value)
    ensures !HalfApart(a, a)
  {
    LessTrichotomy(a, a);
  }

  function Wide(n: nat): Value {
    Array(seq(n, i requires 0 <= i < n => Entry(Index(i), Null)))
  }

  /**
   * Both do happen. Of the empty array and one of 2^31 elements each is less than the other, and
   * three arrays none of which are half apart are each less than the next, in a circle.
   */
  lemma WideArraysBreakTheOrder()
    ensures Less(Wide(0x8000_0000), Wide(0)) && Less(Wide(0), Wide(0x8000_0000))
    ensures var a, b, c := Wide(0), Wide(0x7FFF_FFFF), Wide(0xFFFF_FFFE);
            Valid(a) && Valid(b) && Valid(c) && Less(a, b) && Less(b, c) && Less(c, a) && Turns(a, b, c) &&
            !HalfApart(a, b) && !HalfApart(b, c) && !HalfApart(c, a)
  {
    assert SizeDelta(0x8000_0000, 0) == -0x8000_0000 == SizeDelta(0, 0x8000_0000);
    assert SizeDelta(0, 0x7FFF_FFFF) < 0 && SizeDelta(0x7FFF_FFFF, 0xFFFF_FFFE) < 0 && SizeDelta(0xFFFF_FFFE, 0) < 0;
  }
}
