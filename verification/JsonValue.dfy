/** The value tree of jsoncpp: `Json::Value`, its keys, and the `std::map` that arrays and objects share. */
module JsonValue {

  datatype Option<+T> = None | Some(value: T)

  const MAX_INT := 0x7FFF_FFFF
  const MAX_UINT32 := 0xFFFF_FFFF
  const MIN_INT64 := -0x8000_0000_0000_0000
  const MAX_INT64 := 0x7FFF_FFFF_FFFF_FFFF
  const MAX_UINT64 := 0xFFFF_FFFF_FFFF_FFFF

  /** `Value::CZString`: the key of an array element or the name of an object member. */
  datatype CZString = Index(index: nat) | Name(str: string)

  datatype Entry = Entry(key: CZString, value: Value)

  /**
   * `Json::Value`. Arrays and objects hold a `std::map` from keys to values, written here as the sequence an
   * iterator over the map visits. A finite double is its real number.
   */
  datatype Value =
    | Null
    | Int(i: int)
    | UInt(u: int)
    | Real(r: real)
    | Str(s: string)
    | Bool(b: bool)
    | Array(entries: seq<Entry>)
    | Object(entries: seq<Entry>)

  // ---- Keys ----

  /** The sign of `memcmp` on the first `n` characters. */
  function MemCmp(a: string, b: string, n: nat): (r: int)
    requires n <= |a| && n <= |b|
    ensures r == 0 <==> a[..n] == b[..n]
    decreases n
  {
    if n == 0 then 0
    else if a[0] < b[0] then -1
    else if b[0] < a[0] then 1
    else
      assert a[..n] == [a[0]] + a[1..][..n - 1];
      assert b[..n] == [b[0]] + b[1..][..n - 1];
      MemCmp(a[1..], b[1..], n - 1)
  }

  /** The order of two strings: `memcmp` on the common length, then the shorter one first. */
  predicate StringLess(a: string, b: string) {
    var minLen := if |a| < |b| then |a| else |b|;
    var comp := MemCmp(a, b, minLen);
    if comp < 0 then true else if comp > 0 then false else |a| < |b|
  }

  /** `CZString::operator<`. One map never mixes the two kinds of key; here indexes come first. */
  predicate KeyLess(a: CZString, b: CZString) {
    match (a, b)
    case (Index(i), Index(j)) => i < j
    case (Index(_), Name(_)) => true
    case (Name(_), Index(_)) => false
    case (Name(s), Name(t)) => StringLess(s, t)
  }

  /** Peels one character off both strings. */
  lemma StringLessStep(a: string, b: string)
    ensures b == [] ==> !StringLess(a, b)
    ensures a == [] && b != [] ==> StringLess(a, b)
    ensures a != [] && b != [] ==>
              (StringLess(a, b) <==> a[0] < b[0] || (a[0] == b[0] && StringLess(a[1..], b[1..])))
  {
  }

  lemma {:induction false} StringLessTrichotomy(a: string, b: string)
    ensures StringLess(a, b) ==> a != b && !StringLess(b, a)
    ensures a != b && !StringLess(b, a) ==> StringLess(a, b)
  {
    StringLessStep(a, b);
    StringLessStep(b, a);
    if a != [] && b != [] {
      StringLessTrichotomy(a[1..], b[1..]);
      assert a == [a[0]] + a[1..] && b == [b[0]] + b[1..];
    }
  }

  lemma {:induction false} StringLessTransitive(a: string, b: string, c: string)
    requires StringLess(a, b) && StringLess(b, c)
    ensures StringLess(a, c)
  {
    StringLessStep(a, b);
    StringLessStep(b, c);
    StringLessStep(a, c);
    if a != [] && b[0] == a[0] && c[0] == b[0] {
      StringLessTransitive(a[1..], b[1..], c[1..]);
    }
  }

  lemma KeyLessTrichotomy(a: CZString, b: CZString)
    ensures KeyLess(a, b) ==> a != b && !KeyLess(b, a)
    ensures a != b && !KeyLess(b, a) ==> KeyLess(a, b)
  {
    if a.Name? && b.Name? {
      StringLessTrichotomy(a.str, b.str);
    }
  }

  /** `s` is a proper prefix of `t`, or has the smaller character where they first differ. */
  ghost predicate NameBefore(s: string, t: string) {
    exists k: nat ::
      k <= |s| && k < |t| && s[..k] == t[..k] && (k == |s| || s[k] < t[k])
  }

  /** The elements of an array come in the order of their indexes, the members of an object in that of their names. */
  lemma KeyOrder(a: CZString, b: CZString)
    ensures a.Index? && b.Index? ==> (KeyLess(a, b) <==> a.index < b.index)
    ensures a.Name? && b.Name? ==> (KeyLess(a, b) <==> NameBefore(a.str, b.str))
  {
    if a.Name? && b.Name? {
      StringOrder(a.str, b.str);
    }
  }

  lemma NameBeforeStep(s: string, t: string)
    requires s != [] && t != []
    ensures NameBefore(s, t) <==> s[0] < t[0] || (s[0] == t[0] && NameBefore(s[1..], t[1..]))
  {
    var u, v := s[1..], t[1..];
    if NameBefore(s, t) && !(s[0] < t[0]) {
      var k: nat :| k <= |s| && k < |t| && s[..k] == t[..k] && (k == |s| || s[k] < t[k]);
      assert s[..k][0] == t[..k][0];
      assert u[..k - 1] == s[..k][1..] && v[..k - 1] == t[..k][1..];
    }
    if s[0] == t[0] && NameBefore(u, v) {
      var k: nat :| k <= |u| && k < |v| && u[..k] == v[..k] && (k == |u| || u[k] < v[k]);
      assert s[..k + 1] == [s[0]] + u[..k] && t[..k + 1] == [t[0]] + v[..k];
    }
    if s[0] < t[0] {
      assert s[..0] == t[..0];
    }
  }

  lemma {:induction false} StringOrder(s: string, t: string)
    ensures StringLess(s, t) <==> NameBefore(s, t)
  {
    hide StringLess;
    StringLessStep(s, t);
    if s != [] && t != [] {
      hide NameBefore;
      NameBeforeStep(s, t);
      StringOrder(s[1..], t[1..]);
    } else if t != [] {
      assert s[..0] == t[..0];
    }
  }

  lemma KeyLessTransitive(a: CZString, b: CZString, c: CZString)
    requires KeyLess(a, b) && KeyLess(b, c)
    ensures KeyLess(a, c)
  {
    if a.Name? && b.Name? && c.Name? {
      StringLessTransitive(a.str, b.str, c.str);
    }
  }

  // ---- std::map<CZString, Value> ----

  /** The keys a map iterator meets are strictly increasing. */
  ghost predicate Sorted(m: seq<Entry>) {
    forall i, j :: 0 <= i < j < |m| ==> KeyLess(m[i].key, m[j].key)
  }

  ghost predicate HasKey(m: seq<Entry>, k: CZString) {
    exists i :: 0 <= i < |m| && m[i].key == k
  }

  /** `map::lower_bound`: how many keys are less than `k`, given that they come first. */
  function LowerBound(m: seq<Entry>, k: CZString): (n: nat)
    ensures n <= |m|
    ensures forall i :: 0 <= i < n ==> KeyLess(m[i].key, k)
    ensures n < |m| ==> !KeyLess(m[n].key, k)
  {
    if m == [] || !KeyLess(m[0].key, k) then 0 else 1 + LowerBound(m[1..], k)
  }

  /** `map::find`. */
  function Find(m: seq<Entry>, k: CZString): Option<Value> {
    var n := LowerBound(m, k);
    if n < |m| && m[n].key == k then Some(m[n].value) else None
  }

  /** `map[k] = v`: replaces the value at `k`, or inserts at the lower bound. */
  function Put(m: seq<Entry>, k: CZString, v: Value): seq<Entry> {
    var n := LowerBound(m, k);
    if n < |m| && m[n].key == k then m[n := Entry(k, v)] else m[..n] + [Entry(k, v)] + m[n..]
  }

  /** `map::erase(k)`. */
  function Erase(m: seq<Entry>, k: CZString): seq<Entry> {
    var n := LowerBound(m, k);
    if n < |m| && m[n].key == k then m[..n] + m[n + 1..] else m
  }

  lemma LowerBoundUnique(m: seq<Entry>, k: CZString, n: nat)
    requires Sorted(m) && n <= |m|
    requires forall i :: 0 <= i < n ==> KeyLess(m[i].key, k)
    requires n < |m| ==> !KeyLess(m[n].key, k)
    ensures LowerBound(m, k) == n
  {
  }

  /** `find` finds exactly the value stored under the key. */
  lemma FindAt(m: seq<Entry>, k: CZString)
    requires Sorted(m)
    ensures Find(m, k).None? <==> !HasKey(m, k)
    ensures forall i :: 0 <= i < |m| && m[i].key == k ==> Find(m, k) == Some(m[i].value)
  {
    forall i | 0 <= i < |m| && m[i].key == k
      ensures Find(m, k) == Some(m[i].value)
    {
      KeyLessTrichotomy(k, k);
      LowerBoundUnique(m, k, i);
    }
  }

  lemma PutSorted(m: seq<Entry>, k: CZString, v: Value)
    requires Sorted(m)
    ensures Sorted(Put(m, k, v))
  {
    hide LowerBound, KeyLess;
    var n := LowerBound(m, k);
    if n == |m| || m[n].key != k {
      forall j | n <= j < |m|
        ensures KeyLess(k, m[j].key)
      {
        KeyLessTrichotomy(m[n].key, k);
        if n < j {
          KeyLessTransitive(k, m[n].key, m[j].key);
        }
      }
    }
  }

  /** A map after `Put` has the entries it had before, except that the key now holds the new value. */
  lemma PutEntries(m: seq<Entry>, k: CZString, v: Value, e: Entry)
    requires Sorted(m)
    ensures e in Put(m, k, v) <==> e == Entry(k, v) || (e in m && e.key != k)
  {
    hide Find, LowerBound, KeyLess;
    var p, n := Put(m, k, v), LowerBound(m, k);
    assert p[n] == Entry(k, v);
    KeyLessTrichotomy(k, k);
    if e in m && e.key != k {
      var i :| 0 <= i < |m| && m[i] == e;
      assert p[if |p| == |m| || i < n then i else i + 1] == e;
    }
    if e in p && e != Entry(k, v) {
      var i :| 0 <= i < |p| && p[i] == e;
      assert m[if |p| == |m| || i < n then i else i - 1] == e;
      PutSorted(m, k, v);
    }
  }

  /** The map law: a stored value is found again, and other keys see no change. */
  lemma FindPut(m: seq<Entry>, k: CZString, v: Value, q: CZString)
    requires Sorted(m)
    ensures Find(Put(m, k, v), q) == if q == k then Some(v) else Find(m, q)
  {
    hide Find, LowerBound, Put;
    var p := Put(m, k, v);
    PutSorted(m, k, v);
    FindAt(p, q);
    FindAt(m, q);
    PutEntries(m, k, v, Entry(k, v));
    if q != k && HasKey(m, q) {
      var i :| 0 <= i < |m| && m[i].key == q;
      PutEntries(m, k, v, m[i]);
    }
    if q != k && HasKey(p, q) {
      var i :| 0 <= i < |p| && p[i].key == q;
      PutEntries(m, k, v, p[i]);
    }
  }

  lemma EraseSorted(m: seq<Entry>, k: CZString)
    requires Sorted(m)
    ensures Sorted(Erase(m, k))
  {
    hide LowerBound, KeyLess;
  }

  lemma FindErase(m: seq<Entry>, k: CZString, q: CZString)
    requires Sorted(m)
    ensures Find(Erase(m, k), q) == if q == k then None else Find(m, q)
  {
    hide LowerBound, KeyLess, Find;
    var p := Erase(m, k);
    var n := LowerBound(m, k);
    EraseSorted(m, k);
    FindAt(p, q);
    FindAt(m, q);
    FindAt(m, k);
    KeyLessTrichotomy(k, k);
    if q != k && HasKey(m, q) {
      var i :| 0 <= i < |m| && m[i].key == q;
      var i' := if |p| == |m| || i < n then i else i - 1;
      assert p[i'] == m[i];
    }
    if HasKey(p, q) {
      var i :| 0 <= i < |p| && p[i].key == q;
      var i' := if |p| == |m| || i < n then i else i + 1;
      assert m[i'] == p[i];
      if |p| != |m| {
        assert m[n].key == k && i' != n;
        assert if i' < n then KeyLess(q, k) else KeyLess(k, q);
      }
    }
  }

  /** Putting a key above all others appends. */
  lemma PutAppends(m: seq<Entry>, k: CZString, v: Value)
    requires forall i :: 0 <= i < |m| ==> KeyLess(m[i].key, k)
    ensures Put(m, k, v) == m + [Entry(k, v)]
  {
    assert LowerBound(m, k) == |m|;
    assert m[..|m|] == m && m[|m|..] == [];
  }

  /** Putting twice at one key keeps the second value. */
  lemma PutTwice(m: seq<Entry>, k: CZString, v: Value, w: Value)
    requires Sorted(m)
    ensures Put(Put(m, k, v), k, w) == Put(m, k, w)
  {
    hide LowerBound, KeyLess;
    var n := LowerBound(m, k);
    var p := Put(m, k, v);
    PutSorted(m, k, v);
    KeyLessTrichotomy(k, k);
    assert p[n] == Entry(k, v);
    LowerBoundUnique(p, k, n);
  }

  /** Two maps that answer every lookup alike are the same map. */
  lemma {:induction false} SameLookups(m: seq<Entry>, p: seq<Entry>)
    requires Sorted(m) && Sorted(p)
    requires forall k :: Find(m, k) == Find(p, k)
    ensures m == p
  {
    if m == [] && p == [] {
    } else if m == [] {
      FindAt(p, p[0].key);
      FindAt(m, p[0].key);
    } else if p == [] {
      FindAt(m, m[0].key);
      FindAt(p, m[0].key);
    } else {
      FirstKeyAgrees(m, p);
      forall k
        ensures Find(m[1..], k) == Find(p[1..], k)
      {
        FindTail(m, k);
        FindTail(p, k);
      }
      SameLookups(m[1..], p[1..]);
      assert m == [m[0]] + m[1..] && p == [p[0]] + p[1..];
    }
  }

  lemma FirstKeyAgrees(m: seq<Entry>, p: seq<Entry>)
    requires Sorted(m) && Sorted(p) && m != [] && p != []
    requires forall k :: Find(m, k) == Find(p, k)
    ensures m[0] == p[0]
  {
    var a, b := m[0].key, p[0].key;
    FindAt(m, a);
    FindAt(p, a);
    FindAt(m, b);
    FindAt(p, b);
    KeyLessTrichotomy(a, b);
    assert HasKey(p, a) && HasKey(m, b);
  }

  lemma FindTail(m: seq<Entry>, k: CZString)
    requires Sorted(m) && m != []
    ensures Find(m[1..], k) == if k == m[0].key then None else Find(m, k)
  {
    var t := m[1..];
    FindAt(m, k);
    FindAt(t, k);
    KeyLessTrichotomy(k, k);
    if HasKey(t, k) {
      var i :| 0 <= i < |t| && t[i].key == k;
      assert m[i + 1] == t[i];
    }
    if HasKey(m, k) && k != m[0].key {
      var i :| 0 <= i < |m| && m[i].key == k;
      assert t[i - 1] == m[i];
    }
  }

  // ---- Well-founded recursion through maps ----

  ghost function Weight(v: Value): nat {
    match v
    case Array(m) => 1 + MapWeight(m)
    case Object(m) => 1 + MapWeight(m)
    case _ => 0
  }

  ghost function MapWeight(m: seq<Entry>): nat {
    if m == [] then 0
    else
      assert m[0].value < m[0];
      1 + Weight(m[0].value) + MapWeight(m[1..])
  }

  lemma {:induction false} EntryWeight(m: seq<Entry>, i: nat)
    requires i < |m|
    ensures Weight(m[i].value) < MapWeight(m)
  {
    if i > 0 {
      EntryWeight(m[1..], i - 1);
    }
  }

  /** The value a map holds for a key, where a missing key reads as null (`nullRef`). */
  function Current(m: seq<Entry>, k: CZString): Value {
    match Find(m, k)
    case Some(v) => v
    case None => Null
  }

  lemma CurrentWeight(m: seq<Entry>, k: CZString)
    ensures Weight(Current(m, k)) <= MapWeight(m)
  {
    var n := LowerBound(m, k);
    if n < |m| {
      EntryWeight(m, n);
    }
  }

  // ---- Arrays ----

  /** `Value::size` of an array: the highest index plus one. */
  function ArraySize(m: seq<Entry>): nat {
    if m != [] && m[|m| - 1].key.Index? then m[|m| - 1].key.index + 1 else 0
  }

  // ---- Well-formed values ----

  /**
   * What the C++ types guarantee: 64-bit integers, and maps that hold one kind of key in order. An array index is a
   * 32-bit integer; the largest one is left out, because with it `size` wraps around to 0.
   */
  ghost predicate Valid(v: Value) {
    match v
    case Int(i) => MIN_INT64 <= i <= MAX_INT64
    case UInt(u) => 0 <= u <= MAX_UINT64
    case Array(m) =>
      Sorted(m) &&
      forall i :: 0 <= i < |m| ==> m[i].key.Index? && m[i].key.index < MAX_UINT32 && Valid(m[i].value)
    case Object(m) =>
      Sorted(m) && forall i :: 0 <= i < |m| ==> m[i].key.Name? && Valid(m[i].value)
    case _ => true
  }
}
