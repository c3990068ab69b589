/**
 * The array operations of `Json::Value`. An array is a map from 32-bit indexes to values; read as a sequence with null
 * for every missing element, its operations are the operations of a sequence, up to two corners that are made exact.
 */
module JsonArray {
  import opened JsonValue

  const INDEX_COUNT := 0x1_0000_0000

  /** The map of an array: keys in order, each a 32-bit index. */
  ghost predicate Indexed(m: seq<Entry>) {
    Sorted(m) && forall i :: 0 <= i < |m| ==> m[i].key.Index? && m[i].key.index < INDEX_COUNT
  }

  /** The array as a sequence: as long as its highest index demands, null where an element is missing. */
  function ViewOf(m: seq<Entry>): seq<Value> {
    seq(ArraySize(m), i requires 0 <= i => Current(m, Index(i)))
  }

  ghost predicate Present(m: seq<Entry>, index: nat) {
    Find(m, Index(index)).Some?
  }

  function Nulls(n: nat): seq<Value> {
    seq(n, _ => Null)
  }

  /** Sequence assignment that first grows the sequence with nulls as far as needed. */
  function Assigned(s: seq<Value>, i: nat, v: Value): seq<Value> {
    if i < |s| then s[i := v] else s + Nulls(i - |s|) + [v]
  }

  function Resized(s: seq<Value>, n: nat): seq<Value> {
    if n <= |s| then s[..n] else s + Nulls(n - |s|)
  }

  lemma GrowByOne(s: seq<Value>, n: nat)
    requires n > 0
    ensures n > |s| ==> Assigned(s, n - 1, Null) == Resized(s, n)
    ensures n <= |s| ==> |Assigned(s, n - 1, Null)| == |s|
  {
  }

  // ---- The view of a map ----

  lemma SizeBound(m: seq<Entry>)
    requires Indexed(m)
    ensures ArraySize(m) <= INDEX_COUNT
    ensures ArraySize(m) == 0 <==> m == []
    ensures m != [] ==> Present(m, ArraySize(m) - 1)
    ensures forall k: nat :: Present(m, k) ==> k < ArraySize(m)
  {
    if m != [] {
      FindAt(m, m[|m| - 1].key);
    }
    forall k: nat | Present(m, k)
      ensures k < ArraySize(m)
    {
      FindAt(m, Index(k));
      var i :| 0 <= i < |m| && m[i].key == Index(k);
      assert i < |m| - 1 ==> KeyLess(m[i].key, m[|m| - 1].key);
    }
  }

  /** The view is the one sequence that agrees with every lookup and ends with a present element. */
  lemma ViewIs(m: seq<Entry>, s: seq<Value>)
    requires Indexed(m)
    requires s != [] ==> Present(m, |s| - 1)
    requires forall k: nat :: Present(m, k) ==> k < |s|
    requires forall i :: 0 <= i < |s| ==> s[i] == Current(m, Index(i))
    ensures ViewOf(m) == s
  {
    SizeBound(m);
  }

  lemma PutIndexed(m: seq<Entry>, index: nat, v: Value)
    requires Indexed(m) && index < INDEX_COUNT
    ensures Indexed(Put(m, Index(index), v))
    ensures forall k: nat ::
              Find(Put(m, Index(index), v), Index(k)) == if k == index then Some(v) else Find(m, Index(k))
  {
    PutSorted(m, Index(index), v);
    forall k: nat
      ensures Find(Put(m, Index(index), v), Index(k)) == if k == index then Some(v) else Find(m, Index(k))
    {
      FindPut(m, Index(index), v, Index(k));
    }
  }

  lemma EraseIndexed(m: seq<Entry>, index: nat)
    requires Indexed(m)
    ensures Indexed(Erase(m, Index(index)))
    ensures forall k: nat :: Find(Erase(m, Index(index)), Index(k)) == if k == index then None else Find(m, Index(k))
  {
    EraseSorted(m, Index(index));
    forall k: nat
      ensures Find(Erase(m, Index(index)), Index(k)) == if k == index then None else Find(m, Index(k))
    {
      FindErase(m, Index(index), Index(k));
    }
  }

  /** Storing an element is sequence assignment. */
  lemma ViewPut(m: seq<Entry>, index: nat, v: Value)
    requires Indexed(m) && index < INDEX_COUNT
    ensures ViewOf(Put(m, Index(index), v)) == Assigned(ViewOf(m), index, v)
  {
    hide Put, Find, Indexed, ArraySize;
    var p, s := Put(m, Index(index), v), Assigned(ViewOf(m), index, v);
    PutIndexed(m, index, v);
    SizeBound(m);
    forall i | 0 <= i < |s|
      ensures s[i] == Current(p, Index(i))
    {
      assert i >= ArraySize(m) ==> !Present(m, i);
    }
    forall k: nat | Present(p, k)
      ensures k < |s|
    {
      assert k == index || Present(m, k);
    }
    assert |s| == |ViewOf(m)| ==> s == [] || |s| - 1 == index || Present(m, |s| - 1);
    ViewIs(p, s);
  }

  /** Dropping all elements from `n` on is taking a prefix, exactly when element `n - 1` is present or `n` is 0. */
  lemma ViewTruncated(m: seq<Entry>, n: nat, p: seq<Entry>)
    requires Indexed(m) && Indexed(p) && n <= ArraySize(m)
    requires forall k: nat :: Find(p, Index(k)) == if k < n then Find(m, Index(k)) else None
    ensures ViewOf(p) == ViewOf(m)[..n] <==> n == 0 || Present(m, n - 1)
    ensures ArraySize(p) == n <==> n == 0 || Present(m, n - 1)
    ensures ArraySize(p) <= n
  {
    hide Find, Indexed, ArraySize;
    SizeBound(p);
    if n == 0 || Present(m, n - 1) {
      ViewIs(p, ViewOf(m)[..n]);
    } else {
      assert ArraySize(p) > 0 ==> Present(p, ArraySize(p) - 1);
    }
  }

  /** What is found under `k` once the elements above `index` have moved down and the last one is erased. */
  ghost function AfterRemoval(m: seq<Entry>, index: nat, k: nat): Option<Value> {
    if index <= k < ArraySize(m) - 1 then Some(Current(m, Index(k + 1)))
    else if k < index then Find(m, Index(k))
    else None
  }

  /** Moving all elements above `index` down by one is removing an element of the sequence, up to the same corner. */
  lemma ViewRemoved(m: seq<Entry>, index: nat, p: seq<Entry>)
    requires Indexed(m) && Indexed(p) && index < ArraySize(m)
    requires forall k: nat :: Find(p, Index(k)) == AfterRemoval(m, index, k)
    ensures ViewOf(p) == ViewOf(m)[..index] + ViewOf(m)[index + 1..] <==>
            index < ArraySize(m) - 1 || index == 0 || Present(m, index - 1)
  {
    if index < ArraySize(m) - 1 || index == 0 || Present(m, index - 1) {
      RemovedView(m, index, p);
    } else {
      hide Find, Indexed, ArraySize, Current;
      SizeBound(p);
      assert ArraySize(p) > 0 ==> AfterRemoval(m, index, ArraySize(p) - 1).Some?;
    }
  }

  lemma RemovedView(m: seq<Entry>, index: nat, p: seq<Entry>)
    requires Indexed(m) && Indexed(p) && index < ArraySize(m)
    requires forall k: nat :: Find(p, Index(k)) == AfterRemoval(m, index, k)
    requires index < ArraySize(m) - 1 || index == 0 || Present(m, index - 1)
    ensures ViewOf(p) == ViewOf(m)[..index] + ViewOf(m)[index + 1..]
  {
    hide Find, Indexed, ArraySize;
    var v := ViewOf(m);
    var s := v[..index] + v[index + 1..];
    forall k: nat | Present(p, k)
      ensures k < |s|
    {
      assert AfterRemoval(m, index, k).Some?;
    }
    forall i | 0 <= i < |s|
      ensures s[i] == Current(p, Index(i))
    {
      assert s[i] == if i < index then v[i] else v[i + 1];
    }
    ViewIs(p, s);
  }

  /** Counting down from the size, in 32 bits, gives the highest index even where the size reads as 0. */
  lemma LastIndex(size: nat)
    requires 0 < size <= INDEX_COUNT
    ensures (size % INDEX_COUNT + INDEX_COUNT - 1) % INDEX_COUNT == size - 1
  {
  }

  // ---- The operations ----

  /**
   * A `Json::Value` that is used as an array. The operations answer `ok` when the value is an array or null, which
   * counts as an empty array; otherwise they throw and change nothing.
   */
  class ArrayValue {
    var value_: Value

    constructor (value: Value)
      requires value.Array? ==> Indexed(value.entries)
      ensures Valid() && value_ == value
    {
      value_ := value;
    }

    ghost predicate Valid()
      reads this
    {
      value_.Array? ==> Indexed(value_.entries)
    }

    function Elements(): seq<Entry>
      reads this
    {
      if value_.Array? then value_.entries else []
    }

    function View(): seq<Value>
      reads this
    {
      ViewOf(Elements())
    }

    predicate IsArrayOrNull()
      reads this
    {
      value_.Array? || value_.Null?
    }

    /** `size`, of an array: the number of elements, but 0 when the highest 32-bit index is in use. */
    method Size() returns (size: nat)
      requires Valid()
      ensures size == |View()| % INDEX_COUNT && size < INDEX_COUNT
      ensures size == |View()| <==> |View()| < INDEX_COUNT
    {
      SizeBound(Elements());
      size := ArraySize(Elements()) % INDEX_COUNT;
    }

    /** `operator[] const` */
    method At(index: nat) returns (ok: bool, element: Value)
      requires Valid() && index < INDEX_COUNT
      ensures ok == IsArrayOrNull()
      ensures ok ==> element == if index < |View()| then View()[index] else Null
    {
      SizeBound(Elements());
      ok := IsArrayOrNull();
      element := Current(Elements(), Index(index));
    }

    /** `operator[]`, used without assigning to the element: a missing element is inserted as null. */
    method Subscript(index: nat) returns (ok: bool)
      requires Valid() && index < INDEX_COUNT
      modifies this
      ensures Valid() && ok == old(IsArrayOrNull()) && (!ok ==> value_ == old(value_))
      ensures ok ==> value_.Array? && View() == Assigned(old(View()), index, Current(old(Elements()), Index(index)))
      ensures ok ==> Elements() == Put(old(Elements()), Index(index), Current(old(Elements()), Index(index)))
    {
      hide Put, Find;
      if !IsArrayOrNull() {
        return false;
      }
      if value_.Null? {
        value_ := Array([]);
      }
      var element := Current(value_.entries, Index(index));
      PutIndexed(value_.entries, index, element);
      ViewPut(value_.entries, index, element);
      value_ := Array(Put(value_.entries, Index(index), element));
      ok := true;
    }

    /** `(*this)[index] = value` */
    method Assign(index: nat, value: Value) returns (ok: bool)
      requires Valid() && index < INDEX_COUNT
      modifies this
      ensures Valid() && ok == old(IsArrayOrNull()) && (!ok ==> value_ == old(value_))
      ensures ok ==> value_.Array? && View() == Assigned(old(View()), index, value)
      ensures ok ==> Elements() == Put(old(Elements()), Index(index), value)
    {
      hide Put, Find;
      ghost var m := Elements();
      ok := Subscript(index);
      if ok {
        PutTwice(m, Index(index), Current(m, Index(index)), value);
        PutIndexed(m, index, value);
        ViewPut(m, index, value);
        value_ := Array(Put(value_.entries, Index(index), value));
      }
    }

    /** `append` adds at the end, unless the highest index is in use; then it overwrites the first element. */
    method Append(value: Value) returns (ok: bool)
      requires Valid()
      modifies this
      ensures Valid() && ok == old(IsArrayOrNull()) && (!ok ==> value_ == old(value_))
      ensures ok ==> (View() == old(View()) + [value] <==> |old(View())| < INDEX_COUNT)
      ensures ok && |old(View())| == INDEX_COUNT ==> View() == old(View())[0 := value]
    {
      hide Put, Find, ArraySize, Indexed;
      EmptyMap();
      SizeBound(Elements());
      var size := Size();
      ok := Assign(size, value);
    }

    /**
     * `resize`. Growing always works on an array that does not use the highest index. Shrinking to `newSize` works
     * exactly when the last element to be kept is present, or none is kept; otherwise the array gets shorter still
     * and the assertion at the end of the source fails (`asserted`).
     */
    method Resize(newSize: nat) returns (ok: bool, asserted: bool)
      requires Valid() && newSize < INDEX_COUNT
      modifies this
      ensures Valid() && ok == old(IsArrayOrNull()) && (!ok ==> value_ == old(value_))
      ensures ok ==> (View() == Resized(old(View()), newSize) <==>
                       newSize == 0
                       || (|old(View())| < INDEX_COUNT
                           && (newSize > |old(View())| || Present(old(Elements()), newSize - 1))))
      ensures ok && newSize <= |old(View())| < INDEX_COUNT ==>
                forall k: nat ::
                  Find(Elements(), Index(k)) == if k < newSize then Find(old(Elements()), Index(k)) else None
      ensures ok ==> (asserted <==>
                       newSize == 0 || |old(View())| == INDEX_COUNT || newSize > |old(View())|
                       || Present(old(Elements()), newSize - 1))
    {
      hide Put, Find, Erase, Indexed, ArraySize, Sorted;
      if !IsArrayOrNull() {
        return false, true;
      }
      if value_.Null? {
        value_ := Array([]);
        EmptyMap();
      }
      ghost var m := value_.entries;
      ok, asserted := true, true;
      SizeBound(m);
      var oldSize := Size();
      if newSize == 0 {
        value_ := Array([]);
        EmptyMap();
      } else if newSize > oldSize {
        assert newSize > ArraySize(m) ==> !Present(m, newSize - 1);
        GrowByOne(ViewOf(m), newSize);
        ok := Subscript(newSize - 1);
      } else {
        for index := newSize to oldSize
          invariant value_.Array? && Indexed(value_.entries)
          invariant forall k: nat :: Find(value_.entries, Index(k)) ==
                                if newSize <= k < index then None else Find(m, Index(k))
        {
          EraseIndexed(value_.entries, index);
          value_ := Array(Erase(value_.entries, Index(index)));
        }
        forall k: nat | k >= oldSize
          ensures Find(m, Index(k)).None?
        {
          assert !Present(m, k);
        }
        ViewTruncated(m, newSize, value_.entries);
        var size := Size();
        asserted := size == newSize;
      }
    }

    /**
     * `removeIndex` removes a present element from the sequence and hands it back. When it is the last element, the
     * array gets shorter still unless the one before is present. A missing element is not removed.
     */
    method RemoveIndex(index: nat) returns (ok: bool, removed: Value)
      requires Valid() && index < INDEX_COUNT
      modifies this
      ensures Valid() && ok == (old(value_).Array? && Present(old(Elements()), index))
      ensures !ok ==> value_ == old(value_)
      ensures ok ==> forall k: nat :: Find(Elements(), Index(k)) == AfterRemoval(old(Elements()), index, k)
      ensures ok ==> index < |old(View())| && removed == old(View())[index]
      ensures ok ==> (View() == old(View())[..index] + old(View())[index + 1..] <==>
                       index < |old(View())| - 1 || index == 0 || Present(old(Elements()), index - 1))
    {
      hide Put, Find, Erase, Indexed, ArraySize, Sorted, Shifted, AfterRemoval;
      if !value_.Array? || Find(value_.entries, Index(index)).None? {
        return false, Null;
      }
      ghost var m := value_.entries;
      ok, removed := true, Current(value_.entries, Index(index));
      SizeBound(m);
      var oldSize := Size();
      assert Present(m, index);
      LastIndex(ArraySize(m));
      ShiftedStep(m, index, index);
      var last := (oldSize + INDEX_COUNT - 1) % INDEX_COUNT;
      for i := index to last
        invariant value_.Array? && Indexed(value_.entries)
        invariant forall k: nat :: Find(value_.entries, Index(k)) == Shifted(m, index, i, k)
      {
        ShiftedStep(m, index, i);
        MoveDown(i);
      }
      EraseIndexed(value_.entries, last);
      value_ := Array(Erase(value_.entries, Index(last)));
      ShiftedIsRemoval(m, index);
      ViewRemoved(m, index, value_.entries);
    }

    /** `(*value_.map_)[i] = (*this)[i + 1]` */
    method MoveDown(i: nat)
      requires value_.Array? && Indexed(value_.entries) && i + 1 < INDEX_COUNT
      modifies this
      ensures value_.Array? && Indexed(value_.entries)
      ensures forall k: nat :: Find(value_.entries, Index(k)) ==
                          if k == i || k == i + 1 then Some(Current(old(value_.entries), Index(i + 1)))
                          else Find(old(value_.entries), Index(k))
    {
      hide Put, Find, Indexed, ArraySize;
      ghost var m := value_.entries;
      PutIndexed(m, i + 1, Current(m, Index(i + 1)));
      var _ := Subscript(i + 1);
      PutIndexed(value_.entries, i, Current(value_.entries, Index(i + 1)));
      value_ := Array(Put(value_.entries, Index(i), Current(value_.entries, Index(i + 1))));
    }
  }

  /** What is found under `k` while the elements above `index` move down: those up to `i` have moved. */
  ghost function Shifted(m: seq<Entry>, index: nat, i: nat, k: nat): Option<Value> {
    if index <= k < i then Some(Current(m, Index(k + 1)))
    else if index < i == k then Some(Current(m, Index(k)))
    else Find(m, Index(k))
  }

  /** Before the first move nothing has changed; each move shifts one more. */
  lemma ShiftedStep(m: seq<Entry>, index: nat, i: nat)
    requires index <= i
    ensures forall k: nat :: Shifted(m, index, index, k) == Find(m, Index(k))
    ensures forall k: nat :: Shifted(m, index, i + 1, k) ==
                        if k == i || k == i + 1 then Some(Current(m, Index(i + 1))) else Shifted(m, index, i, k)
    ensures Shifted(m, index, i, i + 1) == Find(m, Index(i + 1))
  {
    hide Find, Current;
    forall k: nat
      ensures Shifted(m, index, i + 1, k) ==
              if k == i || k == i + 1 then Some(Current(m, Index(i + 1))) else Shifted(m, index, i, k)
    {
    }
  }

  /** Without the last one, the shifted elements are those after the removal. */
  lemma ShiftedIsRemoval(m: seq<Entry>, index: nat)
    requires Indexed(m) && index < ArraySize(m)
    ensures forall k: nat :: AfterRemoval(m, index, k) ==
                        if k == ArraySize(m) - 1 then None else Shifted(m, index, ArraySize(m) - 1, k)
  {
    SizeBound(m);
    hide Find, Indexed, ArraySize, Current;
    forall k: nat
      ensures AfterRemoval(m, index, k) ==
              if k == ArraySize(m) - 1 then None else Shifted(m, index, ArraySize(m) - 1, k)
    {
      assert k >= ArraySize(m) ==> !Present(m, k);
    }
  }

  lemma EmptyMap()
    ensures Indexed([]) && ViewOf([]) == [] && forall k :: Find([], k).None?
  {
  }
}
