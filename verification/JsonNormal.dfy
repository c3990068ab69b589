/** What reading a printed value back keeps of it: the value, up to integer tags, when its arrays have no gaps. */
module JsonNormal {
  import opened JsonValue
  import opened JsonNumber
  import opened JsonLayout
  import opened JsonTree

  predicate IsInteger(v: Value) {
    v.Int? || v.UInt?
  }

  function IntegerOf(v: Value): int
    requires IsInteger(v)
  {
    if v.Int? then v.i else v.u
  }

  /** The values differ at most in whether an integer is tagged `int` or `uint`. */
  ghost predicate SameUpToTag(a: Value, b: Value) {
    if IsInteger(a) && IsInteger(b) then IntegerOf(a) == IntegerOf(b)
    else if a.Array? && b.Array? then
      |a.entries| == |b.entries| &&
      forall i :: 0 <= i < |a.entries| ==>
                    a.entries[i].key == b.entries[i].key && SameUpToTag(a.entries[i].value, b.entries[i].value)
    else if a.Object? && b.Object? then
      |a.entries| == |b.entries| &&
      forall i :: 0 <= i < |a.entries| ==>
                    a.entries[i].key == b.entries[i].key && SameUpToTag(a.entries[i].value, b.entries[i].value)
    else a == b
  }

  /** Every array in the value holds the elements 0, 1, ... without gaps. */
  ghost predicate Dense(v: Value) {
    match v
    case Array(m) => forall i :: 0 <= i < |m| ==> m[i].key == Index(i) && Dense(m[i].value)
    case Object(m) => forall i :: 0 <= i < |m| ==> Dense(m[i].value)
    case _ => true
  }

  /** The element at position `k` of an array that is read back, when the first `i` have been passed over. */
  lemma {:induction false} NormalItemsAt(m: seq<Entry>, i: nat, k: nat)
    requires i <= ArraySize(m)
    ensures |NormalItems(m, i)| == ArraySize(m) - i
    ensures i <= k < ArraySize(m) ==> NormalItems(m, i)[k - i] == Entry(Index(k), Normal(Current(m, Index(k))))
    decreases ArraySize(m) - i
  {
    hide Current, Normal;
    if i < ArraySize(m) {
      NormalItemsAt(m, i + 1, k);
      NormalItemsStep(m, i);
    }
  }

  lemma NormalItemsStep(m: seq<Entry>, i: nat)
    requires i < ArraySize(m)
    ensures NormalItems(m, i) == [Entry(Index(i), Normal(Current(m, Index(i))))] + NormalItems(m, i + 1)
  {
  }

  lemma {:induction false} NormalFieldsAt(m: seq<Entry>, k: nat)
    requires k < |m|
    ensures NormalFields(m)[k] == Entry(m[k].key, Normal(m[k].value))
  {
    if k > 0 {
      NormalFieldsAt(m[1..], k - 1);
    }
  }

  /** In an array without gaps each element is found under its position. */
  lemma DenseLookup(m: seq<Entry>)
    requires Sorted(m) && forall i :: 0 <= i < |m| ==> m[i].key == Index(i)
    ensures ArraySize(m) == |m| && forall i :: 0 <= i < |m| ==> Current(m, Index(i)) == m[i].value
  {
    forall i | 0 <= i < |m|
      ensures Current(m, Index(i)) == m[i].value
    {
      FindAt(m, Index(i));
    }
  }

  /** A value comes back as it was, up to integer tags, exactly when its arrays have no gaps. */
  lemma {:induction false} NormalKeepsDense(v: Value)
    requires Valid(v)
    ensures SameUpToTag(Normal(v), v) <==> Dense(v)
    decreases Weight(v)
  {
    if v.Array? {
      NormalKeepsDenseArray(v.entries);
    } else if v.Object? {
      NormalKeepsDenseObject(v.entries);
    }
  }

  lemma {:induction false} NormalKeepsDenseArray(m: seq<Entry>)
    requires Valid(Array(m))
    ensures SameUpToTag(Normal(Array(m)), Array(m)) <==> Dense(Array(m))
    decreases MapWeight(m)
  {
    hide Normal, NormalItems, Current, SameUpToTag, Valid, Dense, MapWeight;
    var n := NormalItems(m, 0);
    NormalArray(m);
    SameArrays(n, m);
    NormalLength(m);
    if (forall i :: 0 <= i < |m| ==> m[i].key == Index(i)) {
      ArrayIsValid(m);
      DenseLookup(m);
      forall i | 0 <= i < |m|
        ensures n[i].key == m[i].key && (SameUpToTag(n[i].value, m[i].value) <==> Dense(m[i].value))
      {
        NormalItemAt(m, i);
        EntryWeight(m, i);
        NormalKeepsDense(m[i].value);
      }
    } else {
      var i :| 0 <= i < |m| && m[i].key != Index(i);
      if i < |n| {
        NormalItemAt(m, i);
      }
    }
  }

  lemma SameArrays(n: seq<Entry>, m: seq<Entry>)
    ensures SameUpToTag(Array(n), Array(m)) <==>
            |n| == |m| &&
            forall i :: 0 <= i < |n| ==> n[i].key == m[i].key && SameUpToTag(n[i].value, m[i].value)
    ensures Dense(Array(m)) <==> forall i :: 0 <= i < |m| ==> m[i].key == Index(i) && Dense(m[i].value)
  {
  }

  lemma ArrayIsValid(m: seq<Entry>)
    ensures Valid(Array(m)) <==>
            Sorted(m) &&
            forall i :: 0 <= i < |m| ==> m[i].key.Index? && m[i].key.index < MAX_UINT32 && Valid(m[i].value)
  {
  }

  lemma NormalLength(m: seq<Entry>)
    ensures |NormalItems(m, 0)| == ArraySize(m)
  {
    NormalItemsAt(m, 0, 0);
  }

  lemma NormalItemAt(m: seq<Entry>, k: nat)
    requires k < ArraySize(m)
    ensures |NormalItems(m, 0)| == ArraySize(m)
    ensures NormalItems(m, 0)[k] == Entry(Index(k), Normal(Current(m, Index(k))))
  {
    NormalItemsAt(m, 0, k);
  }

  lemma NormalArray(m: seq<Entry>)
    ensures Normal(Array(m)) == Array(NormalItems(m, 0))
    ensures Normal(Object(m)) == Object(NormalFields(m))
  {
  }

  lemma {:induction false} NormalKeepsDenseObject(m: seq<Entry>)
    requires Valid(Object(m))
    ensures SameUpToTag(Normal(Object(m)), Object(m)) <==> Dense(Object(m))
    decreases MapWeight(m)
  {
    hide Normal, NormalFields;
    var n := NormalFields(m);
    NormalArray(m);
    forall i | 0 <= i < |m|
      ensures n[i].key == m[i].key && (SameUpToTag(n[i].value, m[i].value) <==> Dense(m[i].value))
    {
      NormalFieldsAt(m, i);
      EntryWeight(m, i);
      NormalKeepsDense(m[i].value);
    }
  }

  /** What comes back is well formed and has no gaps, and comes back unchanged from then on. */
  lemma {:induction false} NormalIsStable(v: Value)
    requires Printable(v)
    ensures Printable(Normal(v)) && Dense(Normal(v)) && Normal(Normal(v)) == Normal(v)
    decreases Weight(v), 1
  {
    if v.Array? {
      NormalArrayIsStable(v.entries);
    } else if v.Object? {
      NormalObjectIsStable(v.entries);
    }
  }

  lemma {:induction false} NormalArrayIsStable(m: seq<Entry>)
    requires Printable(Array(m))
    ensures var v := Normal(Array(m)); Printable(v) && Dense(v) && Normal(v) == v
    decreases Weight(Array(m)), 0
  {
    hide Normal, NormalItems, Current, Valid, Dense, RealFree, Weight, MapWeight;
    var n := NormalItems(m, 0);
    NormalArray(m);
    NormalLength(m);
    MapWeightOf(m);
    forall i | 0 <= i < |n|
      ensures n[i].key == Index(i) && Printable(n[i].value) && Dense(n[i].value)
      ensures Normal(n[i].value) == n[i].value
    {
      NormalItemAt(m, i);
      ElementIsPrintable(m, i);
      CurrentWeight(m, Index(i));
      NormalIsStable(Current(m, Index(i)));
    }
    SizeIsBounded(m);
    DenseIsPrintable(n);
    DenseLookup(n);
    NormalArray(n);
    NormalLength(n);
    forall i | 0 <= i < |n|
      ensures NormalItems(n, 0)[i] == n[i]
    {
      NormalItemAt(n, i);
    }
    assert NormalItems(n, 0) == n;
  }

  lemma MapWeightOf(m: seq<Entry>)
    ensures Weight(Array(m)) == 1 + MapWeight(m)
  {
  }

  lemma ElementIsPrintable(m: seq<Entry>, i: nat)
    requires Printable(Array(m))
    ensures Printable(Current(m, Index(i)))
  {
    CurrentPrintable(m, Index(i));
  }

  lemma SizeIsBounded(m: seq<Entry>)
    requires Printable(Array(m))
    ensures ArraySize(m) <= MAX_UINT32
  {
  }

  lemma DenseIsPrintable(n: seq<Entry>)
    requires |n| <= MAX_UINT32
    requires forall i :: 0 <= i < |n| ==> n[i].key == Index(i) && Printable(n[i].value) && Dense(n[i].value)
    ensures Sorted(n) && Printable(Array(n)) && Dense(Array(n))
  {
  }

  lemma {:induction false} NormalObjectIsStable(m: seq<Entry>)
    requires Printable(Object(m))
    ensures var v := Normal(Object(m)); Printable(v) && Dense(v) && Normal(v) == v
    decreases Weight(Object(m)), 0
  {
    hide Normal, NormalFields;
    var n := NormalFields(m);
    NormalArray(m);
    forall i | 0 <= i < |n|
      ensures Printable(n[i].value) && Dense(n[i].value) && Normal(n[i].value) == n[i].value
    {
      NormalFieldsAt(m, i);
      EntryWeight(m, i);
      NormalIsStable(m[i].value);
    }
    NormalArray(n);
    forall i | 0 <= i < |n|
      ensures NormalFields(n)[i] == n[i]
    {
      NormalFieldsAt(n, i);
    }
    assert NormalFields(n) == n;
  }

  // ---- Nesting ----

  /** At most `h` values are open at once: the value itself, and all that contain another. */
  ghost predicate NestsWithin(v: Value, h: nat) {
    h > 0 &&
    match v
    case Array(m) => forall i :: 0 <= i < |m| ==> NestsWithin(m[i].value, h - 1)
    case Object(m) => forall i :: 0 <= i < |m| ==> NestsWithin(m[i].value, h - 1)
    case _ => true
  }

  /** The height of the printed tree is the nesting of the value. */
  lemma {:induction false} HeightIsNesting(v: Value, cut: bool, h: nat)
    requires Valid(v)
    ensures Height(DocOf(v, cut)) <= h <==> NestsWithin(v, h)
    decreases Weight(v), 0
  {
    if h > 0 {
      if v.Array? {
        ItemsNesting(v.entries, 0, cut, h - 1);
        ElementsNesting(v.entries, h - 1);
      } else if v.Object? {
        FieldsNesting(v.entries, cut, h - 1);
      }
    }
  }

  lemma {:induction false} ItemsNesting(m: seq<Entry>, i: nat, cut: bool, h: nat)
    requires forall j :: 0 <= j < |m| ==> Valid(m[j].value)
    ensures ItemsHeight(ItemsOf(m, i, cut)) <= h <==>
            forall j :: i <= j < ArraySize(m) ==> NestsWithin(Current(m, Index(j)), h)
    decreases MapWeight(m), ArraySize(m) - i + 1
  {
    hide Current, DocOf, NestsWithin, Height, Valid;
    if i < ArraySize(m) {
      CurrentWeight(m, Index(i));
      CurrentValid(m, Index(i));
      HeightIsNesting(Current(m, Index(i)), cut, h);
      ItemsNesting(m, i + 1, cut, h);
      ItemsStep(m, i, cut);
      assert ItemsOf(m, i, cut)[1..] == ItemsOf(m, i + 1, cut);
    }
  }

  lemma ElementsNesting(m: seq<Entry>, h: nat)
    requires Valid(Array(m))
    ensures (forall j :: 0 <= j < ArraySize(m) ==> NestsWithin(Current(m, Index(j)), h)) <==>
            (forall i :: 0 <= i < |m| ==> NestsWithin(m[i].value, h))
  {
    hide Current, NestsWithin;
    forall j | 0 <= j < ArraySize(m) && (forall i :: 0 <= i < |m| ==> NestsWithin(m[i].value, h))
      ensures NestsWithin(Current(m, Index(j)), h)
    {
      var i := LookedUp(m, Index(j));
      NestsStep(m[0].value, h);
      NestsStep(Null, h);
    }
    forall i | 0 <= i < |m| && (forall j :: 0 <= j < ArraySize(m) ==> NestsWithin(Current(m, Index(j)), h))
      ensures NestsWithin(m[i].value, h)
    {
      StoredElement(m, i);
      assert m[i].key == Index(m[i].key.index);
    }
  }

  lemma NestsStep(v: Value, h: nat)
    ensures NestsWithin(v, h) ==> h > 0
    ensures NestsWithin(Null, h) <==> h > 0
  {
  }

  lemma {:induction false} FieldsNesting(m: seq<Entry>, cut: bool, h: nat)
    requires forall j :: 0 <= j < |m| ==> Valid(m[j].value)
    ensures FieldsHeight(FieldsOf(m, cut)) <= h <==> forall i :: 0 <= i < |m| ==> NestsWithin(m[i].value, h)
    decreases MapWeight(m), 1
  {
    hide DocOf, NestsWithin, Height, Valid;
    if m != [] {
      HeightIsNesting(m[0].value, cut, h);
      FieldsNesting(m[1..], cut, h);
      assert FieldsOf(m, cut)[1..] == FieldsOf(m[1..], cut);
      assert forall i :: 0 < i < |m| ==> m[i] == m[1..][i - 1];
    }
  }
}
