/**
 * What the reader can give: well-formed trees without gaps, tagged as the reader tags. Printing such a tree and reading
 * it again gives the same tree, whatever document it came from.
 */
module JsonReparse {
  import opened JsonValue
  import opened JsonNumber
  import opened JsonScan
  import opened JsonString
  import opened JsonGrammar
  import opened JsonReader
  import opened JsonLayout
  import opened JsonTree
  import opened JsonNormal
  import opened JsonWeave
  import opened JsonRoundTrip

  /** The reader counts elements in a signed 32-bit integer, so that longer documents could make it overflow. */
  const MAX_DOCUMENT := 0x7FFF_FFFF

  /** A tree as the reader builds it: well formed, without gaps, unchanged by printing and reading, `h` deep at most. */
  ghost predicate Solid(v: Value, h: nat) {
    Valid(v) && Dense(v) && Normal(v) == v && NestsWithin(v, h)
  }

  ghost predicate SolidMembers(m: seq<Entry>, h: nat) {
    Sorted(m) && forall i :: 0 <= i < |m| ==> m[i].key.Name? && Solid(m[i].value, h)
  }

  ghost predicate SolidElements(m: seq<Entry>, h: nat) {
    |m| <= MAX_DOCUMENT && forall i :: 0 <= i < |m| ==> m[i].key == Index(i) && Solid(m[i].value, h)
  }

  lemma SolidObject(m: seq<Entry>, h: nat)
    requires SolidMembers(m, h)
    ensures Solid(Object(m), h + 1)
  {
    hide Normal, NormalFields;
    NormalArray(m);
    forall i | 0 <= i < |m|
      ensures NormalFields(m)[i] == m[i]
    {
      NormalFieldsAt(m, i);
    }
    assert NormalFields(m) == m;
  }

  lemma SolidArray(m: seq<Entry>, h: nat)
    requires SolidElements(m, h)
    ensures Solid(Array(m), h + 1)
  {
    hide Normal, NormalItems, Current;
    assert Valid(Array(m));
    DenseLookup(m);
    NormalArray(m);
    NormalLength(m);
    forall i | 0 <= i < |m|
      ensures NormalItems(m, 0)[i] == m[i]
    {
      NormalItemAt(m, i);
    }
    assert NormalItems(m, 0) == m;
  }

  lemma SolidScalar(x: Input, t: Token, prior: Value, h: nat)
    requires t.start <= t.end <= |x.doc| && (t.kind == StringToken ==> t.start + 2 <= t.end) && h > 0
    ensures var r := ScalarAt(x, t, prior); r.Read? ==> Solid(r.value, h)
  {
    hide StringAt;
  }

  lemma SolidPut(m: seq<Entry>, name: string, v: Value, h: nat)
    requires SolidMembers(m, h) && Solid(v, h)
    ensures SolidMembers(Put(m, Name(name), v), h)
  {
    hide Solid, Put;
    var p := Put(m, Name(name), v);
    PutSorted(m, Name(name), v);
    forall i | 0 <= i < |p|
      ensures p[i].key.Name? && Solid(p[i].value, h)
    {
      PutEntries(m, Name(name), v, p[i]);
    }
  }

  lemma SolidAppend(m: seq<Entry>, v: Value, h: nat)
    requires SolidElements(m, h) && Solid(v, h) && |m| < MAX_DOCUMENT
    ensures SolidElements(Put(m, Index(|m|), v), h) && |Put(m, Index(|m|), v)| == |m| + 1
  {
    hide Solid, Put;
    PutAppends(m, Index(|m|), v);
  }

  /** Every value that is read is solid, within the depth that is left. */
  lemma {:induction false} ValueIsSolid(x: Input, p: nat, depth: nat, prior: Value)
    requires p <= |x.doc| < MAX_DOCUMENT && depth <= STACK_LIMIT
    ensures var r := ValueAt(x, p, depth, prior); r.Read? ==> Solid(r.value, STACK_LIMIT - depth)
    decreases |x.doc| - p, 1
  {
    hide ValueAt, MembersAt, ArrayAt, ScalarAt, Solid, SkippedTo;
    ValueStep(x, p, depth, prior);
    if depth < STACK_LIMIT {
      var t := SkippedTo(x, p);
      if t.kind == ObjectBegin {
        NothingIsSolid(STACK_LIMIT - depth - 1);
        MembersAreSolid(x, t.end, depth + 1, [], "");
      } else if t.kind == ArrayBegin {
        ArrayIsSolid(x, t.end, depth + 1);
      } else {
        SolidScalar(x, t, prior, STACK_LIMIT - depth);
      }
    }
  }

  lemma NothingIsSolid(h: nat)
    ensures SolidMembers([], h) && SolidElements([], h)
  {
  }

  lemma {:induction false} MembersAreSolid(x: Input, p: nat, depth: nat, m: seq<Entry>, name: string)
    requires p <= |x.doc| < MAX_DOCUMENT && 0 < depth <= STACK_LIMIT && SolidMembers(m, STACK_LIMIT - depth)
    ensures var r := MembersAt(x, p, depth, m, name); r.Read? ==> Solid(r.value, STACK_LIMIT - depth + 1)
    decreases |x.doc| - p, 0
  {
    hide MembersAt, MemberValueAt, Solid, SolidMembers, NextToken, TokenAt, StringAt;
    MembersStep(x, p, depth, m, name);
    SolidObject(m, STACK_LIMIT - depth);
    var t := NextToken(x, p);
    if t.kind == StringToken && StringAt(x.doc, t).Text? {
      var colon := TokenAt(x.doc, t.end);
      if colon.kind == MemberSeparator {
        MemberValueIsSolid(x, colon.end, depth, m, StringAt(x.doc, t).value);
      }
    }
  }

  lemma {:induction false} MemberValueIsSolid(x: Input, p: nat, depth: nat, m: seq<Entry>, name: string)
    requires p <= |x.doc| < MAX_DOCUMENT && 0 < depth <= STACK_LIMIT && SolidMembers(m, STACK_LIMIT - depth)
    ensures var r := MemberValueAt(x, p, depth, m, name); r.Read? ==> Solid(r.value, STACK_LIMIT - depth + 1)
    decreases |x.doc| - p, 2
  {
    hide ValueAt, MembersAt, MemberValueAt, Solid, SolidMembers, NextToken, TokenAt, Put, Current;
    var h := STACK_LIMIT - depth;
    var r := ValueAt(x, p, depth, Current(m, Name(name)));
    MemberValueStep(x, p, depth, m, name, r);
    ValueIsSolid(x, p, depth, Current(m, Name(name)));
    if r.Read? {
      var n := Put(m, Name(name), r.value);
      SolidPut(m, name, r.value, h);
      SolidObject(n, h);
      var next := NextToken(x, r.next);
      MembersAreSolid(x, next.end, depth, n, name);
    }
  }

  lemma {:induction false} ArrayIsSolid(x: Input, p: nat, depth: nat)
    requires p <= |x.doc| < MAX_DOCUMENT && 0 < depth <= STACK_LIMIT
    ensures var r := ArrayAt(x, p, depth); r.Read? ==> Solid(r.value, STACK_LIMIT - depth + 1)
    decreases |x.doc| - p, 3
  {
    hide ArrayAt, ElementsAt, Solid, SolidElements, SkipSpaces;
    ArrayStep(x, p, depth);
    NothingIsSolid(STACK_LIMIT - depth);
    SolidArray([], STACK_LIMIT - depth);
    ElementsAreSolid(x, SkipSpaces(x.doc, p), depth, []);
  }

  lemma {:induction false} ElementsAreSolid(x: Input, p: nat, depth: nat, m: seq<Entry>)
    requires |m| <= p <= |x.doc| && |x.doc| < MAX_DOCUMENT && 0 < depth <= STACK_LIMIT
    requires SolidElements(m, STACK_LIMIT - depth)
    ensures var r := ElementsAt(x, p, depth, m, |m|); r.Read? ==> Solid(r.value, STACK_LIMIT - depth + 1)
    decreases |x.doc| - p, 2
  {
    hide ValueAt, ElementsAt, Solid, SolidElements, NextToken, Put, Current;
    var h, k := STACK_LIMIT - depth, Index(|m|);
    var r := ValueAt(x, p, depth, Current(m, k));
    ElementsStep(x, p, depth, m, |m|, r);
    ValueIsSolid(x, p, depth, Current(m, k));
    if r.Read? {
      SolidAppend(m, r.value, h);
      SolidArray(Put(m, k, r.value), h);
      ElementsAreSolid(x, NextToken(x, r.next).end, depth, Put(m, k, r.value));
    }
  }

  /** A document that parses gives a solid tree. */
  lemma DocumentIsSolid(x: Input, prior: Value)
    requires |x.doc| < MAX_DOCUMENT && DocumentOf(x, prior).Finished? && DocumentOf(x, prior).ok
    ensures Solid(DocumentOf(x, prior).root, STACK_LIMIT)
  {
    hide ValueAt, Solid;
    ValueIsSolid(x, 0, 0, prior);
  }

  /**
   * Whatever document a tree without doubles was read from, printing it with either printer and reading the text
   * succeeds. It gives exactly the same tree, but for the styled printer and a name with a NUL.
   */
  lemma ReadPrintRead(x: Input, prior: Value, y: Input, other: Value, cut: bool)
    requires |x.doc| < MAX_DOCUMENT && DocumentOf(x, prior).Finished? && DocumentOf(x, prior).ok
    requires y.features == x.features
    requires var v := DocumentOf(x, prior).root; RealFree(v) && LaysOut(y.doc, Lexemes(DocOf(v, cut)))
    ensures var v := DocumentOf(x, prior).root;
            DocumentOf(y, other) == Finished(true, Meaning(DocOf(v, cut)), []) &&
            (DocumentOf(y, other).root == v <==> (cut ==> NulFree(v)))
  {
    hide ValueAt, LaysOut, Lexemes, DocOf, Meaning, Normal, Valid, RealFree, NulFree, NestsWithin, Dense;
    var v := DocumentOf(x, prior).root;
    DocumentIsSolid(x, prior);
    ReadsPrinted(y, v, cut, other);
    CutMatters(v);
    assert RootErrors(x, v) == RootErrors(y, v) == [];
  }
}
