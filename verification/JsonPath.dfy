/** Pointers into a value tree. A `Value*` on the reader's stack is the path of keys from the root to the value. */
module JsonPath {
  import opened JsonValue

  type Path = seq<CZString>

  predicate IsContainer(v: Value) {
    v.Array? || v.Object?
  }

  function WithEntries(v: Value, m: seq<Entry>): Value
    requires IsContainer(v)
  {
    match v
    case Array(_) => Array(m)
    case Object(_) => Object(m)
  }

  /** The path leads from `v` to a value. */
  ghost predicate Resolves(v: Value, path: Path) {
    path == [] ||
    (IsContainer(v) && Sorted(v.entries) && Find(v.entries, path[0]).Some? &&
     Resolves(Find(v.entries, path[0]).value, path[1..]))
  }

  /** The value a pointer points to. */
  function Get(v: Value, path: Path): Value
    requires Resolves(v, path)
  {
    if path == [] then v else Get(Find(v.entries, path[0]).value, path[1..])
  }

  /** The tree after assigning through a pointer. */
  function Set(v: Value, path: Path, w: Value): Value
    requires Resolves(v, path)
  {
    if path == [] then w
    else
      var child := Set(Find(v.entries, path[0]).value, path[1..], w);
      WithEntries(v, Put(v.entries, path[0], child))
  }

  lemma {:induction false} GetSet(v: Value, path: Path, w: Value)
    requires Resolves(v, path)
    ensures Resolves(Set(v, path, w), path) && Get(Set(v, path, w), path) == w
  {
    if path != [] {
      var child := Find(v.entries, path[0]).value;
      GetSet(child, path[1..], w);
      PutSorted(v.entries, path[0], Set(child, path[1..], w));
      FindPut(v.entries, path[0], Set(child, path[1..], w), path[0]);
    }
  }

  /** Assigning the value that is there changes nothing. */
  lemma {:induction false} SetSame(v: Value, path: Path)
    requires Resolves(v, path)
    ensures Set(v, path, Get(v, path)) == v
  {
    if path != [] {
      var m, k := v.entries, path[0];
      SetSame(Find(m, k).value, path[1..]);
      FindAt(m, k);
      assert Put(m, k, Find(m, k).value) == m;
    }
  }

  /** Of two assignments through one pointer the second one stays. */
  lemma {:induction false} SetSet(v: Value, path: Path, w: Value, u: Value)
    requires Resolves(v, path)
    ensures Resolves(Set(v, path, w), path) && Set(Set(v, path, w), path, u) == Set(v, path, u)
  {
    GetSet(v, path, w);
    if path != [] {
      var m, k, child := v.entries, path[0], Find(v.entries, path[0]).value;
      SetSet(child, path[1..], w, u);
      var a, b := Set(child, path[1..], w), Set(child, path[1..], u);
      FindPut(m, k, a, k);
      PutTwice(m, k, a, b);
    }
  }

  /** A pointer to an entry of the value another pointer points to. */
  lemma {:induction false} ExtendPath(v: Value, path: Path, k: CZString)
    requires Resolves(v, path)
    requires IsContainer(Get(v, path)) && Sorted(Get(v, path).entries) && Find(Get(v, path).entries, k).Some?
    ensures Resolves(v, path + [k]) && Get(v, path + [k]) == Find(Get(v, path).entries, k).value
  {
    if path == [] {
      assert ([k] + [])[1..] == [];
      assert path + [k] == [k];
    } else {
      assert (path + [k])[1..] == path[1..] + [k];
      ExtendPath(Find(v.entries, path[0]).value, path[1..], k);
    }
  }

  /** Assigning to an entry is assigning the container with that entry replaced. */
  lemma {:induction false} SetEntry(v: Value, path: Path, k: CZString, w: Value)
    requires Resolves(v, path)
    requires IsContainer(Get(v, path)) && Sorted(Get(v, path).entries) && Find(Get(v, path).entries, k).Some?
    ensures Resolves(v, path + [k])
    ensures Set(v, path + [k], w) == Set(v, path, WithEntries(Get(v, path), Put(Get(v, path).entries, k, w)))
  {
    ExtendPath(v, path, k);
    if path == [] {
      assert path + [k] == [k] && [k][1..] == [];
    } else {
      assert (path + [k])[1..] == path[1..] + [k];
      SetEntry(Find(v.entries, path[0]).value, path[1..], k, w);
    }
  }
}
