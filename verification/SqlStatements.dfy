/**
 * Class `FieldNameValueIndexStrings`, which collects the fields of a message and writes SQL, and
 * `ConfigDatabases::setProperties`, which prepares the properties that are written with them.
 */
module SqlStatements {
  import opened JsonValue
  import opened JsonNumber
  import opened SqlText

  // ---- Properties ----

  /** A `std::map`: no name twice, in the order of the names. */
  ghost predicate InOrder(ps: seq<Property>) {
    forall i, j :: 0 <= i < j < |ps| ==> StringLess(ps[i].name, ps[j].name)
  }

  /** `map[name] = value` */
  function WithProperty(ps: seq<Property>, name: string, value: string): (r: seq<Property>)
    ensures forall p :: p in r ==> p in ps || p == Property(name, value)
    ensures Property(name, value) in r
  {
    if ps == [] || StringLess(name, ps[0].name) then [Property(name, value)] + ps
    else if ps[0].name == name then [Property(name, value)] + ps[1..]
    else [ps[0]] + WithProperty(ps[1..], name, value)
  }

  /** The name has its new value, and every other name keeps its own. */
  lemma {:induction false} WithPropertyKeeps(ps: seq<Property>, name: string, value: string)
    requires InOrder(ps)
    ensures InOrder(WithProperty(ps, name, value))
    ensures forall q ::
              q in WithProperty(ps, name, value) <==> q == Property(name, value) || (q in ps && q.name != name)
  {
    hide StringLess;
    if ps != [] {
      var first, rest := ps[0], ps[1..];
      StringLessTrichotomy(name, first.name);
      forall i | 0 <= i < |rest|
        ensures StringLess(first.name, rest[i].name) && first.name != rest[i].name
        ensures StringLess(name, first.name) ==> StringLess(name, rest[i].name) && name != rest[i].name
      {
        StringLessTrichotomy(first.name, rest[i].name);
        if StringLess(name, first.name) {
          StringLessTransitive(name, first.name, rest[i].name);
          StringLessTrichotomy(name, rest[i].name);
        }
      }
      assert ps == [first] + rest;
      WithPropertyKeeps(rest, name, value);
    }
  }

  /** The properties of a message, renamed as the configuration says. Those with an empty or no alias are dropped. */
  function Renamed(retval: seq<Property>, config: seq<Property>, values: map<string, string>): seq<Property>
    decreases |config|
  {
    if config == [] then retval
    else
      var p := config[0];
      var next := if p.name in values && p.value != "" then WithProperty(retval, p.value, values[p.name]) else retval;
      Renamed(next, config[1..], values)
  }

  /** `setProperties` */
  method SetProperties(retval: seq<Property>, config: seq<Property>, values: map<string, string>)
    returns (r: seq<Property>)
    ensures r == Renamed(retval, config, values)
    ensures InOrder(retval) ==> InOrder(r)
    ensures InOrder(retval) ==>
              forall q :: q in r <==> WrittenLast(config, q, values)
                                      || (q in retval && !Written(config, q.name, values))
  {
    r := retval;
    assert config[0..] == config;
    for it := 0 to |config|
      invariant Renamed(r, config[it..], values) == Renamed(retval, config, values)
    {
      assert config[it..][1..] == config[it + 1..];
      if config[it].name in values {
        if config[it].value != "" {
          r := WithProperty(r, config[it].value, values[config[it].name]);
        }
      }
    }
    if InOrder(retval) {
      RenamedExactly(retval, config, values);
    }
  }

  /** The configuration gives this name, which is not empty, to a property that the message has. */
  predicate Writes(p: Property, name: string, values: map<string, string>) {
    p.value == name && name != "" && p.name in values
  }

  predicate Written(config: seq<Property>, name: string, values: map<string, string>) {
    exists i :: 0 <= i < |config| && Writes(config[i], name, values)
  }

  /** The value is that of the last property that gets the name. */
  predicate WrittenLast(config: seq<Property>, q: Property, values: map<string, string>) {
    exists i :: 0 <= i < |config| && Writes(config[i], q.name, values) && values[config[i].name] == q.value
                && forall j :: i < j < |config| ==> !Writes(config[j], q.name, values)
  }

  lemma WrittenFirst(config: seq<Property>, q: Property, values: map<string, string>)
    requires config != []
    ensures Written(config, q.name, values) <==>
              Writes(config[0], q.name, values) || Written(config[1..], q.name, values)
    ensures WrittenLast(config, q, values) <==>
              WrittenLast(config[1..], q, values)
              || (Writes(config[0], q.name, values) && values[config[0].name] == q.value
                  && !Written(config[1..], q.name, values))
  {
  }

  /**
   * Every property of the message that the configuration gives a name is written under it, the last one where several
   * get the same name. What was there under other names stays, and nothing else is written.
   */
  lemma {:induction false} RenamedExactly(retval: seq<Property>, config: seq<Property>, values: map<string, string>)
    requires InOrder(retval)
    ensures InOrder(Renamed(retval, config, values))
    ensures forall q :: q in Renamed(retval, config, values) <==>
                          WrittenLast(config, q, values) || (q in retval && !Written(config, q.name, values))
    decreases |config|
  {
    if config != [] {
      hide WrittenLast, Written, StringLess;
      var p := config[0];
      var writes := p.name in values && p.value != "";
      var next := if writes then WithProperty(retval, p.value, values[p.name]) else retval;
      if writes {
        WithPropertyKeeps(retval, p.value, values[p.name]);
      }
      RenamedExactly(next, config[1..], values);
      forall q
        ensures q in Renamed(retval, config, values) <==>
                  WrittenLast(config, q, values) || (q in retval && !Written(config, q.name, values))
      {
        WrittenFirst(config, q, values);
      }
    }
  }

  // ---- INSERT ----

  /** A column of a row: its name and the literal for its value. */
  datatype Column = Column(name: string, literal: string)

  function FieldLiteral(v: FieldValue, stringQuote: string): string {
    if IsText(v.fieldType) || !IsNumber(v.value) then InQuotes(stringQuote, v.value) else v.value
  }

  function PropertyLiteral(p: Property, stringQuote: string): string {
    if p.name == PROPERTY_INT_TIME && IsNumber(p.value) then p.value else InQuotes(stringQuote, p.value)
  }

  /** The columns for the fields that have no empty alias. */
  function FieldColumns(values: seq<FieldValue>, aliases: Aliases, stringQuote: string): seq<Column> {
    if values == [] then []
    else
      var name := FindAlias(aliases, values[0].field);
      (if name == "" then [] else [Column(name, FieldLiteral(values[0], stringQuote))])
      + FieldColumns(values[1..], aliases, stringQuote)
  }

  function PropertyColumns(properties: seq<Property>, stringQuote: string): seq<Column> {
    if properties == [] then []
    else
      [Column(properties[0].name, PropertyLiteral(properties[0], stringQuote))]
      + PropertyColumns(properties[1..], stringQuote)
  }

  function Names(columns: seq<Column>, q: string): (r: seq<string>)
    ensures |r| == |columns|
  {
    seq(|columns|, i requires 0 <= i < |columns| => InQuotes(q, columns[i].name))
  }

  function Literals(columns: seq<Column>): (r: seq<string>)
    ensures |r| == |columns|
  {
    seq(|columns|, i requires 0 <= i < |columns| => columns[i].literal)
  }

  /** One statement for a row: its columns and values are in the same order. */
  function InsertText(table: string, columns: seq<Column>, d: Dialect): string {
    var q := NameQuote(d);
    "INSERT INTO " + q + WithoutFirstDot(table) + q + "(" + Join(Names(columns, q), ", ")
    + ") VALUES (" + Join(Literals(columns), ", ") + ");" + "\n"
  }

  // ---- CREATE TABLE ----

  /** The columns that are declared: for each its name, with its type after it. */
  function DeclaredFields(values: seq<FieldValue>, aliases: Aliases, d: Dialect): seq<Column> {
    if values == [] then []
    else
      var name := FindAlias(aliases, values[0].field);
      (if name == "" then [] else [Column(name, TypeName(values[0].fieldType, d))])
      + DeclaredFields(values[1..], aliases, d)
  }

  function DeclaredProperties(config: seq<Property>, d: Dialect): seq<Column> {
    if config == [] then []
    else
      var t := if config[0].name == PROPERTY_INT_TIME then UInt32Type else StringType;
      (if config[0].value == "" then [] else [Column(config[0].value, TypeName(t, d))])
      + DeclaredProperties(config[1..], d)
  }

  /** Nothing is declared when no field is: then the statement breaks off after its opening parenthesis. */
  function Declared(values: seq<FieldValue>, aliases: Aliases, config: seq<Property>, d: Dialect): seq<Column> {
    var fields := DeclaredFields(values, aliases, d);
    if fields == [] then [] else fields + DeclaredProperties(config, d)
  }

  function Declarations(columns: seq<Column>, q: string): (r: seq<string>)
    ensures |r| == |columns|
  {
    seq(|columns|, i requires 0 <= i < |columns| => InQuotes(q, columns[i].name) + " " + columns[i].literal)
  }

  function CreateText(table: string, columns: seq<Column>, d: Dialect): string {
    var q := NameQuote(d);
    "CREATE TABLE " + q + WithoutFirstDot(table) + q + "("
    + if columns == [] then "" else Join(Declarations(columns, q), ", ") + ");"
  }

  lemma NamesMore(columns: seq<Column>, c: Column, q: string)
    ensures Names(columns + [c], q) == Names(columns, q) + [InQuotes(q, c.name)]
    ensures Literals(columns + [c]) == Literals(columns) + [c.literal]
    ensures Declarations(columns + [c], q) == Declarations(columns, q) + [InQuotes(q, c.name) + " " + c.literal]
  {
  }

  lemma FieldsStep(values: seq<FieldValue>, i: nat, aliases: Aliases, stringQuote: string, d: Dialect)
    requires i <= |values|
    ensures i == |values| ==> FieldColumns(values[i..], aliases, stringQuote) == []
    ensures i == |values| ==> DeclaredFields(values[i..], aliases, d) == []
    ensures i < |values| ==>
              var name := FindAlias(aliases, values[i].field);
              FieldColumns(values[i..], aliases, stringQuote) ==
              (if name == "" then [] else [Column(name, FieldLiteral(values[i], stringQuote))])
              + FieldColumns(values[i + 1..], aliases, stringQuote)
    ensures i < |values| ==>
              var name := FindAlias(aliases, values[i].field);
              DeclaredFields(values[i..], aliases, d) ==
              (if name == "" then [] else [Column(name, TypeName(values[i].fieldType, d))])
              + DeclaredFields(values[i + 1..], aliases, d)
  {
    hide FindAlias, FieldLiteral, TypeName;
    assert i < |values| ==> values[i..][1..] == values[i + 1..];
  }

  lemma PropertiesStep(ps: seq<Property>, i: nat, stringQuote: string, d: Dialect)
    requires i <= |ps|
    ensures i == |ps| ==> PropertyColumns(ps[i..], stringQuote) == []
    ensures i == |ps| ==> DeclaredProperties(ps[i..], d) == []
    ensures i < |ps| ==>
              PropertyColumns(ps[i..], stringQuote) ==
              [Column(ps[i].name, PropertyLiteral(ps[i], stringQuote))] + PropertyColumns(ps[i + 1..], stringQuote)
    ensures i < |ps| ==>
              var t := if ps[i].name == PROPERTY_INT_TIME then UInt32Type else StringType;
              DeclaredProperties(ps[i..], d) ==
              (if ps[i].value == "" then [] else [Column(ps[i].value, TypeName(t, d))])
              + DeclaredProperties(ps[i + 1..], d)
  {
    hide PropertyLiteral, TypeName;
    assert i < |ps| ==> ps[i..][1..] == ps[i + 1..];
  }

  /** `if (fieldCount) ss << ", "; ss << item; fieldCount++;` */
  method Append(ss: string, fieldCount: nat, item: string, ghost head: string, ghost parts: seq<string>)
    returns (r: string, count: nat)
    requires ss == head + Join(parts, ", ") && fieldCount == |parts|
    ensures r == head + Join(parts + [item], ", ") && count == |parts + [item]|
  {
    hide Join;
    JoinMore(parts, item, ", ");
    JoinNone();
    assert parts == [] ==> ss == head;
    r := ss;
    if fieldCount > 0 {
      r := r + ", ";
    }
    r := r + item;
    count := fieldCount + 1;
  }

  // ---- Key indexes ----

  /** `resize` of a vector of numbers. */
  function Grown(s: seq<nat>, n: nat): (r: seq<nat>)
    requires |s| <= n
    ensures |r| == n && s <= r && forall i :: |s| <= i < n ==> r[i] == 0
  {
    s + seq(n - |s|, _ => 0)
  }

  predicate HasIndex(values: seq<FieldValue>, k: nat) {
    exists i :: 0 <= i < |values| && values[i].index == k
  }

  /** The position of the last field with index `k`; 0 when there is none. */
  function LastAt(values: seq<FieldValue>, k: nat): (p: nat)
    ensures HasIndex(values, k) ==>
              p < |values| && values[p].index == k && forall j :: p < j < |values| ==> values[j].index != k
    ensures !HasIndex(values, k) ==> p == 0
  {
    if values == [] then 0
    else if values[|values| - 1].index == k then |values| - 1
    else
      var front := values[..|values| - 1];
      assert HasIndex(values, k) ==> HasIndex(front, k) by {
        if HasIndex(values, k) {
          var i :| 0 <= i < |values| && values[i].index == k;
          assert front[i].index == k;
        }
      }
      LastAt(front, k)
  }

  /** What `index2values` holds: the message id, then for each index its field, and 0 where an index has none. */
  ghost predicate IndexesFor(index2values: seq<nat>, values: seq<FieldValue>) {
    index2values != [] &&
    (forall i :: 0 <= i < |values| ==> values[i].index < |index2values|) &&
    (forall k :: 0 < k < |index2values| ==> index2values[k] == LastAt(values, k)) &&
    (|index2values| > 1 ==> HasIndex(values, |index2values| - 1))
  }

  lemma StartsWithId(index2values: seq<nat>, values: seq<FieldValue>)
    requires IndexesFor(index2values, values)
    ensures index2values != []
  {
  }

  lemma LastAtMore(values: seq<FieldValue>, v: FieldValue, k: nat)
    ensures HasIndex(values + [v], k) <==> HasIndex(values, k) || v.index == k
    ensures LastAt(values + [v], k) == if v.index == k then |values| else LastAt(values, k)
  {
    var more := values + [v];
    assert more[..|more| - 1] == values && more[|values|] == v;
    if HasIndex(values, k) {
      var i :| 0 <= i < |values| && values[i].index == k;
      assert more[i].index == k;
    }
  }

  lemma IndexAdded(was: seq<nat>, values: seq<FieldValue>, v: FieldValue)
    requires IndexesFor(was, values)
    ensures var grown := if v.index >= |was| then Grown(was, v.index + 1) else was;
            IndexesFor(if v.index > 0 then grown[v.index := |values|] else was, values + [v])
  {
    hide LastAt, HasIndex;
    NoIndexBeyond(was, values);
    var grown := if v.index >= |was| then Grown(was, v.index + 1) else was;
    var now := if v.index > 0 then grown[v.index := |values|] else was;
    forall k | 0 < k < |now|
      ensures now[k] == LastAt(values + [v], k)
    {
      LastAtMore(values, v, k);
    }
    LastAtMore(values, v, |now| - 1);
  }

  /** No field has an index beyond the vector. */
  lemma NoIndexBeyond(index2values: seq<nat>, values: seq<FieldValue>)
    requires IndexesFor(index2values, values)
    ensures forall k :: k >= |index2values| ==> !HasIndex(values, k) && LastAt(values, k) == 0
  {
  }

  /** The field is written in the key columns: it has an index, and no later field has the same. */
  predicate IsKey(values: seq<FieldValue>, i: nat)
    requires i < |values|
  {
    values[i].index > 0 && forall j :: i < j < |values| ==> values[j].index != values[i].index
  }

  /** Some index below the highest has no field. */
  ghost predicate HasGap(index2values: seq<nat>, values: seq<FieldValue>) {
    exists k :: 0 < k < |index2values| && !HasIndex(values, k)
  }

  /** A position is found among the key positions when it holds a key, or when it is 0 and there is a gap. */
  lemma KeyPositions(index2values: seq<nat>, values: seq<FieldValue>, i: nat)
    requires IndexesFor(index2values, values) && i < |values|
    ensures i in index2values[1..] <==> IsKey(values, i) || (i == 0 && HasGap(index2values, values))
  {
    if i in index2values[1..] {
      var k :| 0 <= k < |index2values| - 1 && index2values[1..][k] == i;
      assert index2values[k + 1] == i == LastAt(values, k + 1);
    }
    if IsKey(values, i) {
      var k := values[i].index;
      assert HasIndex(values, k);
      assert index2values[1..][k - 1] == index2values[k] == LastAt(values, k) == i;
    }
    if i == 0 && HasGap(index2values, values) {
      var k :| 0 < k < |index2values| && !HasIndex(values, k);
      assert index2values[1..][k - 1] == index2values[k] == 0;
    }
  }

  predicate Skipped(values: seq<FieldValue>, aliases: Aliases, i: nat)
    requires i < |values|
  {
    FindAlias(aliases, values[i].field) == ""
  }

  /** The positions from `i` on that get a statement. */
  function Emitted(index2values: seq<nat>, values: seq<FieldValue>, aliases: Aliases, i: nat): seq<nat>
    decreases |values| - i
  {
    if i >= |values| then []
    else (if Skipped(values, aliases, i) || i in index2values then [] else [i])
         + Emitted(index2values, values, aliases, i + 1)
  }

  /** The positions from `i` on of the fields that are neither keys nor skipped. */
  function NonKeys(values: seq<FieldValue>, aliases: Aliases, i: nat): seq<nat>
    decreases |values| - i
  {
    if i >= |values| then []
    else (if Skipped(values, aliases, i) || IsKey(values, i) then [] else [i]) + NonKeys(values, aliases, i + 1)
  }

  lemma {:induction false} EmittedFrom(index2values: seq<nat>, values: seq<FieldValue>, aliases: Aliases, i: nat)
    ensures forall p :: p in Emitted(index2values, values, aliases, i) ==> p >= i
    decreases |values| - i
  {
    hide Skipped;
    if i < |values| {
      EmittedFrom(index2values, values, aliases, i + 1);
    }
  }

  lemma {:induction false} NonKeysFrom(values: seq<FieldValue>, aliases: Aliases, i: nat)
    ensures forall p :: p in NonKeys(values, aliases, i) ==> p >= i
    decreases |values| - i
  {
    hide Skipped, IsKey;
    if i < |values| {
      NonKeysFrom(values, aliases, i + 1);
    }
  }

  /** Two lists of later positions, each with `i` before it or not, agree when both parts do. */
  lemma SameAfter(i: nat, c: seq<nat>, d: seq<nat>, noFirst: bool, noSecond: bool)
    requires forall p :: p in c || p in d ==> p > i
    ensures (if noFirst then [] else [i]) + c == (if noSecond then [] else [i]) + d <==> noFirst == noSecond && c == d
  {
    var a, b := (if noFirst then [] else [i]) + c, (if noSecond then [] else [i]) + d;
    if noFirst && noSecond {
      assert a == c && b == d;
    } else if noFirst == noSecond {
      assert a[1..] == c && b[1..] == d;
    } else {
      assert (i in a) != (i in b);
    }
  }

  lemma {:induction false} SamePositions(index2values: seq<nat>, values: seq<FieldValue>, aliases: Aliases, i: nat)
    ensures Emitted(index2values, values, aliases, i) == NonKeys(values, aliases, i) <==>
            forall j :: i <= j < |values| && !Skipped(values, aliases, j) ==> (j in index2values <==> IsKey(values, j))
    decreases |values| - i
  {
    hide Skipped, IsKey;
    if i < |values| {
      SamePositions(index2values, values, aliases, i + 1);
      EmittedFrom(index2values, values, aliases, i + 1);
      NonKeysFrom(values, aliases, i + 1);
      SameAfter(i, Emitted(index2values, values, aliases, i + 1), NonKeys(values, aliases, i + 1),
                Skipped(values, aliases, i) || i in index2values, Skipped(values, aliases, i) || IsKey(values, i));
    }
  }

  /** Counting position `p` as a key does no harm. */
  predicate Harmless(values: seq<FieldValue>, aliases: Aliases, p: nat) {
    p >= |values| || Skipped(values, aliases, p) || IsKey(values, p)
  }

  /**
   * Every field that is neither key nor skipped gets its statement, in order, exactly when neither the message id nor,
   * with a gap in the indexes, the position 0 is taken for the position of a key.
   */
  lemma OneStatementEach(index2values: seq<nat>, values: seq<FieldValue>, aliases: Aliases)
    requires IndexesFor(index2values, values)
    ensures Emitted(index2values, values, aliases, 0) == NonKeys(values, aliases, 0) <==>
            Harmless(values, aliases, index2values[0])
            && (HasGap(index2values, values) ==> Harmless(values, aliases, 0))
  {
    hide Skipped, IsKey, HasGap;
    SamePositions(index2values, values, aliases, 0);
    forall j | 0 <= j < |values|
      ensures j in index2values <==>
              j == index2values[0] || IsKey(values, j) || (j == 0 && HasGap(index2values, values))
    {
      KeyPositions(index2values, values, j);
      assert index2values == [index2values[0]] + index2values[1..];
    }
    if HasGap(index2values, values) {
      GapHasFields(index2values, values);
    }
  }

  lemma GapHasFields(index2values: seq<nat>, values: seq<FieldValue>)
    requires IndexesFor(index2values, values) && HasGap(index2values, values)
    ensures values != []
  {
  }

  // ---- Statements in the second form: a row for each field ----

  const SQL2_NAMES := ["message", "time", "device", "field", "value"]

  predicate WrittenAsText(v: FieldValue) {
    IsText(v.fieldType) || !IsNumber(v.value) || v.sqlString
  }

  function Literal2(v: FieldValue, stringQuote: string): string {
    if WrittenAsText(v) then InQuotes(stringQuote, v.value) else v.value
  }

  /** The literals of the keys with indexes from `k` on. */
  function KeyLiterals(index2values: seq<nat>, values: seq<FieldValue>, stringQuote: string, n: nat): (r: seq<string>)
    requires n < |index2values| && forall k :: 0 < k < |index2values| ==> index2values[k] < |values|
    ensures |r| == n
  {
    if n == 0 then []
    else
      KeyLiterals(index2values, values, stringQuote, n - 1) + [Literal2(values[index2values[n]], stringQuote)]
  }

  /** The names of the columns: the message, its keys, and the field and its value. */
  function RowNames(keys: nat): seq<string>
    requires keys <= 4
  {
    [SQL2_NAMES[0]] + SQL2_NAMES[1..keys + 1] + [SQL2_NAMES[3], SQL2_NAMES[4]]
  }

  ghost predicate NoNameTwice(names: seq<string>) {
    forall i, j :: 0 <= i < j < |names| ==> names[i] != names[j]
  }

  /** With a third key the statement names `field` twice, and with a fourth `value` too. */
  lemma NamedTwice(keys: nat)
    requires keys <= 4
    ensures NoNameTwice(RowNames(keys)) <==> keys <= 2
  {
    var n := RowNames(keys);
    if keys == 0 {
      assert n == ["message", "field", "value"];
    } else if keys == 1 {
      assert n == ["message", "time", "field", "value"];
    } else if keys == 2 {
      assert n == ["message", "time", "device", "field", "value"];
    } else {
      assert n[3] == "field" == n[|n| - 2];
    }
  }

  /** The values under these names. */
  function RowValues(
    index2values: seq<nat>, values: seq<FieldValue>, aliases: Aliases, stringQuote: string, i: nat): seq<string>
    requires index2values != [] && i < |values|
    requires forall k :: 0 < k < |index2values| ==> index2values[k] < |values|
  {
    [NatText(index2values[0])] + KeyLiterals(index2values, values, stringQuote, |index2values| - 1)
    + [InQuotes("'", FindAlias(aliases, values[i].field)), Literal2(values[i], stringQuote)]
  }

  /** A balanced statement: as many values as names. */
  function RowText(table: string, names: seq<string>, literals: seq<string>, d: Dialect): string
    requires |names| == |literals|
  {
    var q := NameQuote(d);
    "INSERT INTO " + q + table + q + "(" + Join(names, ",") + ") VALUES (" + Join(literals, ",") + ");" + "\n"
  }

  predicate KeysInBounds(index2values: seq<nat>, values: seq<FieldValue>) {
    0 < |index2values| <= 5 && forall k :: 0 < k < |index2values| ==> index2values[k] < |values|
  }

  function Statement2(
    index2values: seq<nat>, values: seq<FieldValue>, aliases: Aliases, stringQuote: string, d: Dialect, i: nat): string
    requires KeysInBounds(index2values, values) && i < |values|
  {
    RowText(if WrittenAsText(values[i]) then "str" else "num", RowNames(|index2values| - 1),
            RowValues(index2values, values, aliases, stringQuote, i), d)
  }

  predicate Below(ps: seq<nat>, n: nat) {
    forall k :: 0 <= k < |ps| ==> ps[k] < n
  }

  function Statements2(
    index2values: seq<nat>, values: seq<FieldValue>, aliases: Aliases, stringQuote: string, d: Dialect, ps: seq<nat>)
    : seq<string>
    requires KeysInBounds(index2values, values) && Below(ps, |values|)
  {
    if ps == [] then []
    else
      [Statement2(index2values, values, aliases, stringQuote, d, ps[0])]
      + Statements2(index2values, values, aliases, stringQuote, d, ps[1..])
  }

  lemma {:induction false} EmittedInBounds(index2values: seq<nat>, values: seq<FieldValue>, aliases: Aliases, i: nat)
    ensures Below(Emitted(index2values, values, aliases, i), |values|)
    decreases |values| - i
  {
    if i < |values| {
      EmittedInBounds(index2values, values, aliases, i + 1);
    }
  }

  lemma IndexesInBounds(index2values: seq<nat>, values: seq<FieldValue>)
    requires IndexesFor(index2values, values) && |index2values| <= 5
    ensures KeysInBounds(index2values, values)
  {
    if |index2values| > 1 {
      assert HasIndex(values, |index2values| - 1);
    }
  }

  /** The names, written with a comma after each, and closed by the field and its value. */
  lemma NamesText(keys: nat)
    requires keys <= 4
    ensures SQL2_NAMES[0] + "," + (Trailed(SQL2_NAMES[1..keys + 1]) + (SQL2_NAMES[3] + "," + SQL2_NAMES[4]))
            == Join(RowNames(keys), ",")
  {
    hide SQL2_NAMES;
    FiveNames();
    var n := SQL2_NAMES;
    var mid := n[1..keys + 1];
    TrailedIsJoined(mid);
    JoinOne(n[0]);
    JoinTwo(n[3], n[4]);
    if mid == [] {
      assert RowNames(keys) == [n[0]] + [n[3], n[4]];
      JoinConcat([n[0]], [n[3], n[4]], ",");
    } else {
      JoinConcat([n[0]], mid, ",");
      JoinConcat([n[0]] + mid, [n[3], n[4]], ",");
    }
  }

  lemma FiveNames()
    ensures |SQL2_NAMES| == 5
  {
  }

  lemma JoinOne(x: string)
    ensures Join([x], ",") == x
  {
  }

  lemma JoinTwo(x: string, y: string)
    ensures Join([x, y], ",") == x + "," + y
  {
    assert [x, y][1..] == [y];
  }

  /** The values, written with a comma after each key, the last one removed, and closed by the field and its value. */
  lemma ValuesText(id: string, keys: seq<string>, x: string, y: string)
    ensures var t := id + "," + Trailed(keys);
            t[..|t| - 1] + "," + x + "," + y == Join([id] + keys + [x, y], ",")
  {
    TrailedIsJoined(keys);
    JoinOne(id);
    JoinTwo(x, y);
    if keys == [] {
      assert [id] + keys + [x, y] == [id] + [x, y];
      JoinConcat([id], [x, y], ",");
    } else {
      JoinConcat([id], keys, ",");
      JoinConcat([id] + keys, [x, y], ",");
    }
  }

  // ---- The class ----

  class FieldNameValueIndexStrings {
    const table: string
    const stringQuote: string
    var index2values: seq<nat>
    var values: seq<FieldValue>

    /** Starts with the id of the message type in place of the index 0. */
    constructor (table: string, messageId: nat)
      ensures this.table == table && stringQuote == "'" && index2values == [messageId] && values == [] && Valid()
    {
      this.table, stringQuote := table, "'";
      index2values, values := [messageId], [];
    }

    /** What the run of calls to `Add` has left: the position of the last field with each index. */
    ghost predicate Valid()
      reads this
    {
      IndexesFor(index2values, values)
    }

    /** `add`: the field is a key when its index is positive; it replaces an earlier key of that index. */
    method Add(field: string, fieldType: CppType, sqlOption: bool, value: string, index: int, allowQuotes: bool)
      requires Valid()
      modifies this
      ensures Valid() && |index2values| >= |old(index2values)| && index2values[0] == old(index2values)[0]
      ensures values == old(values) + [FieldValue(index, fieldType, allowQuotes && sqlOption, field, value)]
    {
      hide IndexesFor;
      ghost var before, was := values, index2values;
      StartsWithId(was, before);
      if index > 0 {
        if index >= |index2values| {
          index2values := Grown(index2values, index + 1);
        }
        index2values := index2values[index := |values|];
      }
      if allowQuotes {
        values := values + [FieldValue(index, fieldType, sqlOption, field, value)];
      } else {
        values := values + [FieldValue(index, fieldType, false, field, value)];
      }
      IndexAdded(was, before, values[|before|]);
    }

    /** The list of column names: those of the fields, then those of the properties. */
    method WriteNames(head: string, aliases: Aliases, properties: seq<Property>, q: string)
      returns (ss: string, fieldCount: nat)
      ensures var columns := FieldColumns(values, aliases, stringQuote) + PropertyColumns(properties, stringQuote);
              ss == head + Join(Names(columns, q), ", ") && fieldCount == |columns|
    {
      hide FieldColumns, PropertyColumns, FieldLiteral, PropertyLiteral, FindAlias, Join, Literals, Names, Declarations,
        InQuotes, DeclaredFields, DeclaredProperties, TypeName;
      ss, fieldCount := head, 0;
      ghost var done: seq<Column> := [];
      NoColumns(q);
      assert values[0..] == values && properties[0..] == properties;
      for i := 0 to |values|
        invariant ss == head + Join(Names(done, q), ", ") && fieldCount == |done|
        invariant done + FieldColumns(values[i..], aliases, stringQuote) == FieldColumns(values, aliases, stringQuote)
      {
        FieldsStep(values, i, aliases, stringQuote, PostgreSql);
        var fieldName := FindAlias(aliases, values[i].field);
        if fieldName == "" {
          continue;
        }
        ghost var c := Column(fieldName, FieldLiteral(values[i], stringQuote));
        NamesMore(done, c, q);
        ss, fieldCount := Append(ss, fieldCount, InQuotes(q, fieldName), head, Names(done, q));
        done := done + [c];
      }
      FieldsStep(values, |values|, aliases, stringQuote, PostgreSql);
      assert done + [] == done;
      ghost var fields := done;
      for it := 0 to |properties|
        invariant ss == head + Join(Names(done, q), ", ") && fieldCount == |done|
        invariant done + PropertyColumns(properties[it..], stringQuote) ==
                  fields + PropertyColumns(properties, stringQuote)
      {
        PropertiesStep(properties, it, stringQuote, PostgreSql);
        ghost var c := Column(properties[it].name, PropertyLiteral(properties[it], stringQuote));
        NamesMore(done, c, q);
        ss, fieldCount := Append(ss, fieldCount, InQuotes(q, properties[it].name), head, Names(done, q));
        done := done + [c];
      }
      PropertiesStep(properties, |properties|, stringQuote, PostgreSql);
      assert done + [] == done;
    }

    method WriteFieldValue(v: FieldValue) returns (literal: string)
      ensures literal == FieldLiteral(v, stringQuote)
    {
      if IsText(v.fieldType) || !IsNumber(v.value) {
        literal := InQuotes(stringQuote, v.value);
      } else {
        literal := v.value;
      }
    }

    method WritePropertyValue(p: Property) returns (literal: string)
      ensures literal == PropertyLiteral(p, stringQuote)
    {
      if p.name == PROPERTY_INT_TIME && IsNumber(p.value) {
        literal := p.value;
      } else {
        literal := InQuotes(stringQuote, p.value);
      }
    }

    /** The list of values, from loops of its own over the same fields and properties. */
    method WriteValues(head: string, aliases: Aliases, properties: seq<Property>) returns (ss: string)
      ensures var columns := FieldColumns(values, aliases, stringQuote) + PropertyColumns(properties, stringQuote);
              ss == head + Join(Literals(columns), ", ")
    {
      hide FieldColumns, PropertyColumns, FieldLiteral, PropertyLiteral, FindAlias, Join, Literals, Names, Declarations,
        InQuotes, DeclaredFields, DeclaredProperties, TypeName;
      ss := head;
      var fieldCount := 0;
      ghost var done: seq<Column> := [];
      NoColumns("");
      assert values[0..] == values && properties[0..] == properties;
      for i := 0 to |values|
        invariant ss == head + Join(Literals(done), ", ") && fieldCount == |done|
        invariant done + FieldColumns(values[i..], aliases, stringQuote) == FieldColumns(values, aliases, stringQuote)
      {
        FieldsStep(values, i, aliases, stringQuote, PostgreSql);
        if FindAlias(aliases, values[i].field) == "" {
          continue;
        }
        var literal := WriteFieldValue(values[i]);
        ghost var c := Column(FindAlias(aliases, values[i].field), literal);
        NamesMore(done, c, "");
        ss, fieldCount := Append(ss, fieldCount, literal, head, Literals(done));
        done := done + [c];
      }
      FieldsStep(values, |values|, aliases, stringQuote, PostgreSql);
      assert done + [] == done;
      ghost var fields := done;
      for it := 0 to |properties|
        invariant ss == head + Join(Literals(done), ", ") && fieldCount == |done|
        invariant done + PropertyColumns(properties[it..], stringQuote) ==
                  fields + PropertyColumns(properties, stringQuote)
      {
        PropertiesStep(properties, it, stringQuote, PostgreSql);
        var literal := WritePropertyValue(properties[it]);
        ghost var c := Column(properties[it].name, literal);
        NamesMore(done, c, "");
        ss, fieldCount := Append(ss, fieldCount, literal, head, Literals(done));
        done := done + [c];
      }
      PropertiesStep(properties, |properties|, stringQuote, PostgreSql);
      assert done + [] == done;
    }

    /**
     * `toStringInsert`: one statement, unless the table is skipped or there is no column. Its names and its values
     * belong to one list of columns, so that every value stands where its name does.
     */
    method ToStringInsert(
      stmts: seq<string>, tableAliases: Aliases, aliases: Aliases, properties: seq<Property>, d: Dialect)
      returns (r: seq<string>)
      ensures var name := FindAlias(tableAliases, table);
              var columns := FieldColumns(values, aliases, stringQuote) + PropertyColumns(properties, stringQuote);
              r == if name == "" || columns == [] then stmts else stmts + [InsertText(name, columns, d)]
    {
      hide FieldColumns, PropertyColumns, FindAlias, Join, Names, Literals;
      r := stmts;
      var tableName := FindAlias(tableAliases, table);
      if tableName == "" {
        return;
      }
      var sqlquote := NameQuote(d);
      var ss := "INSERT INTO " + sqlquote + WithoutFirstDot(tableName) + sqlquote + "(";
      var fieldCount;
      ss, fieldCount := WriteNames(ss, aliases, properties, sqlquote);
      if fieldCount == 0 {
        return;
      }
      ss := ss + ") VALUES (";
      ss := WriteValues(ss, aliases, properties);
      ss := ss + ");" + "\n";
      r := r + [ss];
    }

    /** The declarations of the fields. */
    method DeclareFields(head: string, aliases: Aliases, d: Dialect) returns (r: string, fieldCount: nat)
      ensures var columns := DeclaredFields(values, aliases, d);
              r == head + Join(Declarations(columns, NameQuote(d)), ", ") && fieldCount == |columns|
    {
      hide FieldColumns, DeclaredFields, FindAlias, Join, Declarations, Names, Literals, InQuotes, TypeName, NameQuote;
      var quote := NameQuote(d);
      r, fieldCount := head, 0;
      ghost var done: seq<Column> := [];
      NoColumns(quote);
      assert values[0..] == values;
      for i := 0 to |values|
        invariant r == head + Join(Declarations(done, quote), ", ") && fieldCount == |done|
        invariant done + DeclaredFields(values[i..], aliases, d) == DeclaredFields(values, aliases, d)
      {
        FieldsStep(values, i, aliases, stringQuote, d);
        var fieldName := FindAlias(aliases, values[i].field);
        if fieldName == "" {
          continue;
        }
        ghost var c := Column(fieldName, TypeName(values[i].fieldType, d));
        NamesMore(done, c, quote);
        var declaration := InQuotes(quote, fieldName) + " " + TypeName(values[i].fieldType, d);
        r, fieldCount := Append(r, fieldCount, declaration, head, Declarations(done, quote));
        done := done + [c];
      }
      FieldsStep(values, |values|, aliases, stringQuote, d);
      assert done + [] == done;
    }

    /** The declarations of the properties, after those of the fields. */
    method DeclareProperties(
      output: string, ghost head: string, count: nat, ghost fields: seq<Column>, config: seq<Property>, d: Dialect)
      returns (r: string)
      requires output == head + Join(Declarations(fields, NameQuote(d)), ", ") && count == |fields|
      ensures r == head + Join(Declarations(fields + DeclaredProperties(config, d), NameQuote(d)), ", ")
    {
      hide PropertyColumns, DeclaredProperties, Join, Declarations, Names, Literals, InQuotes, TypeName, NameQuote;
      var quote := NameQuote(d);
      var fieldCount := count;
      r := output;
      ghost var done := fields;
      assert config[0..] == config;
      for it := 0 to |config|
        invariant r == head + Join(Declarations(done, quote), ", ") && fieldCount == |done|
        invariant done + DeclaredProperties(config[it..], d) == fields + DeclaredProperties(config, d)
      {
        PropertiesStep(config, it, stringQuote, d);
        if config[it].value == "" {
          continue;
        }
        var cpptype := if config[it].name == PROPERTY_INT_TIME then UInt32Type else StringType;
        ghost var c := Column(config[it].value, TypeName(cpptype, d));
        NamesMore(done, c, quote);
        var declaration := InQuotes(quote, config[it].value) + " " + TypeName(cpptype, d);
        r, fieldCount := Append(r, fieldCount, declaration, head, Declarations(done, quote));
        done := done + [c];
      }
      PropertiesStep(config, |config|, stringQuote, d);
      assert done + [] == done;
    }

    /** `toCreateSQLTableFields` */
    method ToCreateSQLTableFields(
      output: string, tableName: string, d: Dialect, aliases: Aliases, config: seq<Property>)
      returns (r: string)
      ensures r == output + CreateText(tableName, Declared(values, aliases, config, d), d)
    {
      hide DeclaredFields, DeclaredProperties, Join, Declarations;
      var quote := NameQuote(d);
      r := output + ("CREATE TABLE " + quote + WithoutFirstDot(tableName) + quote + "(");
      ghost var head := r;
      var fieldCount;
      NoColumns(quote);
      r, fieldCount := DeclareFields(r, aliases, d);
      if fieldCount == 0 {
        return;
      }
      r := DeclareProperties(r, head, fieldCount, DeclaredFields(values, aliases, d), config, d);
      r := r + ");";
    }

    /**
     * `toStringInsert2`. Names for key indexes exist up to 4. Every statement is balanced: it has as many values as
     * column names.
     */
    method ToStringInsert2(stmts: seq<string>, aliases: Aliases, d: Dialect) returns (r: seq<string>)
      requires Valid() && |index2values| <= 5
      ensures KeysInBounds(index2values, values)
      ensures var ps := Emitted(index2values, values, aliases, 0);
              Below(ps, |values|) &&
              r == stmts + Statements2(index2values, values, aliases, stringQuote, d, ps)
    {
      hide Emitted, Statements2, Statement2, Skipped, IndexesFor, KeyLiterals, Trailed, SQL2_NAMES, NatText, FindAlias;
      IndexesInBounds(index2values, values);
      EmittedInBounds(index2values, values, aliases, 0);
      var prefix := WritePrefix();
      r := stmts;
      for i := 0 to |values|
        invariant Below(Emitted(index2values, values, aliases, i), |values|)
        invariant r + Statements2(index2values, values, aliases, stringQuote, d,
                                  Emitted(index2values, values, aliases, i))
                  == stmts + Statements2(index2values, values, aliases, stringQuote, d,
                                         Emitted(index2values, values, aliases, 0))
      {
        EmittedInBounds(index2values, values, aliases, i + 1);
        StatementsStep(index2values, values, aliases, stringQuote, d, i, r);
        var fieldName := FindAlias(aliases, values[i].field);
        SkippedMeans(values, aliases, i);
        if fieldName == "" {
          continue;
        }
        if i in index2values {
          continue;
        }
        var ss := WriteRow(prefix, values[i], fieldName, aliases, d, i);
        r := r + [ss];
      }
      StatementsEnd(index2values, values, aliases, stringQuote, d);
    }

    /** The names of the columns and the values of the keys, which all statements share. */
    method WritePrefix() returns (prefix: string)
      requires KeysInBounds(index2values, values)
      ensures var keys := |index2values| - 1;
              var t := NatText(index2values[0]) + "," + Trailed(KeyLiterals(index2values, values, stringQuote, keys));
              prefix == Trailed(SQL2_NAMES[1..keys + 1]) + (SQL2_NAMES[3] + "," + SQL2_NAMES[4]) + ") VALUES ("
                        + t[..|t| - 1]
    {
      hide Trailed, Literal2, SQL2_NAMES, NatText;
      FiveNames();
      prefix := "";
      TrailedNone();
      assert SQL2_NAMES[1..1] == [];
      for i := 1 to |index2values|
        invariant prefix == Trailed(SQL2_NAMES[1..i])
      {
        TrailedMore(SQL2_NAMES[1..i], SQL2_NAMES[i]);
        assert SQL2_NAMES[1..i + 1] == SQL2_NAMES[1..i] + [SQL2_NAMES[i]];
        prefix := prefix + SQL2_NAMES[i] + ",";
      }
      prefix := prefix + (SQL2_NAMES[3] + "," + SQL2_NAMES[4]) + ") VALUES (";
      ghost var head := prefix;
      var id := NatText(index2values[0]) + ",";
      prefix := prefix + id;
      for i := 1 to |index2values|
        invariant prefix == head + (id + Trailed(KeyLiterals(index2values, values, stringQuote, i - 1)))
      {
        TrailedMore(KeyLiterals(index2values, values, stringQuote, i - 1),
                    Literal2(values[index2values[i]], stringQuote));
        prefix := prefix + (Literal2(values[index2values[i]], stringQuote) + ",");
      }
      prefix := prefix[..|prefix| - 1];
    }

    /** One row, after the prefix. */
    method WriteRow(prefix: string, v: FieldValue, fieldName: string, ghost aliases: Aliases, d: Dialect, ghost i: nat)
      returns (ss: string)
      requires KeysInBounds(index2values, values) && i < |values| && v == values[i]
      requires fieldName == FindAlias(aliases, v.field)
      requires var keys := |index2values| - 1;
               var t := NatText(index2values[0]) + "," + Trailed(KeyLiterals(index2values, values, stringQuote, keys));
               prefix == Trailed(SQL2_NAMES[1..keys + 1]) + (SQL2_NAMES[3] + "," + SQL2_NAMES[4]) + ") VALUES ("
                         + t[..|t| - 1]
      ensures ss == Statement2(index2values, values, aliases, stringQuote, d, i)
    {
      hide Trailed, KeyLiterals, NatText, Join, SQL2_NAMES, FindAlias, Literal2, RowNames;
      FiveNames();
      var q := NameQuote(d);
      ghost var keys := |index2values| - 1;
      ghost var literals := KeyLiterals(index2values, values, stringQuote, keys);
      ghost var a := Trailed(SQL2_NAMES[1..keys + 1]) + (SQL2_NAMES[3] + "," + SQL2_NAMES[4]);
      ghost var t := NatText(index2values[0]) + "," + Trailed(literals);
      NamesText(keys);
      ValuesText(NatText(index2values[0]), literals, InQuotes("'", fieldName), Literal2(v, stringQuote));
      LiteralCases(v, stringQuote);
      var head;
      if WrittenAsText(v) {
        head := "INSERT INTO " + q + "str" + q + "(";
        ss := head + (SQL2_NAMES[0] + ",") + prefix + "," + InQuotes("'", fieldName)
              + "," + InQuotes(stringQuote, v.value) + (");" + "\n");
      } else {
        head := "INSERT INTO " + q + "num" + q + "(";
        ss := head + (SQL2_NAMES[0] + ",") + prefix + "," + InQuotes("'", fieldName)
              + "," + v.value + (");" + "\n");
      }
      RowRegrouped(head, SQL2_NAMES[0] + ",", a, t[..|t| - 1], InQuotes("'", fieldName), Literal2(v, stringQuote));
    }
  }

  lemma LiteralCases(v: FieldValue, stringQuote: string)
    ensures Literal2(v, stringQuote) == if WrittenAsText(v) then InQuotes(stringQuote, v.value) else v.value
  {
  }

  lemma RowRegrouped(head: string, n: string, a: string, b: string, x: string, y: string)
    ensures head + n + (a + ") VALUES (" + b) + "," + x + "," + y + (");" + "\n")
            == head + (n + a) + ") VALUES (" + (b + "," + x + "," + y) + ");" + "\n"
  {
  }

  lemma TrailedNone()
    ensures Trailed([]) == ""
  {
  }

  lemma TrailedMore(parts: seq<string>, x: string)
    ensures Trailed(parts + [x]) == Trailed(parts) + x + ","
  {
    assert (parts + [x])[..|parts|] == parts;
  }

  lemma SkippedMeans(values: seq<FieldValue>, aliases: Aliases, i: nat)
    requires i < |values|
    ensures Skipped(values, aliases, i) <==> FindAlias(aliases, values[i].field) == ""
  {
  }

  lemma StatementsStep(
    index2values: seq<nat>, values: seq<FieldValue>, aliases: Aliases, stringQuote: string, d: Dialect, i: nat,
    r: seq<string>)
    requires KeysInBounds(index2values, values) && i < |values|
    requires Below(Emitted(index2values, values, aliases, i), |values|)
    requires Below(Emitted(index2values, values, aliases, i + 1), |values|)
    ensures var ps, rest := Emitted(index2values, values, aliases, i), Emitted(index2values, values, aliases, i + 1);
            r + Statements2(index2values, values, aliases, stringQuote, d, ps) ==
            (if Skipped(values, aliases, i) || i in index2values then r
             else r + [Statement2(index2values, values, aliases, stringQuote, d, i)])
            + Statements2(index2values, values, aliases, stringQuote, d, rest)
  {
    hide Skipped, Statement2;
    var rest := Emitted(index2values, values, aliases, i + 1);
    assert ([i] + rest)[1..] == rest;
    assert [] + rest == rest;
  }

  lemma StatementsEnd(
    index2values: seq<nat>, values: seq<FieldValue>, aliases: Aliases, stringQuote: string, d: Dialect)
    requires KeysInBounds(index2values, values)
    ensures Emitted(index2values, values, aliases, |values|) == []
    ensures Statements2(index2values, values, aliases, stringQuote, d, []) == []
  {
  }

  // ---- What is inserted is declared ----

  ghost predicate IsDeclared(name: string, declared: seq<Column>) {
    exists i :: 0 <= i < |declared| && declared[i].name == name
  }

  /** The same fields, whatever their values. */
  predicate SameFields(a: seq<FieldValue>, b: seq<FieldValue>) {
    |a| == |b| && forall i :: 0 <= i < |a| ==> a[i].field == b[i].field
  }

  lemma {:induction false} FieldsAgree(
    a: seq<FieldValue>, b: seq<FieldValue>, aliases: Aliases, stringQuote: string, d: Dialect)
    requires SameFields(a, b)
    ensures |FieldColumns(a, aliases, stringQuote)| == |DeclaredFields(b, aliases, d)|
    ensures forall i :: 0 <= i < |DeclaredFields(b, aliases, d)| ==>
                          FieldColumns(a, aliases, stringQuote)[i].name == DeclaredFields(b, aliases, d)[i].name
    decreases |a|
  {
    hide FindAlias, FieldLiteral, TypeName, FieldColumns, DeclaredFields;
    FieldsStep(a, |a|, aliases, stringQuote, d);
    FieldsStep(b, |b|, aliases, stringQuote, d);
    if a != [] {
      FieldsAgree(a[1..], b[1..], aliases, stringQuote, d);
      FieldsStep(a, 0, aliases, stringQuote, d);
      FieldsStep(b, 0, aliases, stringQuote, d);
      assert a[0..] == a && b[0..] == b;
    } else {
      assert a[|a|..] == a && b[|b|..] == b;
    }
  }

  lemma {:induction false} PropertyIsDeclared(config: seq<Property>, d: Dialect, p: Property)
    requires p in config && p.value != ""
    ensures IsDeclared(p.value, DeclaredProperties(config, d))
  {
    hide TypeName;
    var all := DeclaredProperties(config, d);
    if config[0] == p {
      assert all[0].name == p.value;
    } else {
      PropertyIsDeclared(config[1..], d, p);
      var rest := DeclaredProperties(config[1..], d);
      var i :| 0 <= i < |rest| && rest[i].name == p.value;
      assert all[|all| - |rest| + i] == rest[i];
    }
  }

  lemma {:induction false} PropertyColumnsAt(ps: seq<Property>, stringQuote: string)
    ensures |PropertyColumns(ps, stringQuote)| == |ps|
    ensures forall i :: 0 <= i < |ps| ==> PropertyColumns(ps, stringQuote)[i].name == ps[i].name
  {
    hide PropertyLiteral;
    if ps != [] {
      PropertyColumnsAt(ps[1..], stringQuote);
    }
  }

  /**
   * With properties prepared by `setProperties`, every column that an INSERT names is declared by the CREATE TABLE
   * for the same fields, exactly when some field is not skipped or no property is inserted.
   */
  lemma InsertedAreDeclared(
    inserted: seq<FieldValue>, created: seq<FieldValue>, aliases: Aliases, config: seq<Property>,
    values: map<string, string>, stringQuote: string, d: Dialect)
    requires SameFields(inserted, created)
    ensures var properties := Renamed([], config, values);
            var columns := FieldColumns(inserted, aliases, stringQuote) + PropertyColumns(properties, stringQuote);
            (forall i :: 0 <= i < |columns| ==> IsDeclared(columns[i].name, Declared(created, aliases, config, d))) <==>
            DeclaredFields(created, aliases, d) != [] || properties == []
  {
    hide FieldColumns, DeclaredFields, DeclaredProperties, PropertyColumns, Renamed, IsDeclared;
    var properties := Renamed([], config, values);
    var a, b := FieldColumns(inserted, aliases, stringQuote), PropertyColumns(properties, stringQuote);
    var f, g := DeclaredFields(created, aliases, d), DeclaredProperties(config, d);
    var columns: seq<Column> := a + b;
    FieldsAgree(inserted, created, aliases, stringQuote, d);
    PropertyColumnsAt(properties, stringQuote);
    RenamedExactly([], config, values);
    forall i | 0 <= i < |columns| && f != []
      ensures IsDeclared(columns[i].name, f + g)
    {
      if i < |a| {
        DeclaredAt(f, g, i, columns[i].name);
      } else {
        var q := properties[i - |a|];
        assert q in properties;
        assert WrittenLast(config, q, values);
        var p :| p in config && p.value == q.name != "";
        PropertyIsDeclared(config, d, p);
        DeclaredLater(f, g, p.value);
      }
    }
    if f == [] && properties != [] {
      NothingDeclared(columns[0].name);
    }
  }

  lemma DeclaredAt(f: seq<Column>, g: seq<Column>, i: nat, name: string)
    requires i < |f| && f[i].name == name
    ensures IsDeclared(name, f + g)
  {
    assert (f + g)[i].name == name;
  }

  lemma DeclaredLater(f: seq<Column>, g: seq<Column>, name: string)
    requires IsDeclared(name, g)
    ensures IsDeclared(name, f + g)
  {
    var i :| 0 <= i < |g| && g[i].name == name;
    assert (f + g)[|f| + i].name == name;
  }

  lemma NothingDeclared(name: string)
    ensures !IsDeclared(name, [])
  {
  }

  lemma JoinNone()
    ensures Join([], ", ") == ""
  {
  }

  lemma NoColumns(q: string)
    ensures Join(Names([], q), ", ") == "" && Join(Literals([]), ", ") == "" && Join(Declarations([], q), ", ") == ""
  {
  }
}
