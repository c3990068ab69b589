/**
 * The statements, read back: a reader of INSERT and CREATE TABLE that knows nothing of how they are written finds the
 * names, the values and which values are texts.
 */
module SqlReading {
  import opened JsonValue
  import opened JsonNumber
  import opened SqlText
  import opened SqlStatements

  // ---- A reader of lists ----

  /** What stands between quotes, or as it is. */
  datatype Item = Quoted(text: string) | Bare(text: string)

  /** The position of the first character that is one of `stops`. */
  function FirstOf(s: string, stops: string): (n: nat)
    ensures n <= |s| && (forall i :: 0 <= i < n ==> s[i] !in stops) && (n < |s| ==> s[n] in stops)
  {
    if s == "" || s[0] in stops then 0 else 1 + FirstOf(s[1..], stops)
  }

  function ReadItem(s: string, quote: char): (r: Option<(Item, string)>)
    ensures r.Some? ==> |r.value.1| <= |s|
  {
    if s == "" then None
    else if s[0] == quote then
      var n := FirstOf(s[1..], [quote]);
      if n + 1 == |s| then None else Some((Quoted(s[1..n + 1]), s[n + 2..]))
    else
      var n := FirstOf(s, ",)");
      Some((Bare(s[..n]), s[n..]))
  }

  /** A list up to its closing parenthesis, and what follows that. */
  function ReadItems(s: string, quote: char, separator: string): Option<(seq<Item>, string)>
    decreases |s|
  {
    match ReadItem(s, quote)
    case None => None
    case Some((item, rest)) =>
      if rest == "" then None
      else if rest[0] == ')' then Some(([item], rest[1..]))
      else if separator != "" && separator <= rest then
        match ReadItems(rest[|separator|..], quote, separator)
        case None => None
        case Some((items, tail)) => Some(([item] + items, tail))
      else None
  }

  function Written(item: Item, quote: char): string {
    match item
    case Quoted(text) => [quote] + text + [quote]
    case Bare(text) => text
  }

  function AllWritten(items: seq<Item>, quote: char): (r: seq<string>)
    ensures |r| == |items|
  {
    seq(|items|, i requires 0 <= i < |items| => Written(items[i], quote))
  }

  /** The text does not contain what ends it. */
  predicate Fine(item: Item, quote: char) {
    match item
    case Quoted(text) => quote !in text
    case Bare(text) => ',' !in text && ')' !in text && (text != "" ==> text[0] != quote)
  }

  lemma FirstOfIs(s: string, stops: string, n: nat)
    requires n < |s| && s[n] in stops && forall i :: 0 <= i < n ==> s[i] !in stops
    ensures FirstOf(s, stops) == n
  {
  }

  lemma ReadsItem(item: Item, quote: char, tail: string)
    requires Fine(item, quote) && tail != "" && tail[0] in ",)" && quote !in ",)"
    ensures ReadItem(Written(item, quote) + tail, quote) == Some((item, tail))
  {
    match item
    case Quoted(text) => ReadsQuoted(text, quote, tail);
    case Bare(text) => ReadsBare(text, quote, tail);
  }

  lemma ReadsBare(text: string, quote: char, tail: string)
    requires Fine(Bare(text), quote) && tail != "" && tail[0] in ",)" && quote !in ",)"
    ensures ReadItem(text + tail, quote) == Some((Bare(text), tail))
  {
    var s := text + tail;
    assert ",)" == [',', ')'];
    assert forall i :: 0 <= i < |text| ==> s[i] == text[i];
    assert s[|text|] == tail[0];
    FirstOfIs(s, ",)", |text|);
    assert s[..|text|] == text && s[|text|..] == tail;
  }

  lemma ReadsQuoted(text: string, quote: char, tail: string)
    requires quote !in text
    ensures ReadItem([quote] + text + [quote] + tail, quote) == Some((Quoted(text), tail))
  {
    var s, u := [quote] + text + [quote] + tail, text + [quote] + tail;
    assert s[1..] == u;
    assert forall i :: 0 <= i < |text| ==> u[i] == text[i];
    FirstOfIs(u, [quote], |text|);
    assert s[1..|text| + 1] == text && s[|text| + 2..] == tail;
  }

  predicate AllFine(items: seq<Item>, quote: char) {
    forall i :: 0 <= i < |items| ==> Fine(items[i], quote)
  }

  /** Every list of items that do not contain what ends them is read back. */
  lemma {:induction false} ReadsItems(items: seq<Item>, quote: char, separator: string, tail: string)
    requires items != [] && AllFine(items, quote) && quote !in ",)" && separator != "" && separator[0] == ','
    ensures ReadItems(Join(AllWritten(items, quote), separator) + ")" + tail, quote, separator) == Some((items, tail))
    decreases |items|
  {
    hide ReadItem, Written, Fine;
    var first, rest := items[0], items[1..];
    var s := Join(AllWritten(items, quote), separator) + ")" + tail;
    if rest == [] {
      assert s == Written(first, quote) + (")" + tail);
      ReadsItem(first, quote, ")" + tail);
      assert (")" + tail)[1..] == tail && items == [first];
    } else {
      var more := Join(AllWritten(rest, quote), separator) + ")" + tail;
      assert AllWritten(items, quote)[1..] == AllWritten(rest, quote);
      Regroup(Written(first, quote), separator, Join(AllWritten(rest, quote), separator), ")", tail);
      assert s == Written(first, quote) + (separator + more);
      ReadsItem(first, quote, separator + more);
      ReadsItems(rest, quote, separator, tail);
      assert (separator + more)[|separator|..] == more && items == [first] + rest;
    }
  }

  lemma Regroup(a: string, b: string, c: string, d: string, e: string)
    ensures a + b + c + d + e == a + (b + (c + d + e))
  {
  }

  // ---- A reader of INSERT ----

  datatype Insert = Insert(table: string, names: seq<Item>, values: seq<Item>)

  function After(s: string, prefix: string): Option<string> {
    if prefix <= s then Some(s[|prefix|..]) else None
  }

  /** The quote around names: MySQL has one of its own. */
  function NameMark(d: Dialect): char {
    if d.MySql? then '`' else '"'
  }

  /** `INSERT INTO table(names) VALUES (values);` and a line feed, with texts in single quotes. */
  function ReadInsert(s: string, mark: char, separator: string): Option<Insert> {
    match After(s, "INSERT INTO ")
    case None => None
    case Some(s1) =>
      match ReadItem(s1, mark)
      case None => None
      case Some((table, s2)) =>
        match After(s2, "(")
        case None => None
        case Some(s3) =>
          match ReadItems(s3, mark, separator)
          case None => None
          case Some((names, s4)) =>
            match After(s4, " VALUES (")
            case None => None
            case Some(s5) =>
              match ReadItems(s5, '\'', separator)
              case None => None
              case Some((values, s6)) =>
                if table.Quoted? && s6 == ";\n" then Some(Insert(table.text, names, values)) else None
  }

  /** The text of an INSERT, whatever its items are. */
  function Spelled(i: Insert, mark: char, separator: string): string {
    "INSERT INTO " + [mark] + i.table + [mark] + "(" + Join(AllWritten(i.names, mark), separator)
    + ") VALUES (" + Join(AllWritten(i.values, '\''), separator) + ");" + "\n"
  }

  lemma AfterPrefix(prefix: string, rest: string)
    ensures After(prefix + rest, prefix) == Some(rest)
  {
  }

  lemma Parts(quoted: string, a: string, b: string)
    ensures "INSERT INTO " + quoted + "(" + a + ") VALUES (" + b + ");" + "\n" ==
            "INSERT INTO " + (quoted + ("(" + (a + ")" + (" VALUES (" + (b + ")" + ";\n")))))
  {
    assert ") VALUES (" == ")" + " VALUES (" && ");" + "\n" == ")" + ";\n";
  }

  lemma ReadsInsert(i: Insert, mark: char, separator: string)
    requires i.names != [] && i.values != [] && AllFine(i.names, mark) && AllFine(i.values, '\'')
    requires mark !in i.table && mark !in ",)" && separator != "" && separator[0] == ','
    ensures ReadInsert(Spelled(i, mark, separator), mark, separator) == Some(i)
  {
    var a, b := Join(AllWritten(i.names, mark), separator), Join(AllWritten(i.values, '\''), separator);
    var quoted := [mark] + i.table + [mark];
    var s4 := " VALUES (" + (b + ")" + ";\n");
    var s2 := "(" + (a + ")" + s4);
    assert Spelled(i, mark, separator) == "INSERT INTO " + (quoted + s2) by {
      hide AllWritten, Join;
      Parts(quoted, a, b);
      assert "INSERT INTO " + [mark] + i.table + [mark] == "INSERT INTO " + quoted;
    }
    hide ReadItem, ReadItems, After, AllFine, AllWritten, Join, Spelled;
    AfterPrefix("INSERT INTO ", quoted + s2);
    ReadsQuoted(i.table, mark, s2);
    AfterPrefix("(", a + ")" + s4);
    ReadsItems(i.names, mark, separator, s4);
    AfterPrefix(" VALUES (", b + ")" + ";\n");
    NoStop('\'');
    ReadsItems(i.values, '\'', separator, ";\n");
  }

  lemma NoStop(c: char)
    ensures c !in ",)" <==> c != ',' && c != ')'
  {
    assert ",)" == [',', ')'];
  }

  // ---- INSERT with all fields in a row ----

  /** Only digits, dots and minus signs. */
  predicate Numeric(s: string) {
    s != "" && forall i :: 0 <= i < |s| ==> s[i] in "0123456789.-"
  }

  predicate TextType(t: CppType) {
    t == StringType || t == MessageType
  }

  /** A value is written as a text unless its field has a numeric type and it is a number. */
  function ItemOf(v: FieldValue): Item {
    if TextType(v.fieldType) || !Numeric(v.value) then Quoted(v.value) else Bare(v.value)
  }

  /** A property is a text, unless it is the time of receipt and a number. */
  function ItemOfProperty(p: Property): Item {
    if p.name == "received" && Numeric(p.value) then Bare(p.value) else Quoted(p.value)
  }

  /** The fields that are not skipped. */
  function Shown(values: seq<FieldValue>, aliases: Aliases): seq<FieldValue> {
    if values == [] then []
    else (if FindAlias(aliases, values[0].field) == "" then [] else [values[0]]) + Shown(values[1..], aliases)
  }

  /** A field goes by its alias, or by its own name when it has none. */
  lemma AliasIs(aliases: Aliases, name: string)
    ensures aliases.None? || name !in aliases.value ==> FindAlias(aliases, name) == name
    ensures aliases.Some? && name in aliases.value ==> FindAlias(aliases, name) == aliases.value[name]
  {
  }

  lemma NumericIsNumber(s: string)
    ensures Numeric(s) <==> IsNumber(s)
  {
    forall c: char
      ensures c in "0123456789.-" <==> '0' <= c <= '9' || c == '.' || c == '-'
    {
      DigitPlaces(c);
    }
  }

  lemma DigitPlaces(c: char)
    ensures c in "0123456789.-" <==> '0' <= c <= '9' || c == '.' || c == '-'
  {
    var s := "0123456789.-";
    assert s[0] == '0' && s[1] == '1' && s[2] == '2' && s[3] == '3' && s[4] == '4' && s[5] == '5';
    assert s[6] == '6' && s[7] == '7' && s[8] == '8' && s[9] == '9' && s[10] == '.' && s[11] == '-';
    if '0' <= c <= '9' {
      var k := c as int - '0' as int;
      assert k == 0 || k == 1 || k == 2 || k == 3 || k == 4 || k == 5 || k == 6 || k == 7 || k == 8 || k == 9;
    }
  }

  lemma NumericIsFine(s: string, quote: char)
    requires Numeric(s) && quote in "'\"`"
    ensures Fine(Bare(s), quote)
  {
    forall i | 0 <= i < |s|
      ensures s[i] != ',' && s[i] != ')' && s[i] != quote
    {
      DigitPlaces(s[i]);
      assert "'\"`" == ['\'', '"', '`'];
    }
  }

  /** The names and values that an INSERT of these fields and properties has. */
  function RowOf(values: seq<FieldValue>, aliases: Aliases, properties: seq<Property>, table: string): Insert {
    var shown := Shown(values, aliases);
    Insert(table,
           seq(|shown|, i requires 0 <= i < |shown| => Quoted(FindAlias(aliases, shown[i].field)))
           + seq(|properties|, i requires 0 <= i < |properties| => Quoted(properties[i].name)),
           seq(|shown|, i requires 0 <= i < |shown| => ItemOf(shown[i]))
           + seq(|properties|, i requires 0 <= i < |properties| => ItemOfProperty(properties[i])))
  }

  lemma LiteralOf(v: FieldValue)
    ensures FieldLiteral(v, "'") == Written(ItemOf(v), '\'')
  {
    NumericIsNumber(v.value);
  }

  lemma LiteralOfProperty(p: Property)
    ensures PropertyLiteral(p, "'") == Written(ItemOfProperty(p), '\'')
  {
    NumericIsNumber(p.value);
  }

  lemma {:induction false} FieldsAreShown(values: seq<FieldValue>, aliases: Aliases)
    ensures var columns, shown := FieldColumns(values, aliases, "'"), Shown(values, aliases);
            |columns| == |shown| &&
            forall j :: 0 <= j < |shown| ==>
                          columns[j].name == FindAlias(aliases, shown[j].field) &&
                          columns[j].literal == Written(ItemOf(shown[j]), '\'')
  {
    hide FindAlias, FieldLiteral, ItemOf, Written;
    if values != [] {
      LiteralOf(values[0]);
      FieldsAreShown(values[1..], aliases);
    }
  }

  lemma {:induction false} PropertiesAreShown(ps: seq<Property>)
    ensures var columns := PropertyColumns(ps, "'");
            |columns| == |ps| &&
            forall j :: 0 <= j < |ps| ==>
                          columns[j].name == ps[j].name && columns[j].literal == Written(ItemOfProperty(ps[j]), '\'')
  {
    hide PropertyLiteral, ItemOfProperty, Written;
    if ps != [] {
      LiteralOfProperty(ps[0]);
      PropertiesAreShown(ps[1..]);
    }
  }

  /**
   * The statement of `toStringInsert` is read back: a table, the name of every field that is not skipped and of every
   * property, and their values in the same order, each as a text or as a number as its type and its value say. Only
   * names and values that contain their own quotes are shut out.
   */
  lemma {:induction false} InsertReadsBack(
    values: seq<FieldValue>, aliases: Aliases, properties: seq<Property>, table: string, d: Dialect)
    requires var columns := FieldColumns(values, aliases, "'") + PropertyColumns(properties, "'"); columns != []
    requires NameMark(d) !in WithoutFirstDot(table)
    requires forall j :: 0 <= j < |values| ==>
                           NameMark(d) !in FindAlias(aliases, values[j].field) && '\'' !in values[j].value
    requires forall j :: 0 <= j < |properties| ==> NameMark(d) !in properties[j].name && '\'' !in properties[j].value
    ensures var columns := FieldColumns(values, aliases, "'") + PropertyColumns(properties, "'");
            ReadInsert(InsertText(table, columns, d), NameMark(d), ", ") ==
            Some(RowOf(values, aliases, properties, WithoutFirstDot(table)))
  {
    hide FieldColumns, PropertyColumns, FindAlias, WithoutFirstDot, ReadInsert, Join, RowOf, InsertText, Spelled,
      AllFine;
    var row, mark := RowOf(values, aliases, properties, WithoutFirstDot(table)), NameMark(d);
    RowIsSpelled(values, aliases, properties, table, d);
    RowIsFine(values, aliases, properties, WithoutFirstDot(table), mark);
    NoStop(mark);
    ReadsInsert(row, mark, ", ");
  }

  lemma RowIsSpelled(values: seq<FieldValue>, aliases: Aliases, properties: seq<Property>, table: string, d: Dialect)
    ensures var columns := FieldColumns(values, aliases, "'") + PropertyColumns(properties, "'");
            var row := RowOf(values, aliases, properties, WithoutFirstDot(table));
            InsertText(table, columns, d) == Spelled(row, NameMark(d), ", ") && |row.names| == |row.values| == |columns|
    ensures RowOf(values, aliases, properties, WithoutFirstDot(table)).table == WithoutFirstDot(table)
  {
    hide FieldColumns, PropertyColumns, FindAlias, WithoutFirstDot, Join, Shown, ItemOf, ItemOfProperty;
    var columns: seq<Column> := FieldColumns(values, aliases, "'") + PropertyColumns(properties, "'");
    var row, mark := RowOf(values, aliases, properties, WithoutFirstDot(table)), NameMark(d);
    FieldsAreShown(values, aliases);
    PropertiesAreShown(properties);
    ColumnsAreWritten(columns, row, NameQuote(d), mark);
  }

  lemma ColumnsAreWritten(columns: seq<Column>, row: Insert, q: string, mark: char)
    requires q == [mark] && |row.names| == |row.values| == |columns|
    requires forall j :: 0 <= j < |columns| ==>
                           row.names[j] == Quoted(columns[j].name) &&
                           columns[j].literal == Written(row.values[j], '\'')
    ensures Names(columns, q) == AllWritten(row.names, mark) && Literals(columns) == AllWritten(row.values, '\'')
  {
  }

  lemma RowIsFine(values: seq<FieldValue>, aliases: Aliases, properties: seq<Property>, table: string, mark: char)
    requires forall j :: 0 <= j < |values| ==>
                           mark !in FindAlias(aliases, values[j].field) && '\'' !in values[j].value
    requires forall j :: 0 <= j < |properties| ==> mark !in properties[j].name && '\'' !in properties[j].value
    ensures var row := RowOf(values, aliases, properties, table); AllFine(row.names, mark) && AllFine(row.values, '\'')
  {
    hide FindAlias, Shown, Numeric;
    var row, shown := RowOf(values, aliases, properties, table), Shown(values, aliases);
    ShownFrom(values, aliases);
    assert "'\"`"[0] == '\'';
    forall j | 0 <= j < |row.values|
      ensures Fine(row.names[j], mark) && Fine(row.values[j], '\'')
    {
      if j < |shown| {
        assert shown[j] in values;
        if Numeric(shown[j].value) {
          NumericIsFine(shown[j].value, '\'');
        }
      } else if Numeric(properties[j - |shown|].value) {
        NumericIsFine(properties[j - |shown|].value, '\'');
      }
    }
  }

  lemma {:induction false} ShownFrom(values: seq<FieldValue>, aliases: Aliases)
    ensures forall v :: v in Shown(values, aliases) <==> v in values && FindAlias(aliases, v.field) != ""
  {
    hide FindAlias;
    if values != [] {
      ShownFrom(values[1..], aliases);
    }
  }

  // ---- INSERT with a row for each field ----

  /** Some fields are written as texts on request. */
  function ItemOf2(v: FieldValue): Item {
    if v.sqlString then Quoted(v.value) else ItemOf(v)
  }

  /** The row for the field at `i`: message id, keys, name and value. Texts and numbers have tables of their own. */
  function RowOf2(index2values: seq<nat>, values: seq<FieldValue>, aliases: Aliases, i: nat): Insert
    requires KeysInBounds(index2values, values) && i < |values|
  {
    var keys := |index2values| - 1;
    Insert(if ItemOf2(values[i]).Quoted? then "str" else "num",
           seq(keys + 3, j requires 0 <= j < keys + 3 => Bare(RowNames(keys)[j])),
           [Bare(NatText(index2values[0]))]
           + seq(keys, k requires 0 <= k < keys => ItemOf2(values[index2values[k + 1]]))
           + [Quoted(FindAlias(aliases, values[i].field)), ItemOf2(values[i])])
  }

  lemma LiteralOf2(v: FieldValue)
    ensures Literal2(v, "'") == Written(ItemOf2(v), '\'') && (WrittenAsText(v) <==> ItemOf2(v).Quoted?)
  {
    NumericIsNumber(v.value);
  }

  lemma {:induction false} KeysAreShown(index2values: seq<nat>, values: seq<FieldValue>, n: nat)
    requires n < |index2values| && forall k :: 0 < k < |index2values| ==> index2values[k] < |values|
    ensures forall k :: 0 <= k < n ==>
                          KeyLiterals(index2values, values, "'", n)[k] ==
                          Written(ItemOf2(values[index2values[k + 1]]), '\'')
  {
    hide Literal2, ItemOf2, Written;
    if n > 0 {
      KeysAreShown(index2values, values, n - 1);
      LiteralOf2(values[index2values[n]]);
    }
  }

  lemma RowNamesAreFine(keys: nat, mark: char)
    requires keys <= 4 && (mark == '"' || mark == '`')
    ensures |RowNames(keys)| == keys + 3
    ensures forall j :: 0 <= j < keys + 3 ==> Fine(Bare(RowNames(keys)[j]), mark)
  {
    forall j | 0 <= j < 5
      ensures Fine(Bare(SQL2_NAMES[j]), mark)
    {
      assert j == 0 || j == 1 || j == 2 || j == 3 || j == 4;
    }
  }

  lemma NatTextIsFine(n: nat)
    ensures Fine(Bare(NatText(n)), '\'')
  {
  }

  lemma ItemOf2IsFine(v: FieldValue)
    requires '\'' !in v.value
    ensures Fine(ItemOf2(v), '\'')
  {
    assert "'\"`"[0] == '\'';
    if Numeric(v.value) {
      NumericIsFine(v.value, '\'');
    }
  }

  /** Every statement of `toStringInsert2` is read back as the row of its field. */
  lemma {:induction false} RowReadsBack(
    index2values: seq<nat>, values: seq<FieldValue>, aliases: Aliases, d: Dialect, i: nat)
    requires KeysInBounds(index2values, values) && i < |values|
    requires '\'' !in FindAlias(aliases, values[i].field) && forall j :: 0 <= j < |values| ==> '\'' !in values[j].value
    ensures ReadInsert(Statement2(index2values, values, aliases, "'", d, i), NameMark(d), ",") ==
            Some(RowOf2(index2values, values, aliases, i))
  {
    hide ReadInsert, Spelled, Join, RowOf2, Statement2, NatText, AllFine;
    var row, mark := RowOf2(index2values, values, aliases, i), NameMark(d);
    Row2IsSpelled(index2values, values, aliases, d, i);
    Row2IsFine(index2values, values, aliases, mark, i);
    NoStop(mark);
    ReadsInsert(row, mark, ",");
  }

  lemma Row2IsFine(index2values: seq<nat>, values: seq<FieldValue>, aliases: Aliases, mark: char, i: nat)
    requires KeysInBounds(index2values, values) && i < |values| && (mark == '"' || mark == '`')
    requires '\'' !in FindAlias(aliases, values[i].field) && forall j :: 0 <= j < |values| ==> '\'' !in values[j].value
    ensures var row := RowOf2(index2values, values, aliases, i);
            AllFine(row.names, mark) && AllFine(row.values, '\'') && mark !in row.table &&
            |row.names| == |row.values| == |index2values| + 2
  {
    hide NatText, ItemOf2, RowNames, FindAlias;
    var keys := |index2values| - 1;
    RowNamesAreFine(keys, mark);
    NatTextIsFine(index2values[0]);
    ItemOf2IsFine(values[i]);
    forall k | 0 < k < |index2values|
      ensures Fine(ItemOf2(values[index2values[k]]), '\'')
    {
      ItemOf2IsFine(values[index2values[k]]);
    }
  }

  lemma Row2IsSpelled(index2values: seq<nat>, values: seq<FieldValue>, aliases: Aliases, d: Dialect, i: nat)
    requires KeysInBounds(index2values, values) && i < |values|
    ensures Statement2(index2values, values, aliases, "'", d, i) ==
            Spelled(RowOf2(index2values, values, aliases, i), NameMark(d), ",")
  {
    hide NatText, Join, KeyLiterals, Literal2, ItemOf2, FindAlias, WrittenAsText, RowNames;
    var keys := |index2values| - 1;
    var row := RowOf2(index2values, values, aliases, i);
    RowNamesAreFine(keys, NameMark(d));
    KeysAreShown(index2values, values, keys);
    LiteralOf2(values[i]);
    var literals := RowValues(index2values, values, aliases, "'", i);
    assert AllWritten(row.names, NameMark(d)) == RowNames(keys);
    assert AllWritten(row.values, '\'') == literals;
  }

  // ---- CREATE TABLE ----

  /** Names with their types, separated by commas. */
  function ReadDeclarations(s: string, mark: char): Option<seq<Column>>
    decreases |s|
  {
    match ReadItem(s, mark)
    case None => None
    case Some((name, s1)) =>
      match After(s1, " ")
      case None => None
      case Some(s2) =>
        var n := FirstOf(s2, ",");
        var column := Column(name.text, s2[..n]);
        if name.Bare? then None
        else if n == |s2| then Some([column])
        else
          match After(s2[n..], ", ")
          case None => None
          case Some(s3) =>
            match ReadDeclarations(s3, mark)
            case None => None
            case Some(rest) => Some([column] + rest)
  }

  /** `CREATE TABLE table(declarations);` */
  function ReadCreate(s: string, mark: char): Option<(string, seq<Column>)> {
    match After(s, "CREATE TABLE ")
    case None => None
    case Some(s1) =>
      match ReadItem(s1, mark)
      case None => None
      case Some((table, s2)) =>
        match After(s2, "(")
        case None => None
        case Some(s3) =>
          if table.Quoted? && |s3| >= 2 && s3[|s3| - 2..] == ");" then
            match ReadDeclarations(s3[..|s3| - 2], mark)
            case None => None
            case Some(columns) => Some((table.text, columns))
          else None
  }

  /** A type ends at a comma or at the end of the declarations. */
  lemma TypeEnds(t: string, tail: string)
    requires ',' !in t && (tail == "" || tail[0] == ',')
    ensures FirstOf(t + tail, ",") == |t| && (t + tail)[..|t|] == t && (t + tail)[|t|..] == tail
  {
    var u := t + tail;
    assert forall i :: 0 <= i < |t| ==> u[i] == t[i];
    if tail != "" {
      FirstOfIs(u, ",", |t|);
    }
  }

  lemma DeclarationsParts(columns: seq<Column>, mark: char)
    requires columns != []
    ensures var tail := if |columns| == 1 then "" else ", " + Join(Declarations(columns[1..], [mark]), ", ");
            Join(Declarations(columns, [mark]), ", ") ==
            [mark] + columns[0].name + [mark] + (" " + (columns[0].literal + tail))
  {
    assert |columns| > 1 ==> Declarations(columns, [mark])[1..] == Declarations(columns[1..], [mark]);
  }

  lemma {:induction false} ReadsDeclarations(columns: seq<Column>, mark: char)
    requires columns != []
    requires forall j :: 0 <= j < |columns| ==> mark !in columns[j].name && ',' !in columns[j].literal
    ensures ReadDeclarations(Join(Declarations(columns, [mark]), ", "), mark) == Some(columns)
    decreases |columns|
  {
    hide ReadItem, FirstOf, Join, Declarations, After;
    var name, t, rest := columns[0].name, columns[0].literal, columns[1..];
    var more := Join(Declarations(rest, [mark]), ", ");
    var tail := if rest == [] then "" else ", " + more;
    DeclarationsParts(columns, mark);
    ReadsQuoted(name, mark, " " + (t + tail));
    AfterPrefix(" ", t + tail);
    TypeEnds(t, tail);
    assert columns == [Column(name, t)] + rest;
    assert rest == [] ==> columns == [Column(name, t)];
    if rest != [] {
      AfterPrefix(", ", more);
      ReadsDeclarations(rest, mark);
    }
  }

  lemma CreateParts(quoted: string, a: string)
    ensures "CREATE TABLE " + quoted + "(" + (a + ");") == "CREATE TABLE " + (quoted + ("(" + (a + ");")))
    ensures (a + ");")[|a + ");"| - 2..] == ");" && (a + ");")[..|a + ");"| - 2] == a
  {
  }

  lemma TypesAreFine(t: CppType, d: Dialect)
    ensures ',' !in TypeName(t, d)
  {
  }

  /** The statement of `toCreateSQLTableFields` is read back: the table, and each column with its type. */
  lemma {:induction false} CreateReadsBack(columns: seq<Column>, table: string, d: Dialect)
    requires columns != [] && NameMark(d) !in WithoutFirstDot(table)
    requires forall j :: 0 <= j < |columns| ==> NameMark(d) !in columns[j].name && ',' !in columns[j].literal
    ensures ReadCreate(CreateText(table, columns, d), NameMark(d)) == Some((WithoutFirstDot(table), columns))
  {
    hide Join, Declarations, ReadItem, ReadDeclarations, After, WithoutFirstDot;
    var mark := NameMark(d);
    var name, a := WithoutFirstDot(table), Join(Declarations(columns, [mark]), ", ");
    var quoted := [mark] + name + [mark];
    assert CreateText(table, columns, d) == "CREATE TABLE " + quoted + "(" + (a + ");") by {
      assert "CREATE TABLE " + [mark] + name + [mark] == "CREATE TABLE " + quoted;
    }
    CreateParts(quoted, a);
    AfterPrefix("CREATE TABLE ", quoted + ("(" + (a + ");")));
    ReadsQuoted(name, mark, "(" + (a + ");"));
    AfterPrefix("(", a + ");");
    ReadsDeclarations(columns, mark);
  }

  /** What is declared: every field that is not skipped, with its type, and the properties that have a name. */
  lemma {:induction false} FieldsAreDeclared(values: seq<FieldValue>, aliases: Aliases, d: Dialect)
    ensures var columns, shown := DeclaredFields(values, aliases, d), Shown(values, aliases);
            |columns| == |shown| &&
            forall j :: 0 <= j < |shown| ==>
                          columns[j] == Column(FindAlias(aliases, shown[j].field), TypeName(shown[j].fieldType, d))
  {
    hide FindAlias, TypeName;
    if values != [] {
      FieldsAreDeclared(values[1..], aliases, d);
    }
  }

  lemma {:induction false} PropertiesAreDeclared(config: seq<Property>, d: Dialect, c: Column)
    ensures c in DeclaredProperties(config, d) <==>
            c.name != "" && exists j ::
              0 <= j < |config| && config[j].value == c.name &&
              c.literal == TypeName(if config[j].name == "received" then UInt32Type else StringType, d)
  {
    hide TypeName;
    if config != [] {
      PropertiesAreDeclared(config[1..], d, c);
      var rest := config[1..];
      assert forall j :: 0 <= j < |rest| ==> rest[j] == config[j + 1];
      assert forall j :: 0 < j < |config| ==> config[j] == rest[j - 1];
    }
  }

  /**
   * The statement that `toCreateSQLTableFields` writes for fields and properties is read back. Only names that contain
   * their own quotes are shut out.
   */
  lemma {:induction false} DeclaredReadsBack(
    values: seq<FieldValue>, aliases: Aliases, config: seq<Property>, table: string, d: Dialect)
    requires DeclaredFields(values, aliases, d) != [] && NameMark(d) !in WithoutFirstDot(table)
    requires forall j :: 0 <= j < |values| ==> NameMark(d) !in FindAlias(aliases, values[j].field)
    requires forall j :: 0 <= j < |config| ==> NameMark(d) !in config[j].value
    ensures var columns := Declared(values, aliases, config, d);
            ReadCreate(CreateText(table, columns, d), NameMark(d)) == Some((WithoutFirstDot(table), columns))
  {
    hide ReadCreate, CreateText, TypeName, FindAlias, WithoutFirstDot, Shown, DeclaredFields, DeclaredProperties;
    var columns, f := Declared(values, aliases, config, d), DeclaredFields(values, aliases, d);
    FieldsAreDeclared(values, aliases, d);
    ShownFrom(values, aliases);
    var shown := Shown(values, aliases);
    forall j | 0 <= j < |columns|
      ensures NameMark(d) !in columns[j].name && ',' !in columns[j].literal
    {
      if j < |f| {
        assert shown[j] in values;
        TypesAreFine(shown[j].fieldType, d);
      } else {
        assert columns[j] in DeclaredProperties(config, d);
        PropertiesAreDeclared(config, d, columns[j]);
        TypesAreFine(UInt32Type, d);
        TypesAreFine(StringType, d);
      }
    }
    CreateReadsBack(columns, table, d);
  }

  // ---- Table names ----

  /** The first dot of a name becomes an underscore; a name without one is kept. */
  lemma {:induction false} FirstDotReplaced(a: string, b: string)
    requires '.' !in a
    ensures WithoutFirstDot(a) == a && WithoutFirstDot(a + "." + b) == a + "_" + b
  {
    if a != "" {
      FirstDotReplaced(a[1..], b);
      assert (a + "." + b)[1..] == a[1..] + "." + b;
      assert a == [a[0]] + a[1..];
    } else {
      assert (a + "." + b)[1..] == b;
    }
  }

  // ---- Types ----

  /** What the integer types of the dialects hold. */
  function IntegerRange(name: string, d: Dialect): Option<(int, int)> {
    if name == "integer" && d == Sqlite then Some((-0x8000_0000_0000_0000, 0x7FFF_FFFF_FFFF_FFFF))
    else if name == "integer" || name == "int" then Some((-0x8000_0000, 0x7FFF_FFFF))
    else if name == "bigint" then Some((-0x8000_0000_0000_0000, 0x7FFF_FFFF_FFFF_FFFF))
    else if name == "int unsigned" && d == MySql then Some((0, 0xFFFF_FFFF))
    else if name == "bigint unsigned" && d == MySql then Some((0, 0xFFFF_FFFF_FFFF_FFFF))
    else if name == "numeric(20)" then Some((-99_999_999_999_999_999_999, 99_999_999_999_999_999_999))
    else None
  }

  /** How many bits the significands of the floating-point types have. */
  function Precision(name: string, d: Dialect): nat {
    if name == "double" || name == "double precision" then 53
    else if name == "float" then if d == PostgreSql then 53 else 24
    else 0
  }

  function ValueRange(t: CppType): Option<(int, int)> {
    match t
    case Int32Type => Some((-0x8000_0000, 0x7FFF_FFFF))
    case UInt32Type => Some((0, 0xFFFF_FFFF))
    case Int64Type => Some((-0x8000_0000_0000_0000, 0x7FFF_FFFF_FFFF_FFFF))
    case UInt64Type => Some((0, 0xFFFF_FFFF_FFFF_FFFF))
    case BoolType => Some((0, 1))
    case EnumType => Some((-0x8000_0000, 0x7FFF_FFFF))
    case _ => None
  }

  /**
   * Every column holds the values of its field, with one exception: Firebird and SQLite have only signed integers of
   * 64 bits for unsigned ones.
   */
  lemma ColumnsHoldValues(t: CppType, d: Dialect)
    ensures ValueRange(t).Some? <==> IntegerRange(TypeName(t, d), d).Some?
    ensures ValueRange(t).Some? && IntegerRange(TypeName(t, d), d).Some? ==>
              var (low, high), (min, max) := ValueRange(t).value, IntegerRange(TypeName(t, d), d).value;
              (min <= low && high <= max <==> !(t == UInt64Type && (d == Firebird || d == Sqlite)))
    ensures t == FloatType ==> Precision(TypeName(t, d), d) >= 24
    ensures t == DoubleType ==> Precision(TypeName(t, d), d) >= 53
    ensures TypeName(t, d) == (if d == Firebird then "BLOB sub_type 1" else "TEXT") <==> TextType(t)
  {
  }
}
