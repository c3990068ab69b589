/** `readCSVRow` and `readCSV` of google-sheets.cpp. */
module Csv {

  datatype CSVState = UnquotedField | QuotedField | QuotedQuote

  /** The state of reading a row: the last field is the current one. */
  datatype Reading = Reading(state: CSVState, fields: seq<string>)

  /** The fields with a character added to the current one. */
  function Pushed(fields: seq<string>, c: char): (r: seq<string>)
    requires fields != []
    ensures |r| == |fields|
  {
    fields[|fields| - 1 := fields[|fields| - 1] + [c]]
  }

  function Step(x: Reading, c: char): (r: Reading)
    requires x.fields != []
    ensures r.fields != []
  {
    match x.state
    case UnquotedField =>
      if c == ',' then Reading(UnquotedField, x.fields + [""])
      else if c == '"' then Reading(QuotedField, x.fields)
      else Reading(UnquotedField, Pushed(x.fields, c))
    case QuotedField =>
      if c == '"' then Reading(QuotedQuote, x.fields) else Reading(QuotedField, Pushed(x.fields, c))
    case QuotedQuote =>
      if c == ',' then Reading(UnquotedField, x.fields + [""])
      else if c == '"' then Reading(QuotedField, Pushed(x.fields, '"'))
      else Reading(UnquotedField, x.fields)
  }

  /** The state after the characters of `s`. */
  function Run(x: Reading, s: string): (r: Reading)
    requires x.fields != []
    ensures r.fields != []
    decreases |s|
  {
    if s == "" then x else Run(Step(x, s[0]), s[1..])
  }

  const START := Reading(UnquotedField, [""])

  /** The automaton keeps the index of the current field, which is always the last one. */
  method ReadCSVRow(row: string) returns (fields: seq<string>)
    ensures fields == Run(START, row).fields
  {
    hide Run;
    var state := UnquotedField;
    fields := [""];
    var i := 0;
    assert row[0..] == row;
    for r := 0 to |row|
      invariant i == |fields| - 1
      invariant Run(Reading(state, fields), row[r..]) == Run(START, row)
    {
      RunStep(Reading(state, fields), row, r);
      var c := row[r];
      if state == UnquotedField {
        if c == ',' {
          fields, i := fields + [""], i + 1;
        } else if c == '"' {
          state := QuotedField;
        } else {
          fields := fields[i := fields[i] + [c]];
        }
      } else if state == QuotedField {
        if c == '"' {
          state := QuotedQuote;
        } else {
          fields := fields[i := fields[i] + [c]];
        }
      } else {
        if c == ',' {
          fields, i, state := fields + [""], i + 1, UnquotedField;
        } else if c == '"' {
          fields, state := fields[i := fields[i] + ['"']], QuotedField;
        } else {
          state := UnquotedField;
        }
      }
    }
    RunEnd(Reading(state, fields), row);
  }

  lemma RunStep(x: Reading, s: string, r: nat)
    requires x.fields != [] && r < |s|
    ensures Run(x, s[r..]) == Run(Step(x, s[r]), s[r + 1..])
  {
    assert s[r..][1..] == s[r + 1..];
  }

  lemma RunEnd(x: Reading, s: string)
    requires x.fields != []
    ensures Run(x, s[|s|..]) == x
  {
  }

  // ---- Files ----

  /** The position of the first line feed at or after `p`, or the end. */
  function LineEnd(s: string, p: nat): (q: nat)
    requires p <= |s|
    ensures p <= q <= |s| && (q < |s| ==> s[q] == '\n') && forall i :: p <= i < q ==> s[i] != '\n'
    decreases |s| - p
  {
    if p < |s| && s[p] != '\n' then LineEnd(s, p + 1) else p
  }

  /** The rows of a file from `p` on. Text after the last line feed is no row. */
  function Rows(s: string, p: nat): seq<seq<string>>
    requires p <= |s|
    decreases |s| - p
  {
    var q := LineEnd(s, p);
    if q == |s| then [] else [Run(START, s[p..q]).fields] + Rows(s, q + 1)
  }

  /** `readCSV`: reads lines until the end of the file is met while looking for a line feed. */
  method ReadCSV(file: string) returns (rows: seq<seq<string>>)
    ensures rows == Rows(file, 0)
  {
    hide Run, Rows, LineEnd;
    rows := [];
    var p := 0;
    while true
      invariant p <= |file| && rows + Rows(file, p) == Rows(file, 0)
      decreases |file| - p
    {
      var q := LineEnd(file, p);
      var row := file[p..q];
      RowsStep(file, p);
      if q == |file| {
        break;
      }
      var fields := ReadCSVRow(row);
      assert rows + ([fields] + Rows(file, q + 1)) == rows + [fields] + Rows(file, q + 1);
      rows := rows + [fields];
      p := q + 1;
    }
  }

  // ---- Writing, after section 2 of RFC 4180 ----

  /** A field, and whether it is written in quotes. */
  datatype Cell = Cell(text: string, quoted: bool)

  /** A field without quotes must contain neither quote nor comma. */
  predicate Writable(c: Cell) {
    c.quoted || ('"' !in c.text && ',' !in c.text)
  }

  /** Quotes inside a quoted field are doubled. */
  function Doubled(s: string): string {
    if s == "" then "" else (if s[0] == '"' then "\"\"" else [s[0]]) + Doubled(s[1..])
  }

  function CellText(c: Cell): string {
    if c.quoted then "\"" + Doubled(c.text) + "\"" else c.text
  }

  function RowText(cells: seq<Cell>): string
    requires cells != []
  {
    if |cells| == 1 then CellText(cells[0]) else CellText(cells[0]) + "," + RowText(cells[1..])
  }

  /** Every row ends in a line feed, with `before` in front of it: nothing or, as the RFC has it, a carriage return. */
  function FileText(rows: seq<seq<Cell>>, before: string): string
    requires forall i :: 0 <= i < |rows| ==> rows[i] != []
  {
    if rows == [] then "" else RowText(rows[0]) + before + "\n" + FileText(rows[1..], before)
  }

  function Texts(cells: seq<Cell>): seq<string> {
    if cells == [] then [] else [cells[0].text] + Texts(cells[1..])
  }

  function AllTexts(rows: seq<seq<Cell>>): seq<seq<string>> {
    if rows == [] then [] else [Texts(rows[0])] + AllTexts(rows[1..])
  }

  // ---- Reading back a row ----

  lemma {:induction false} RunConcat(x: Reading, a: string, b: string)
    requires x.fields != []
    ensures Run(x, a + b) == Run(Run(x, a), b)
    decreases |a|
  {
    if a == "" {
      assert a + b == b;
    } else {
      assert (a + b)[1..] == a[1..] + b;
      RunConcat(Step(x, a[0]), a[1..], b);
    }
  }

  lemma {:induction false} PlainRun(done: seq<string>, before: string, s: string)
    requires '"' !in s && ',' !in s
    ensures Run(Reading(UnquotedField, done + [before]), s) == Reading(UnquotedField, done + [before + s])
    decreases |s|
  {
    if s == "" {
      assert before + s == before;
    } else {
      PlainRun(done, before + [s[0]], s[1..]);
      assert before + [s[0]] + s[1..] == before + s;
      assert Pushed(done + [before], s[0]) == done + [before + [s[0]]];
    }
  }

  lemma {:induction false} QuotedRun(done: seq<string>, before: string, s: string)
    ensures Run(Reading(QuotedField, done + [before]), Doubled(s)) == Reading(QuotedField, done + [before + s])
    decreases |s|
  {
    hide Run;
    var x := Reading(QuotedField, done + [before]);
    if s == "" {
      assert before + s == before;
      RunEnd(x, "");
    } else {
      var first := if s[0] == '"' then "\"\"" else [s[0]];
      assert Pushed(done + [before], s[0]) == done + [before + [s[0]]];
      RunConcat(x, first, Doubled(s[1..]));
      FirstRun(x, s[0]);
      QuotedRun(done, before + [s[0]], s[1..]);
      assert before + [s[0]] + s[1..] == before + s;
    }
  }

  lemma FirstRun(x: Reading, c: char)
    requires x.state == QuotedField && x.fields != []
    ensures Run(x, if c == '"' then "\"\"" else [c]) == Reading(QuotedField, Pushed(x.fields, c))
  {
    if c == '"' {
      assert "\"\""[1..] == "\"" && "\""[1..] == "";
    } else {
      assert [c][1..] == "";
    }
  }

  /** After a cell the automaton stands before a comma or the end of the row. */
  lemma CellRun(done: seq<string>, c: Cell)
    requires Writable(c)
    ensures Run(Reading(UnquotedField, done + [""]), CellText(c))
            == Reading(if c.quoted then QuotedQuote else UnquotedField, done + [c.text])
  {
    hide Run;
    assert "" + c.text == c.text;
    if c.quoted {
      var x := Reading(UnquotedField, done + [""]);
      RunConcat(x, "\"" + Doubled(c.text), "\"");
      RunConcat(x, "\"", Doubled(c.text));
      OneRun(x, '"');
      QuotedRun(done, "", c.text);
      OneRun(Reading(QuotedField, done + [c.text]), '"');
    } else {
      PlainRun(done, "", c.text);
    }
  }

  lemma OneRun(x: Reading, c: char)
    requires x.fields != []
    ensures Run(x, [c]) == Step(x, c)
  {
    assert [c][1..] == "";
  }

  lemma TextsStep(done: seq<string>, cells: seq<Cell>)
    requires cells != []
    ensures done + Texts(cells) == done + [cells[0].text] + Texts(cells[1..])
    ensures |cells| == 1 ==> done + Texts(cells) == done + [cells[0].text]
  {
    assert |cells| == 1 ==> Texts(cells[1..]) == [];
  }

  lemma {:induction false} RowRun(done: seq<string>, cells: seq<Cell>)
    requires cells != [] && forall i :: 0 <= i < |cells| ==> Writable(cells[i])
    ensures Run(Reading(UnquotedField, done + [""]), RowText(cells))
            == Reading(if cells[|cells| - 1].quoted then QuotedQuote else UnquotedField, done + Texts(cells))
    decreases |cells|
  {
    hide Run, CellText;
    var x, first, rest := Reading(UnquotedField, done + [""]), cells[0], cells[1..];
    CellRun(done, first);
    TextsStep(done, cells);
    hide Texts;
    if |cells| > 1 {
      RunConcat(x, CellText(first) + ",", RowText(rest));
      RunConcat(x, CellText(first), ",");
      OneRun(Run(x, CellText(first)), ',');
      RowRun(done + [first.text], rest);
    }
  }

  // ---- Any row ----

  function Quotes(s: string): nat {
    if s == "" then 0 else Quotes(s[..|s| - 1]) + if s[|s| - 1] == '"' then 1 else 0
  }

  /** After an odd number of quotes the reader is inside of a quoted part. */
  predicate Inside(s: string) {
    Quotes(s) % 2 == 1
  }

  /** The reader is just behind a quoted part. */
  predicate Behind(s: string) {
    !Inside(s) && s != "" && s[|s| - 1] == '"'
  }

  /**
   * What a character of any row, well formed or not, does to the fields: a comma outside of a quoted part begins a
   * field; a quote counts as a character just behind a quoted part only, which goes on with it; any other character
   * counts but for the one just behind a quoted part.
   */
  lemma {:induction false} CharacterMeans(s: string, c: char)
    ensures var before, after := Run(START, s).fields, Run(START, s + [c]).fields;
            after == if c == ',' && !Inside(s) then before + [""]
                     else if c == '"' then (if Behind(s) then Pushed(before, c) else before)
                     else if Behind(s) then before
                     else Pushed(before, c)
    decreases |s|
  {
    StateIs(s);
    RunConcat(START, s, [c]);
    OneRun(Run(START, s), c);
  }

  lemma {:induction false} StateIs(s: string)
    ensures Run(START, s).state == if Inside(s) then QuotedField else if Behind(s) then QuotedQuote else UnquotedField
    decreases |s|
  {
    hide Run;
    if s == "" {
      RunEnd(START, s);
    } else {
      var front, c := s[..|s| - 1], s[|s| - 1];
      assert s == front + [c];
      StateIs(front);
      RunConcat(START, front, [c]);
      OneRun(Run(START, front), c);
    }
  }

  // ---- Reading back a file ----

  function LineFeeds(s: string): nat {
    if s == "" then 0 else (if s[0] == '\n' then 1 else 0) + LineFeeds(s[1..])
  }

  lemma {:induction false} LineFeedsConcat(a: string, b: string)
    ensures LineFeeds(a + b) == LineFeeds(a) + LineFeeds(b)
  {
    if a == "" {
      assert a + b == b;
    } else {
      assert (a + b)[1..] == a[1..] + b;
      LineFeedsConcat(a[1..], b);
    }
  }

  lemma {:induction false} NoLineFeeds(s: string)
    ensures LineFeeds(s) == 0 <==> '\n' !in s
  {
    if s != "" {
      NoLineFeeds(s[1..]);
    }
  }

  /** There are as many rows as line feeds. */
  lemma {:induction false} RowCount(s: string, p: nat)
    requires p <= |s|
    ensures |Rows(s, p)| == LineFeeds(s[p..])
    decreases |s| - p
  {
    hide Run, Rows, LineEnd;
    var q := LineEnd(s, p);
    RowsStep(s, p);
    assert s[p..] == s[p..q] + s[q..];
    LineFeedsConcat(s[p..q], s[q..]);
    NoLineFeeds(s[p..q]);
    if q < |s| {
      RowCount(s, q + 1);
      assert s[q..][1..] == s[q + 1..];
    }
  }

  lemma {:induction false} LineEndAt(s: string, p: nat, q: nat)
    requires p <= q < |s| && s[q] == '\n' && forall i :: p <= i < q ==> s[i] != '\n'
    ensures LineEnd(s, p) == q
    decreases q - p
  {
    if p < q {
      LineEndAt(s, p + 1, q);
    }
  }

  lemma {:induction false} RowsShift(a: string, s: string, p: nat)
    requires p <= |s|
    ensures Rows(a + s, |a| + p) == Rows(s, p)
    decreases |s| - p
  {
    hide Run, Rows, LineEnd;
    LineEndShift(a, s, p);
    RowsStep(s, p);
    RowsStep(a + s, |a| + p);
    var q := LineEnd(s, p);
    assert (a + s)[|a| + p..|a| + q] == s[p..q];
    if q < |s| {
      RowsShift(a, s, q + 1);
    }
  }

  lemma RowsStep(s: string, p: nat)
    requires p <= |s|
    ensures var q := LineEnd(s, p);
            Rows(s, p) == if q == |s| then [] else [Run(START, s[p..q]).fields] + Rows(s, q + 1)
  {
  }

  lemma {:induction false} LineEndShift(a: string, s: string, p: nat)
    requires p <= |s|
    ensures LineEnd(a + s, |a| + p) == |a| + LineEnd(s, p)
    decreases |s| - p
  {
    if p < |s| && s[p] != '\n' {
      LineEndShift(a, s, p + 1);
    }
  }

  predicate AllWritable(rows: seq<seq<Cell>>) {
    forall i :: 0 <= i < |rows| ==> rows[i] != [] && forall j :: 0 <= j < |rows[i]| ==> Writable(rows[i][j])
  }

  /** No field contains a line feed. */
  predicate OneLineEach(rows: seq<seq<Cell>>) {
    forall i :: 0 <= i < |rows| ==> forall j :: 0 <= j < |rows[i]| ==> '\n' !in rows[i][j].text
  }

  lemma {:induction false} LineFeedsOfDoubled(s: string)
    ensures LineFeeds(Doubled(s)) == LineFeeds(s)
  {
    if s != "" {
      var first := if s[0] == '"' then "\"\"" else [s[0]];
      LineFeedsConcat(first, Doubled(s[1..]));
      LineFeedsOfFirst(s[0]);
      LineFeedsOfDoubled(s[1..]);
    }
  }

  lemma LineFeedsOfFirst(c: char)
    ensures LineFeeds(if c == '"' then "\"\"" else [c]) == if c == '\n' then 1 else 0
  {
    assert [c][1..] == "" && "\"\""[1..] == "\"" && "\""[1..] == "";
  }

  lemma LineFeedsOfCell(c: Cell)
    ensures LineFeeds(CellText(c)) == LineFeeds(c.text)
  {
    if c.quoted {
      assert LineFeeds("\"") == 0;
      LineFeedsOfDoubled(c.text);
      LineFeedsConcat("\"", Doubled(c.text));
      LineFeedsConcat("\"" + Doubled(c.text), "\"");
    }
  }

  lemma {:induction false} LineFeedsOfRow(cells: seq<Cell>)
    requires cells != []
    ensures LineFeeds(RowText(cells)) == 0 <==> forall j :: 0 <= j < |cells| ==> '\n' !in cells[j].text
    decreases |cells|
  {
    hide CellText, LineFeeds;
    LineFeedsOfCell(cells[0]);
    NoLineFeeds(cells[0].text);
    if |cells| > 1 {
      var rest := cells[1..];
      LineFeedsOfRow(rest);
      LineFeedsConcat(CellText(cells[0]) + ",", RowText(rest));
      LineFeedsConcat(CellText(cells[0]), ",");
      NoLineFeeds(",");
      assert forall j :: 0 < j < |cells| ==> cells[j] == rest[j - 1];
    }
  }

  lemma {:induction false} LineFeedsOfFile(rows: seq<seq<Cell>>, before: string)
    requires AllWritable(rows) && '\n' !in before
    ensures LineFeeds(FileText(rows, before)) >= |rows|
    ensures LineFeeds(FileText(rows, before)) == |rows| <==> OneLineEach(rows)
  {
    hide LineFeeds, RowText, Writable;
    if rows == [] {
      NoLineFeeds("");
    } else {
      var rest := rows[1..];
      LineFeedsOfFile(rest, before);
      LineFeedsOfRow(rows[0]);
      NoLineFeeds(before);
      LineFeedsConcat(RowText(rows[0]) + before + "\n", FileText(rest, before));
      LineFeedsConcat(RowText(rows[0]) + before, "\n");
      LineFeedsConcat(RowText(rows[0]), before);
      OneLineFeed();
      assert forall i :: 0 < i < |rows| ==> rows[i] == rest[i - 1];
      assert OneLineEach(rows) <==> LineFeeds(RowText(rows[0])) == 0 && OneLineEach(rest);
    }
  }

  lemma OneLineFeed()
    ensures LineFeeds("\n") == 1
  {
    assert "\n"[1..] == "";
  }

  lemma {:induction false} TextCount(rows: seq<seq<Cell>>)
    ensures |AllTexts(rows)| == |rows|
  {
    if rows != [] {
      TextCount(rows[1..]);
    }
  }

  /** The fields that are read for each row, when no field contains a line feed. */
  function LinesRead(rows: seq<seq<Cell>>, before: string): seq<seq<string>>
    requires forall i :: 0 <= i < |rows| ==> rows[i] != []
  {
    if rows == [] then [] else [Run(START, RowText(rows[0]) + before).fields] + LinesRead(rows[1..], before)
  }

  /** The reader cuts lines before it looks at quotes. */
  lemma RowsOfFile(rows: seq<seq<Cell>>, before: string)
    requires AllWritable(rows) && '\n' !in before
    ensures |Rows(FileText(rows, before), 0)| == |rows| <==> OneLineEach(rows)
    ensures OneLineEach(rows) ==> Rows(FileText(rows, before), 0) == LinesRead(rows, before)
  {
    hide Rows, FileText, Writable, OneLineEach, LineFeeds, LinesRead;
    LineFeedsOfFile(rows, before);
    RowCount(FileText(rows, before), 0);
    assert FileText(rows, before)[0..] == FileText(rows, before);
    if OneLineEach(rows) {
      OneLineRowsRead(rows, before);
    }
  }

  /**
   * Rows that are written with any choice of quotes, each ended by a line feed, are read back as they were, exactly
   * when no field contains a line feed.
   */
  lemma FileReadsBack(rows: seq<seq<Cell>>)
    requires AllWritable(rows)
    ensures Rows(FileText(rows, ""), 0) == AllTexts(rows) <==> OneLineEach(rows)
  {
    hide Rows, FileText, AllTexts, LinesRead, Writable, OneLineEach;
    RowsOfFile(rows, "");
    TextCount(rows);
    PlainLines(rows);
  }

  /** The last cell of every row is written in quotes. */
  predicate LastQuoted(rows: seq<seq<Cell>>)
    requires forall i :: 0 <= i < |rows| ==> rows[i] != []
  {
    forall i :: 0 <= i < |rows| ==> rows[i][|rows[i]| - 1].quoted
  }

  /**
   * With the line ends of RFC 4180, carriage return and line feed, they are read back exactly when, besides, the last
   * field of every row is in quotes: it keeps the carriage return when it is not.
   */
  lemma CrLfReadsBack(rows: seq<seq<Cell>>)
    requires AllWritable(rows)
    ensures Rows(FileText(rows, "\r"), 0) == AllTexts(rows) <==> OneLineEach(rows) && LastQuoted(rows)
  {
    hide Rows, FileText, AllTexts, LinesRead, Writable, OneLineEach, LastQuoted;
    RowsOfFile(rows, "\r");
    TextCount(rows);
    CrLines(rows);
  }

  lemma {:induction false} PlainLines(rows: seq<seq<Cell>>)
    requires AllWritable(rows)
    ensures LinesRead(rows, "") == AllTexts(rows)
  {
    hide Run, RowText, Texts;
    if rows != [] {
      assert RowText(rows[0]) + "" == RowText(rows[0]);
      RowRun([], rows[0]);
      assert [] + [""] == [""] && [] + Texts(rows[0]) == Texts(rows[0]);
      PlainLines(rows[1..]);
    }
  }

  lemma {:induction false} CrLines(rows: seq<seq<Cell>>)
    requires AllWritable(rows)
    ensures LinesRead(rows, "\r") == AllTexts(rows) <==> LastQuoted(rows)
  {
    hide Run, RowText, Texts, Writable;
    if rows != [] {
      var rest := rows[1..];
      CrLine(rows[0]);
      CrLines(rest);
      assert LastQuoted(rows) <==> rows[0][|rows[0]| - 1].quoted && LastQuoted(rest) by {
        assert forall i :: 0 < i < |rows| ==> rows[i] == rest[i - 1];
      }
      SameHead(Run(START, RowText(rows[0]) + "\r").fields, LinesRead(rest, "\r"), Texts(rows[0]), AllTexts(rest));
    }
  }

  lemma SameHead(a: seq<string>, b: seq<seq<string>>, c: seq<string>, d: seq<seq<string>>)
    ensures [a] + b == [c] + d <==> a == c && b == d
  {
    if [a] + b == [c] + d {
      assert a == ([a] + b)[0] == ([c] + d)[0] == c;
      assert b == ([a] + b)[1..] == ([c] + d)[1..] == d;
    }
  }

  /** A carriage return ends a quoted field, and is part of any other. */
  lemma CrLine(cells: seq<Cell>)
    requires cells != [] && forall i :: 0 <= i < |cells| ==> Writable(cells[i])
    ensures Run(START, RowText(cells) + "\r").fields == Texts(cells) <==> cells[|cells| - 1].quoted
  {
    hide Run, RowText, Texts;
    RowRun([], cells);
    assert [] + [""] == [""] && [] + Texts(cells) == Texts(cells);
    RunConcat(START, RowText(cells), "\r");
    var x := Run(START, RowText(cells));
    OneRun(x, '\r');
    assert Pushed(x.fields, '\r')[|x.fields| - 1] != x.fields[|x.fields| - 1];
  }

  lemma FirstLine(line: string, rest: string)
    requires '\n' !in line
    ensures Rows(line + "\n" + rest, 0) == [Run(START, line).fields] + Rows(rest, 0)
  {
    hide Run;
    var s := line + "\n" + rest;
    LineEndAt(s, 0, |line|);
    assert s[0..|line|] == line;
    RowsShift(line + "\n", rest, 0);
  }

  lemma {:induction false} OneLineRowsRead(rows: seq<seq<Cell>>, before: string)
    requires AllWritable(rows) && OneLineEach(rows) && '\n' !in before
    ensures Rows(FileText(rows, before), 0) == LinesRead(rows, before)
  {
    hide Run, RowText, Texts;
    if rows != [] {
      hide Rows;
      LineFeedsOfRow(rows[0]);
      NoLineFeeds(RowText(rows[0]));
      FirstLine(RowText(rows[0]) + before, FileText(rows[1..], before));
      OneLineRowsRead(rows[1..], before);
    }
  }

  /** A last row without a line feed is lost. */
  lemma {:induction false} UnfinishedRowIsLost(s: string, p: nat, tail: string)
    requires p <= |s| && '\n' !in tail
    requires p < |s| ==> s[|s| - 1] == '\n'
    ensures Rows(s + tail, p) == Rows(s, p)
    decreases |s| - p
  {
    hide Run;
    var q := LineEnd(s + tail, p);
    if p < |s| {
      assert (s + tail)[|s| - 1] == '\n';
      assert q < |s|;
      forall i | p <= i < q
        ensures s[i] != '\n'
      {
        assert (s + tail)[i] == s[i];
      }
      LineEndAt(s, p, q);
      assert (s + tail)[p..q] == s[p..q];
      UnfinishedRowIsLost(s, q + 1, tail);
    } else {
      assert forall i :: |s| <= i < |s + tail| ==> (s + tail)[i] == tail[i - |s|];
    }
  }
}
