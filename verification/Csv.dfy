/** CSV text (RFC 4180 section 2): writing rows with quoting where a cell needs it, the parser's state
    machine, and exactly what survives a round trip. */
module Csv {
  import Json

  type byte = Json.byte
  type Bytes = seq<byte>
  type Row = seq<Bytes>

  const COMMA: byte := 44
  const QUOTE: byte := 34
  const NL: byte := 10
  const CR: byte := 13

  // ---------------------------------------------------------------- writing

  datatype Value = Nil | Bool(b: bool) | Int(n: int) | Str(s: Bytes) | Other

  /** The text of a value. */
  function Text(v: Value): Bytes {
    match v
    case Nil => []
    case Bool(b) => if b then [116, 114, 117, 101] else [102, 97, 108, 115, 101]
    case Int(n) => Json.IntText(n)
    case Str(s) => s
    case Other => []
  }

  predicate Special(c: byte, sep: byte) {
    c == sep || c == NL || c == CR || c == QUOTE
  }

  predicate NeedsQuote(t: Bytes, sep: byte) {
    exists i :: 0 <= i < |t| && Special(t[i], sep)
  }

  function DoubledByte(c: byte): (r: Bytes)
    ensures r != []
  {
    if c == QUOTE then [QUOTE, QUOTE] else [c]
  }

  function Doubled(t: Bytes): Bytes {
    if t == [] then [] else DoubledByte(t[0]) + Doubled(t[1..])
  }

  function Quoted(t: Bytes, sep: byte): Bytes {
    if NeedsQuote(t, sep) then [QUOTE] + Doubled(t) + [QUOTE] else t
  }

  /** A value as written on its own: only strings are looked at for quoting. */
  function ValueCell(v: Value): Bytes {
    if v.Str? then Quoted(v.s, COMMA) else Text(v)
  }

  /** A cell: with another separator the written cell is quoted again. */
  function Cell(v: Value, sep: byte): Bytes {
    if sep == COMMA then ValueCell(v) else Quoted(ValueCell(v), sep)
  }

  /** Cells with separators between them. */
  function Cells(vs: seq<Value>, sep: byte): Bytes {
    if vs == [] then [] else Cell(vs[0], sep) + if |vs| == 1 then [] else [sep] + Cells(vs[1..], sep)
  }

  function Rows(rows: seq<seq<Value>>, sep: byte): Bytes {
    if rows == [] then [] else Cells(rows[0], sep) + [NL] + Rows(rows[1..], sep)
  }

  // ---------------------------------------------------------------- reading

  /** The parser between two characters. */
  datatype State = State(rows: seq<Row>, row: Row, field: Bytes, inQuote: bool)

  function PushField(st: State): State {
    st.(row := st.row + [st.field], field := [])
  }

  /** A row without any field or text is skipped. */
  function PushRow(st: State): State {
    if st.row == [] && st.field == [] then st
    else st.(rows := st.rows + [st.row + [st.field]], row := [], field := [])
  }

  function Run(s: Bytes, i: nat, sep: byte, st: State): State
    requires i <= |s|
    decreases |s| - i
  {
    if i == |s| then st
    else if st.inQuote then
      if s[i] == QUOTE then
        if i + 1 < |s| && s[i + 1] == QUOTE then Run(s, i + 2, sep, st.(field := st.field + [QUOTE]))
        else Run(s, i + 1, sep, st.(inQuote := false))
      else Run(s, i + 1, sep, st.(field := st.field + [s[i]]))
    else if s[i] == QUOTE then Run(s, i + 1, sep, st.(inQuote := true))
    else if s[i] == sep then Run(s, i + 1, sep, PushField(st))
    else if s[i] == NL then Run(s, i + 1, sep, PushRow(st))
    else if s[i] == CR then Run(s, i + 1, sep, st)
    else Run(s, i + 1, sep, st.(field := st.field + [s[i]]))
  }

  function Parse(s: Bytes, sep: byte): seq<Row> {
    var st := Run(s, 0, sep, State([], [], [], false));
    if st.row != [] || st.field != [] then PushRow(st).rows else st.rows
  }

  // ---------------------------------------------------------------- what comes back

  /** What a value reads back as. */
  function Back(v: Value, sep: byte): Bytes {
    if sep == COMMA then Text(v) else ValueCell(v)
  }

  function BackRow(vs: seq<Value>, sep: byte): Row {
    if vs == [] then [] else [Back(vs[0], sep)] + BackRow(vs[1..], sep)
  }

  /** A row that is written as an empty line. */
  predicate Blank(row: Row) {
    row == [] || row == [[]]
  }

  function BackRows(rows: seq<seq<Value>>, sep: byte): seq<Row> {
    if rows == [] then []
    else (if Blank(BackRow(rows[0], sep)) then [] else [BackRow(rows[0], sep)]) + BackRows(rows[1..], sep)
  }

  predicate GoodSeparator(sep: byte) {
    sep != QUOTE && sep != NL && sep != CR
  }

  predicate At(s: Bytes, i: nat, t: Bytes) {
    i + |t| <= |s| && s[i..i + |t|] == t
  }

  lemma AtParts(s: Bytes, i: nat, a: Bytes, b: Bytes)
    requires At(s, i, a + b)
    ensures At(s, i, a) && At(s, i + |a|, b)
  {
    assert s[i..i + |a + b|][..|a|] == a;
    assert s[i..i + |a + b|][|a|..] == b;
  }

  lemma AtFirst(s: Bytes, i: nat, t: Bytes)
    requires At(s, i, t) && t != []
    ensures i < |s| && s[i] == t[0]
  {
    assert s[i..i + |t|][0] == s[i];
  }

  lemma PlainTail(t: Bytes, sep: byte)
    requires !NeedsQuote(t, sep) && t != []
    ensures !Special(t[0], sep) && !NeedsQuote(t[1..], sep)
  {
    forall i | 0 <= i < |t[1..]| ensures !Special(t[1..][i], sep) {
      assert t[1..][i] == t[i + 1];
    }
  }

  /** Text without special characters is read as it stands. */
  lemma {:induction false} PlainBack(s: Bytes, i: nat, t: Bytes, sep: byte, st: State)
    requires At(s, i, t) && !NeedsQuote(t, sep) && !st.inQuote
    ensures Run(s, i, sep, st) == Run(s, i + |t|, sep, st.(field := st.field + t))
    decreases |t|
  {
    if t == [] {
      assert st.field + t == st.field;
    } else {
      PlainTail(t, sep);
      AtFirst(s, i, t);
      assert t == [t[0]] + t[1..];
      AtParts(s, i, [t[0]], t[1..]);
      PlainBack(s, i + 1, t[1..], sep, st.(field := st.field + [t[0]]));
      assert st.field + [t[0]] + t[1..] == st.field + t;
    }
  }

  /** Doubled text inside quotes is read as the text, up to the closing quote. */
  lemma {:induction false} DoubledBack(s: Bytes, i: nat, t: Bytes, sep: byte, st: State)
    requires At(s, i, Doubled(t) + [QUOTE]) && st.inQuote
    requires i + |Doubled(t)| + 1 < |s| ==> s[i + |Doubled(t)| + 1] != QUOTE
    ensures Run(s, i, sep, st) == Run(s, i + |Doubled(t)| + 1, sep, st.(field := st.field + t, inQuote := false))
    decreases |t|
  {
    hide Run, At, DoubledByte;
    if t == [] {
      assert Doubled(t) + [QUOTE] == [QUOTE];
      AtFirst(s, i, [QUOTE]);
      RunInQuote(s, i, sep, st);
      assert st.field + t == st.field;
    } else {
      var rest := Doubled(t[1..]) + [QUOTE];
      var d := DoubledByte(t[0]);
      assert Doubled(t) + [QUOTE] == d + rest;
      AtParts(s, i, d, rest);
      ByteBack(s, i, t[0], sep, st);
      DoubledBack(s, i + |d|, t[1..], sep, st.(field := st.field + [t[0]]));
      assert st.field + [t[0]] + t[1..] == st.field + t;
    }
  }

  lemma ByteBack(s: Bytes, i: nat, c: byte, sep: byte, st: State)
    requires At(s, i, DoubledByte(c)) && st.inQuote
    ensures Run(s, i, sep, st) == Run(s, i + |DoubledByte(c)|, sep, st.(field := st.field + [c]))
  {
    hide Run;
    AtFirst(s, i, DoubledByte(c));
    if c == QUOTE { assert s[i + 1] == s[i..i + 2][1]; }
    RunInQuote(s, i, sep, st);
  }

  lemma RunInQuote(s: Bytes, i: nat, sep: byte, st: State)
    requires i < |s| && st.inQuote
    ensures s[i] != QUOTE ==> Run(s, i, sep, st) == Run(s, i + 1, sep, st.(field := st.field + [s[i]]))
    ensures s[i] == QUOTE && i + 1 < |s| && s[i + 1] == QUOTE ==>
              Run(s, i, sep, st) == Run(s, i + 2, sep, st.(field := st.field + [QUOTE]))
    ensures s[i] == QUOTE && (i + 1 < |s| ==> s[i + 1] != QUOTE) ==>
              Run(s, i, sep, st) == Run(s, i + 1, sep, st.(inQuote := false))
  {
  }

  /** A quoted-if-needed text followed by anything but a quote reads back. */
  lemma QuotedBack(s: Bytes, i: nat, t: Bytes, sep: byte, st: State)
    requires At(s, i, Quoted(t, sep)) && !st.inQuote && st.field == []
    requires i + |Quoted(t, sep)| < |s| ==> s[i + |Quoted(t, sep)|] != QUOTE
    ensures Run(s, i, sep, st) == Run(s, i + |Quoted(t, sep)|, sep, st.(field := t))
  {
    assert st.field + t == t;
    if NeedsQuote(t, sep) {
      var inner := Doubled(t) + [QUOTE];
      assert Quoted(t, sep) == [QUOTE] + inner;
      AtParts(s, i, [QUOTE], inner);
      AtFirst(s, i, [QUOTE]);
      DoubledBack(s, i + 1, t, sep, st.(inQuote := true));
      assert st.(inQuote := true).(field := t, inQuote := false) == st.(field := t);
    } else {
      PlainBack(s, i, t, sep, st);
    }
  }

  lemma {:induction false} DigitsPlain(n: nat)
    ensures forall c :: c in Json.Digits(n) ==> 48 <= c <= 57
  {
    if n >= 10 { DigitsPlain(n / 10); }
  }

  /** Values other than strings are written without special characters. */
  lemma PlainValue(v: Value)
    requires !v.Str?
    ensures !NeedsQuote(Text(v), COMMA)
  {
    if v.Int? {
      var m: nat := if v.n < 0 then -v.n else v.n;
      DigitsPlain(m);
      forall i | 0 <= i < |Text(v)| ensures !Special(Text(v)[i], COMMA) {
        if v.n >= 0 || i > 0 { assert Text(v)[i] in Json.Digits(m); }
      }
    }
  }

  lemma CellIsQuoted(v: Value, sep: byte)
    ensures Cell(v, sep) == Quoted(Back(v, sep), sep)
  {
    if sep == COMMA && !v.Str? { PlainValue(v); }
  }

  /** The cells of a row, read onto a row that already has some, up to the last one. */
  lemma {:induction false} CellsBack(s: Bytes, i: nat, vs: seq<Value>, sep: byte, st: State)
    requires vs != [] && GoodSeparator(sep) && At(s, i, Cells(vs, sep)) && !st.inQuote && st.field == []
    requires i + |Cells(vs, sep)| < |s| ==> s[i + |Cells(vs, sep)|] != QUOTE
    ensures Run(s, i, sep, st) == Run(s, i + |Cells(vs, sep)|, sep,
            st.(row := st.row + Front(vs, sep), field := Back(vs[|vs| - 1], sep)))
    decreases |vs|
  {
    hide Cell, Back, Quoted, Run, At, Cells;
    var c := Cell(vs[0], sep);
    CellIsQuoted(vs[0], sep);
    var b := Back(vs[0], sep);
    CellsText(vs, sep);
    if |vs| == 1 {
      QuotedBack(s, i, b, sep, st);
      assert st.row + Front(vs, sep) == st.row;
    } else {
      var rest := Cells(vs[1..], sep);
      AtParts(s, i, c, [sep] + rest);
      AtParts(s, i + |c|, [sep], rest);
      AtFirst(s, i + |c|, [sep]);
      QuotedBack(s, i, b, sep, st);
      RunSeparator(s, i + |c|, sep, st.(field := b));
      var next := PushField(st.(field := b));
      CellsBack(s, i + |c| + 1, vs[1..], sep, next);
      assert next.row + Front(vs[1..], sep) == st.row + Front(vs, sep);
    }
  }

  lemma CellsText(vs: seq<Value>, sep: byte)
    requires vs != []
    ensures |vs| == 1 ==> Cells(vs, sep) == Cell(vs[0], sep)
    ensures |vs| > 1 ==> Cells(vs, sep) == Cell(vs[0], sep) + ([sep] + Cells(vs[1..], sep))
  {
    hide Cell;
  }

  lemma RunEnd(s: Bytes, i: nat, sep: byte, st: State)
    requires i == |s|
    ensures Run(s, i, sep, st) == st
  {
  }

  lemma RunNewline(s: Bytes, i: nat, sep: byte, st: State)
    requires i < |s| && s[i] == NL && GoodSeparator(sep) && !st.inQuote
    ensures Run(s, i, sep, st) == Run(s, i + 1, sep, PushRow(st))
  {
  }

  lemma RunReturn(s: Bytes, i: nat, sep: byte, st: State)
    requires i < |s| && s[i] == CR && GoodSeparator(sep) && !st.inQuote
    ensures Run(s, i, sep, st) == Run(s, i + 1, sep, st)
  {
  }

  lemma RunSeparator(s: Bytes, i: nat, sep: byte, st: State)
    requires i < |s| && s[i] == sep && GoodSeparator(sep) && !st.inQuote
    ensures Run(s, i, sep, st) == Run(s, i + 1, sep, PushField(st))
  {
  }

  /** All but the last cell. */
  function Front(vs: seq<Value>, sep: byte): Row
    requires vs != []
  {
    if |vs| == 1 then [] else [Back(vs[0], sep)] + Front(vs[1..], sep)
  }

  lemma {:induction false} FrontAndLast(vs: seq<Value>, sep: byte)
    requires vs != []
    ensures BackRow(vs, sep) == Front(vs, sep) + [Back(vs[|vs| - 1], sep)]
  {
    hide Back;
    if |vs| == 1 {
      assert BackRow(vs[1..], sep) == [];
    } else {
      FrontAndLast(vs[1..], sep);
    }
  }

  /** What a row is read as: nothing if it is blank. */
  function Line(vs: seq<Value>, sep: byte): seq<Row> {
    if Blank(BackRow(vs, sep)) then [] else [BackRow(vs, sep)]
  }

  /** Lines end in a line feed, perhaps with a carriage return before it. */
  function Ending(cr: bool): Bytes { if cr then [CR, NL] else [NL] }

  lemma RowEnds(vs: seq<Value>, sep: byte, rows: seq<Row>)
    requires vs != []
    ensures PushRow(State(rows, Front(vs, sep), Back(vs[|vs| - 1], sep), false)) ==
            State(rows + Line(vs, sep), [], [], false)
    ensures Front(vs, sep) == [] && Back(vs[|vs| - 1], sep) == [] ==> Line(vs, sep) == []
  {
    hide Back;
    FrontAndLast(vs, sep);
    var front, last := Front(vs, sep), Back(vs[|vs| - 1], sep);
    assert rows + [] == rows;
    assert front + [last] == [[]] <==> front == [] && last == [] by {
      if front + [last] == [[]] { assert |front + [last]| == 1 && (front + [last])[|front|] == last; }
    }
  }

  lemma EndingRead(s: Bytes, i: nat, sep: byte, st: State, cr: bool)
    requires GoodSeparator(sep) && At(s, i, Ending(cr)) && !st.inQuote
    ensures i < |s| && s[i] != QUOTE && Run(s, i, sep, st) == Run(s, i + |Ending(cr)|, sep, PushRow(st))
  {
    hide Run;
    AtFirst(s, i, Ending(cr));
    if cr {
      assert s[i + 1] == s[i..i + 2][1];
      RunReturn(s, i, sep, st);
      RunNewline(s, i + 1, sep, st);
    } else {
      RunNewline(s, i, sep, st);
    }
  }

  /** One row and its line end are read as one row, or as nothing if it is blank. */
  lemma RowBack(s: Bytes, i: nat, vs: seq<Value>, sep: byte, rows: seq<Row>, cr: bool)
    requires GoodSeparator(sep) && At(s, i, Cells(vs, sep) + Ending(cr))
    ensures Run(s, i, sep, State(rows, [], [], false)) ==
            Run(s, i + |Cells(vs, sep)| + |Ending(cr)|, sep, State(rows + Line(vs, sep), [], [], false))
  {
    hide Run, At, Ending, Back, Cells, Front, Line, PushRow;
    var st := State(rows, [], [], false);
    var j := i + |Cells(vs, sep)|;
    AtParts(s, i, Cells(vs, sep), Ending(cr));
    if vs == [] {
      NoCells(sep);
      EndingRead(s, j, sep, st, cr);
      BlankLine(rows, sep);
    } else {
      var front := Front(vs, sep);
      var full := State(rows, front, Back(vs[|vs| - 1], sep), false);
      EndingRead(s, j, sep, full, cr);
      CellsBack(s, i, vs, sep, st);
      RowEnds(vs, sep, rows);
      assert [] + front == front;
      assert st.(row := [] + front, field := Back(vs[|vs| - 1], sep)) == full;
    }
  }

  lemma BlankLine(rows: seq<Row>, sep: byte)
    ensures PushRow(State(rows, [], [], false)) == State(rows + Line([], sep), [], [], false)
  {
    assert rows + [] == rows;
  }

  /** Rows with the line ends that are asked for. */
  function Lines(rows: seq<seq<Value>>, sep: byte, crs: seq<bool>): Bytes
    requires |crs| == |rows|
  {
    if rows == [] then [] else Cells(rows[0], sep) + Ending(crs[0]) + Lines(rows[1..], sep, crs[1..])
  }

  lemma {:induction false} RowsBack(s: Bytes, i: nat, rows: seq<seq<Value>>, sep: byte, crs: seq<bool>, done: seq<Row>)
    requires |crs| == |rows| && GoodSeparator(sep) && At(s, i, Lines(rows, sep, crs))
    ensures Run(s, i, sep, State(done, [], [], false)) ==
            Run(s, i + |Lines(rows, sep, crs)|, sep, State(done + BackRows(rows, sep), [], [], false))
    decreases |rows|
  {
    hide Blank, BackRow, Cells, Run, At, Ending;
    if rows == [] {
      assert done + [] == done;
    } else {
      var line := Cells(rows[0], sep) + Ending(crs[0]);
      AtParts(s, i, line, Lines(rows[1..], sep, crs[1..]));
      RowBack(s, i, rows[0], sep, done, crs[0]);
      RowsBack(s, i + |line|, rows[1..], sep, crs[1..], done + Line(rows[0], sep));
      assert done + Line(rows[0], sep) + BackRows(rows[1..], sep) ==
             done + (Line(rows[0], sep) + BackRows(rows[1..], sep));
    }
  }

  lemma {:induction false} BackRowsSnoc(rows: seq<seq<Value>>, last: seq<Value>, sep: byte)
    ensures BackRows(rows + [last], sep) == BackRows(rows, sep) + Line(last, sep)
    decreases |rows|
  {
    hide Blank, BackRow;
    if rows == [] {
      assert BackRows([last][1..], sep) == [];
    } else {
      assert (rows + [last])[1..] == rows[1..] + [last];
      BackRowsSnoc(rows[1..], last, sep);
    }
  }

  /** The line ends of a file do not matter, and the last line needs none. */
  lemma LineEnds(rows: seq<seq<Value>>, last: seq<Value>, sep: byte, crs: seq<bool>)
    requires |crs| == |rows| && GoodSeparator(sep)
    ensures Parse(Lines(rows, sep, crs) + Cells(last, sep), sep) == BackRows(rows + [last], sep)
  {
    hide Run, Cells, Lines, BackRows, Line, Parse;
    var lines, cells := Lines(rows, sep, crs), Cells(last, sep);
    var s := lines + cells;
    assert s[0..|lines|] == lines && s[|lines|..] == cells;
    RowsBack(s, 0, rows, sep, crs, []);
    BackRowsSnoc(rows, last, sep);
    var done := BackRows(rows, sep);
    assert [] + done == done;
    LastLine(s, |lines|, last, sep, done);
  }

  /** What is left of a text when the last line starts. */
  lemma LastLine(s: Bytes, n: nat, last: seq<Value>, sep: byte, done: seq<Row>)
    requires GoodSeparator(sep) && n <= |s| && s[n..] == Cells(last, sep)
    requires Run(s, 0, sep, State([], [], [], false)) == Run(s, n, sep, State(done, [], [], false))
    ensures Parse(s, sep) == done + Line(last, sep)
  {
    hide Run, Cells, Line, Back, Front;
    assert s[n..n + |Cells(last, sep)|] == s[n..];
    if last == [] {
      NoCells(sep);
      RunEnd(s, n, sep, State(done, [], [], false));
      assert done + [] == done;
    } else {
      CellsBack(s, n, last, sep, State(done, [], [], false));
      RunEnd(s, |s|, sep, State(done, Front(last, sep), Back(last[|last| - 1], sep), false));
      assert [] + Front(last, sep) == Front(last, sep);
      RowEnds(last, sep, done);
      assert done + [] == done;
    }
  }

  lemma NoCells(sep: byte)
    ensures Cells([], sep) == [] && Line([], sep) == [] && Rows([], sep) == []
  {
  }

  lemma {:induction false} RowsAreLines(rows: seq<seq<Value>>, sep: byte)
    ensures Rows(rows, sep) == Lines(rows, sep, seq(|rows|, _ => false))
  {
    hide Cells;
    if rows != [] {
      RowsAreLines(rows[1..], sep);
      assert seq(|rows|, _ => false)[1..] == seq(|rows| - 1, _ => false);
    }
  }

  /** What parsing gives for what stringify wrote, for every table and separator. */
  lemma WhatComesBack(rows: seq<seq<Value>>, sep: byte)
    requires GoodSeparator(sep)
    ensures Parse(Rows(rows, sep), sep) == BackRows(rows, sep)
  {
    hide Parse, Cells, Lines, Line, BackRows;
    RowsAreLines(rows, sep);
    LineEnds(rows, [], sep, seq(|rows|, _ => false));
    NoCells(sep);
    BackRowsSnoc(rows, [], sep);
    assert Rows(rows, sep) + [] == Rows(rows, sep) && BackRows(rows, sep) + [] == BackRows(rows, sep);
  }

  /** The texts of values that are no strings: decimal digits, a sign before them when negative. */
  lemma CellTexts(v: Value)
    ensures v == Bool(true) ==> Text(v) == [0x74, 0x72, 0x75, 0x65]
    ensures v == Bool(false) ==> Text(v) == [0x66, 0x61, 0x6C, 0x73, 0x65]
    ensures v.Nil? || v.Other? ==> Text(v) == []
    ensures v.Int? && Json.INT64_MIN <= v.n <= Json.INT64_MAX ==> Json.IntOf(Text(v)) == v.n
  {
    if v.Int? && Json.INT64_MIN <= v.n <= Json.INT64_MAX { Json.IntTextValue(v.n); }
  }

  function Strings(row: Row): seq<Value> {
    if row == [] then [] else [Str(row[0])] + Strings(row[1..])
  }

  function Table(rows: seq<Row>): seq<seq<Value>> {
    if rows == [] then [] else [Strings(rows[0])] + Table(rows[1..])
  }

  /** The cells of a row come back as they were: always with the default separator, and with another if
      none of them has a comma, quote or line break. */
  predicate Kept(row: Row, sep: byte) {
    sep == COMMA || forall j :: 0 <= j < |row| ==> !NeedsQuote(row[j], COMMA)
  }

  predicate AllKept(rows: seq<Row>, sep: byte) {
    forall i :: 0 <= i < |rows| ==> !Blank(rows[i]) && Kept(rows[i], sep)
  }

  lemma CellBack(cell: Bytes, sep: byte)
    ensures Back(Str(cell), sep) == cell <==> sep == COMMA || !NeedsQuote(cell, COMMA)
    ensures Back(Str(cell), sep) == [] <==> cell == []
  {
    if NeedsQuote(cell, COMMA) { DoubledLonger(cell); }
  }

  lemma KeptCons(row: Row, sep: byte)
    requires row != []
    ensures Kept(row, sep) <==> (sep == COMMA || !NeedsQuote(row[0], COMMA)) && Kept(row[1..], sep)
  {
    hide NeedsQuote;
    if sep != COMMA && !NeedsQuote(row[0], COMMA) && Kept(row[1..], sep) {
      forall j | 0 <= j < |row| ensures !NeedsQuote(row[j], COMMA) {
        if j > 0 { assert row[j] == row[1..][j - 1]; }
      }
    }
  }

  lemma {:induction false} StringsBack(row: Row, sep: byte)
    ensures BackRow(Strings(row), sep) == row <==> Kept(row, sep)
    ensures |BackRow(Strings(row), sep)| == |row| && Blank(BackRow(Strings(row), sep)) == Blank(row)
  {
    hide Back, Kept, NeedsQuote;
    if row == [] {
      assert Kept(row, sep) by { EmptyKept(sep); }
    } else {
      var back, rest := BackRow(Strings(row), sep), BackRow(Strings(row[1..]), sep);
      CellBack(row[0], sep);
      StringsBack(row[1..], sep);
      KeptCons(row, sep);
      assert back == [Back(Str(row[0]), sep)] + rest;
      assert back[1..] == rest && back[0] == Back(Str(row[0]), sep);
      assert row == [row[0]] + row[1..];
    }
  }

  lemma EmptyKept(sep: byte)
    ensures Kept([], sep)
  {
  }

  lemma {:induction false} TableLength(rows: seq<Row>, sep: byte)
    ensures |BackRows(Table(rows), sep)| <= |rows|
  {
    if rows != [] { TableLength(rows[1..], sep); }
  }

  lemma AllKeptCons(rows: seq<Row>, sep: byte)
    requires rows != []
    ensures AllKept(rows, sep) <==> !Blank(rows[0]) && Kept(rows[0], sep) && AllKept(rows[1..], sep)
  {
    hide Blank, Kept;
    if !Blank(rows[0]) && Kept(rows[0], sep) && AllKept(rows[1..], sep) {
      forall i | 0 <= i < |rows| ensures !Blank(rows[i]) && Kept(rows[i], sep) {
        if i > 0 { assert rows[i] == rows[1..][i - 1]; }
      }
    }
  }

  lemma {:induction false} TableBack(rows: seq<Row>, sep: byte)
    ensures BackRows(Table(rows), sep) == rows <==> AllKept(rows, sep)
  {
    hide Blank, Kept, BackRow;
    if rows != [] {
      StringsBack(rows[0], sep);
      TableBack(rows[1..], sep);
      TableLength(rows[1..], sep);
      AllKeptCons(rows, sep);
      var head, rest := BackRow(Strings(rows[0]), sep), BackRows(Table(rows[1..]), sep);
      var back := BackRows(Table(rows), sep);
      if Blank(rows[0]) {
        assert back == [] + rest;
      } else {
        assert back == [head] + rest;
        assert back[0] == head && back[1..] == rest;
        assert rows == [rows[0]] + rows[1..];
      }
    }
  }

  /** With the default separator a table of strings survives exactly when no row is empty or a single
      empty cell. */
  lemma RoundTrip(rows: seq<Row>)
    ensures Parse(Rows(Table(rows), COMMA), COMMA) == rows <==> forall i :: 0 <= i < |rows| ==> !Blank(rows[i])
  {
    WhatComesBack(Table(rows), COMMA);
    TableBack(rows, COMMA);
  }

  /** With another separator it survives exactly when, besides, no cell has a comma, quote or line break:
      such a cell comes back with its quotes. */
  lemma OtherSeparator(rows: seq<Row>, sep: byte)
    requires GoodSeparator(sep) && sep != COMMA
    ensures Parse(Rows(Table(rows), sep), sep) == rows <==>
              forall i :: 0 <= i < |rows| ==>
                !Blank(rows[i]) && forall j :: 0 <= j < |rows[i]| ==> !NeedsQuote(rows[i][j], COMMA)
  {
    WhatComesBack(Table(rows), sep);
    TableBack(rows, sep);
  }

  /** The cell `a,b` written with semicolons comes back with its quotes. */
  lemma SeparatorFails()
    ensures Parse(Rows([[Str([97, COMMA, 98])]], 59), 59) == [[[QUOTE, 97, COMMA, 98, QUOTE]]]
  {
    var cell: Bytes := [97, COMMA, 98];
    WhatComesBack([[Str(cell)]], 59);
    assert Special(cell[1], COMMA);
    var c2: Bytes, c1: Bytes, c0: Bytes := [COMMA, 98], [98], [];
    assert cell[1..] == c2 && c2[1..] == c1 && c1[1..] == c0;
    assert Doubled(c0) == [] && Doubled(c1) == [98] && Doubled(c2) == [COMMA, 98] && Doubled(cell) == cell;
    assert Quoted(cell, COMMA) == [QUOTE] + cell + [QUOTE] == [QUOTE, 97, COMMA, 98, QUOTE];
    var row: seq<Value>, rows: seq<seq<Value>> := [Str(cell)], [[Str(cell)]];
    assert row[1..] == [] && BackRow(row[1..], 59) == [] && BackRow(row, 59) == [Quoted(cell, COMMA)];
    assert rows[1..] == [] && BackRows(rows[1..], 59) == [] && BackRows(rows, 59) == [BackRow(row, 59)];
  }

  lemma {:induction false} DoubledLonger(t: Bytes)
    ensures |Doubled(t)| >= |t|
  {
    if t != [] { DoubledLonger(t[1..]); }
  }

  // ---------------------------------------------------------------- the native functions

  /** The parser's character loop. */
  method ParseCsv(text: Bytes, sep: byte) returns (rows: seq<Row>)
    ensures rows == Parse(text, sep)
  {
    rows := [];
    var field: Bytes, row: Row, inQuote := [], [], false;
    var i := 0;
    while i < |text|
      invariant 0 <= i <= |text|
      invariant Run(text, i, sep, State(rows, row, field, inQuote)) == Run(text, 0, sep, State([], [], [], false))
    {
      var c := text[i];
      if inQuote {
        if c == QUOTE {
          if i + 1 < |text| && text[i + 1] == QUOTE {
            field := field + [QUOTE];
            i := i + 2;
            continue;
          }
          inQuote := false;
        } else {
          field := field + [c];
        }
      } else {
        if c == QUOTE {
          inQuote := true;
        } else if c == sep {
          row := row + [field];
          field := [];
        } else if c == NL {
          if row != [] || field != [] {
            rows := rows + [row + [field]];
            row, field := [], [];
          }
        } else if c != CR {
          field := field + [c];
        }
      }
      i := i + 1;
    }
    if row != [] || field != [] {
      rows := rows + [row + [field]];
    }
  }

  /** Append a text, quoted if it has a special character. */
  method PutQuoted(out: Bytes, t: Bytes, sep: byte) returns (r: Bytes)
    ensures r == out + Quoted(t, sep)
  {
    hide Doubled;
    var needs := false;
    var i := 0;
    while i < |t|
      invariant 0 <= i <= |t| && !needs && forall k :: 0 <= k < i ==> !Special(t[k], sep)
    {
      if Special(t[i], sep) {
        needs := true;
        break;
      }
      i := i + 1;
    }
    if needs {
      r := PutDoubled(out + [QUOTE], t);
      r := r + [QUOTE];
    } else {
      r := out + t;
    }
  }

  method PutDoubled(out: Bytes, t: Bytes) returns (r: Bytes)
    ensures r == out + Doubled(t)
  {
    hide Doubled;
    r := out;
    var i := 0;
    assert t[0..] == t;
    while i < |t|
      invariant 0 <= i <= |t| && r + Doubled(t[i..]) == out + Doubled(t)
    {
      DoubledNext(r, t, i);
      if t[i] == QUOTE {
        r := r + [QUOTE];
      }
      r := r + [t[i]];
      i := i + 1;
    }
    DoubledEnd(r, t);
  }

  lemma DoubledEnd(r: Bytes, t: Bytes)
    ensures r + Doubled(t[|t|..]) == r
  {
    assert t[|t|..] == [];
  }

  lemma DoubledNext(r: Bytes, t: Bytes, i: nat)
    requires i < |t|
    ensures r + Doubled(t[i..]) == (if t[i] == QUOTE then r + [QUOTE] else r) + [t[i]] + Doubled(t[i + 1..])
  {
    assert t[i..][0] == t[i] && t[i..][1..] == t[i + 1..];
  }

  method PutCell(out: Bytes, v: Value, sep: byte) returns (r: Bytes)
    ensures r == out + Cell(v, sep)
  {
    hide Quoted;
    var cell;
    if v.Str? {
      cell := PutQuoted([], v.s, COMMA);
      assert [] + Quoted(v.s, COMMA) == Quoted(v.s, COMMA);
    } else {
      cell := Text(v);
    }
    if sep != COMMA {
      r := PutQuoted(out, cell, sep);
    } else {
      r := out + cell;
    }
  }

  /** csv.stringify. */
  method Stringify(rows: seq<seq<Value>>, sep: byte) returns (out: Bytes)
    ensures out == Rows(rows, sep)
  {
    hide Cell;
    out := [];
    var r := 0;
    assert rows[0..] == rows;
    while r < |rows|
      invariant 0 <= r <= |rows| && out + Rows(rows[r..], sep) == Rows(rows, sep)
    {
      var row := rows[r];
      ghost var start := out;
      var c := 0;
      assert row[0..] == row && start + Cells(row, sep) == out + Ahead(row, 0, sep);
      while c < |row|
        invariant 0 <= c <= |row| && out + Ahead(row, c, sep) == start + Cells(row, sep)
      {
        AheadNext(out, row, c, sep);
        if c > 0 {
          out := out + [sep];
        }
        out := PutCell(out, row[c], sep);
        c := c + 1;
      }
      AheadEnd(out, row, sep);
      RowsNext(start, rows, r, sep);
      out := out + [NL];
      r := r + 1;
    }
    assert rows[r..] == [] && out + [] == out;
  }

  /** What a row still has to write after c cells, with the separator before them. */
  function Ahead(row: seq<Value>, c: nat, sep: byte): Bytes
    requires c <= |row|
  {
    if c == 0 || c == |row| then Cells(row[c..], sep) else [sep] + Cells(row[c..], sep)
  }

  lemma AheadNext(out: Bytes, row: seq<Value>, c: nat, sep: byte)
    requires c < |row|
    ensures out + Ahead(row, c, sep) == (if c > 0 then out + [sep] else out) + Cell(row[c], sep) +
            Ahead(row, c + 1, sep)
  {
    hide Cell;
    assert row[c..][0] == row[c] && row[c..][1..] == row[c + 1..];
  }

  lemma AheadEnd(out: Bytes, row: seq<Value>, sep: byte)
    ensures out + Ahead(row, |row|, sep) == out
  {
    assert row[|row|..] == [];
  }

  lemma RowsNext(start: Bytes, rows: seq<seq<Value>>, r: nat, sep: byte)
    requires r < |rows|
    ensures start + Rows(rows[r..], sep) == start + Cells(rows[r], sep) + [NL] + Rows(rows[r + 1..], sep)
  {
    hide Cells;
    assert rows[r..][0] == rows[r] && rows[r..][1..] == rows[r + 1..];
  }
}
