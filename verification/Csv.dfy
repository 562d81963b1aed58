/**
 * The CSV reader of the bulk import and the CSV writer of the bank file (RFC 4180, section 2):
 * exactly which tables survive being written and read back.
 */
module Csv {
  import opened DecimalText
  import opened Sequences
  import opened Wrappers

  type Row = seq<string>

  const BYTE_ORDER_MARK := '\U{FEFF}'

  /** The reader's variables between two characters. */
  datatype ReadState = ReadState(grid: seq<Row>, row: Row, field: string, quoted: bool)

  const START := ReadState([], [], "", false)

  function EndField(st: ReadState): ReadState {
    st.(row := st.row + [st.field], field := "")
  }

  function EndRow(st: ReadState): ReadState {
    st.(grid := st.grid + [st.row + [st.field]], row := [], field := "")
  }

  function Append(st: ReadState, ch: char): ReadState {
    st.(field := st.field + [ch])
  }

  /** The grid read from the remaining text `src`, starting in state `st`. */
  function ReadFrom(src: string, st: ReadState): seq<Row> {
    if src == "" then
      if st.field != "" || st.row != [] then EndRow(st).grid else st.grid
    else
      var ch := src[0];
      var doubled := |src| > 1 && src[1] == '"';
      if st.quoted then
        if ch != '"' then ReadFrom(src[1..], Append(st, ch))
        else if doubled then ReadFrom(src[2..], Append(st, '"'))
        else ReadFrom(src[1..], st.(quoted := false))
      else if ch == '"' then ReadFrom(src[1..], st.(quoted := true))
      else if ch == ',' then ReadFrom(src[1..], EndField(st))
      else if ch == '\r' && |src| > 1 && src[1] == '\n' then ReadFrom(src[2..], EndRow(st))
      else if ch == '\n' || ch == '\r' then ReadFrom(src[1..], EndRow(st))
      else ReadFrom(src[1..], Append(st, ch))
  }

  function WithoutMark(text: string): string {
    if text != "" && text[0] == BYTE_ORDER_MARK then text[1..] else text
  }

  function ReadGrid(text: string): seq<Row> {
    ReadFrom(WithoutMark(text), START)
  }

  method ReadCsvGrid(text: string) returns (grid: seq<Row>)
    ensures grid == ReadGrid(text)
  {
    var src := WithoutMark(text);
    grid := [];
    var row: Row := [];
    var field := "";
    var quoted := false;
    var i := 0;
    while i < |src|
      invariant i <= |src|
      invariant ReadFrom(src[i..], ReadState(grid, row, field, quoted)) == ReadGrid(text)
    {
      var ch := src[i];
      assert src[i..][1..] == src[i + 1..];
      assert i + 1 < |src| ==> src[i..][2..] == src[i + 2..];
      if quoted {
        if ch == '"' {
          if i + 1 < |src| && src[i + 1] == '"' {
            field := field + ['"'];
            i := i + 1;
          } else {
            quoted := false;
          }
        } else {
          field := field + [ch];
        }
      } else if ch == '"' {
        quoted := true;
      } else if ch == ',' {
        row := row + [field];
        field := "";
      } else if ch == '\n' || ch == '\r' {
        if ch == '\r' && i + 1 < |src| && src[i + 1] == '\n' {
          i := i + 1;
        }
        row := row + [field];
        grid := grid + [row];
        row := [];
        field := "";
      } else {
        field := field + [ch];
      }
      i := i + 1;
    }
    if field != "" || row != [] {
      row := row + [field];
      grid := grid + [row];
    }
  }

  // ---- Writing ----

  predicate NeedsQuotes(value: string) {
    exists k :: 0 <= k < |value| && (value[k] == '"' || value[k] == ',' || value[k] == '\n')
  }

  function DoubleQuotes(value: string): string {
    if value == "" then ""
    else (if value[0] == '"' then "\"\"" else [value[0]]) + DoubleQuotes(value[1..])
  }

  function CsvEscape(value: string): string {
    if NeedsQuotes(value) then "\"" + (DoubleQuotes(value) + "\"") else value
  }

  function WriteRow(row: Row): string {
    if row == [] then ""
    else if |row| == 1 then CsvEscape(row[0])
    else CsvEscape(row[0]) + ("," + WriteRow(row[1..]))
  }

  function WriteGrid(rows: seq<Row>): string {
    if rows == [] then "" else WriteRow(rows[0]) + ("\n" + WriteGrid(rows[1..]))
  }

  // ---- Reading back what was written ----

  /** A carriage return alone does not make the writer quote a field, but ends a row for the reader. */
  predicate Survives(value: string) {
    '\r' in value ==> NeedsQuotes(value)
  }

  predicate RowSurvives(row: Row) {
    row != [] && forall k :: 0 <= k < |row| ==> Survives(row[k])
  }

  predicate StartsWithMark(rows: seq<Row>) {
    && rows != [] && rows[0] != [] && rows[0][0] != ""
    && rows[0][0][0] == BYTE_ORDER_MARK && !NeedsQuotes(rows[0][0])
  }

  predicate GridSurvives(rows: seq<Row>) {
    !StartsWithMark(rows) && forall k :: 0 <= k < |rows| ==> RowSurvives(rows[k])
  }

  predicate EndsField(rest: string) {
    rest != "" && (rest[0] == ',' || rest[0] == '\n' || rest[0] == '\r')
  }

  predicate IsPlain(value: string) {
    !NeedsQuotes(value) && '\r' !in value
  }

  lemma {:induction false} ReadsPlain(value: string, rest: string, st: ReadState)
    requires !st.quoted && IsPlain(value)
    ensures ReadFrom(value + rest, st) == ReadFrom(rest, st.(field := st.field + value))
    decreases |value|
  {
    if value == "" {
      assert value + rest == rest && st.field + value == st.field;
    } else {
      var ch := value[0];
      assert ch in value;
      TailOfConcat(value, rest);
      assert forall k :: 0 <= k < |value[1..]| ==> value[1..][k] == value[k + 1];
      ReadsPlain(value[1..], rest, Append(st, ch));
      FirstAndRest(st.field, value);
    }
  }

  lemma {:induction false} ReadsQuoted(value: string, rest: string, st: ReadState)
    requires st.quoted && EndsField(rest)
    ensures ReadFrom(DoubleQuotes(value) + ("\"" + rest), st)
            == ReadFrom(rest, st.(field := st.field + value, quoted := false))
    decreases |value|
  {
    var tail := "\"" + rest;
    if value == "" {
      assert DoubleQuotes(value) + tail == tail && st.field + value == st.field;
      assert tail[1..] == rest;
    } else {
      var ch, more := value[0], DoubleQuotes(value[1..]) + tail;
      ReadsQuoted(value[1..], rest, Append(st, ch));
      FirstAndRest(st.field, value);
      var head := if ch == '"' then "\"\"" else [ch];
      ConcatAssociates(head, DoubleQuotes(value[1..]), tail);
      DropOfConcat(head, more);
    }
  }

  lemma ReadsField(value: string, rest: string, st: ReadState)
    requires !st.quoted && st.field == "" && Survives(value) && EndsField(rest)
    ensures ReadFrom(CsvEscape(value) + rest, st) == ReadFrom(rest, st.(field := value))
  {
    if NeedsQuotes(value) {
      var text := CsvEscape(value) + rest;
      assert text[1..] == DoubleQuotes(value) + ("\"" + rest);
      ReadsQuoted(value, rest, st.(quoted := true));
      assert "" + value == value;
    } else {
      ReadsPlain(value, rest, st);
      assert "" + value == value;
    }
  }

  lemma ReadsComma(rest: string, st: ReadState)
    requires !st.quoted
    ensures ReadFrom("," + rest, st) == ReadFrom(rest, EndField(st))
  {
    assert ("," + rest)[1..] == rest;
  }

  lemma ReadsNewline(rest: string, st: ReadState)
    requires !st.quoted
    ensures ReadFrom("\n" + rest, st) == ReadFrom(rest, EndRow(st))
  {
    assert ("\n" + rest)[1..] == rest;
  }

  /** The text of a row and what follows its first field. */
  function AfterFirst(row: Row, rest: string): string
    requires row != []
  {
    if |row| == 1 then "\n" + rest else "," + (WriteRow(row[1..]) + ("\n" + rest))
  }

  lemma RowText(row: Row, rest: string)
    requires row != []
    ensures WriteRow(row) + ("\n" + rest) == CsvEscape(row[0]) + AfterFirst(row, rest)
    ensures EndsField(AfterFirst(row, rest))
  {
    if |row| > 1 {
      var a, b := CsvEscape(row[0]), WriteRow(row[1..]);
      ConcatAssociates(a, "," + b, "\n" + rest);
      ConcatAssociates(",", b, "\n" + rest);
    }
  }

  lemma TailSurvives(row: Row)
    requires |row| > 1 && Survives(row[0])
    ensures RowSurvives(row[1..]) <==> RowSurvives(row)
  {
    assert forall k :: 0 <= k < |row[1..]| ==> row[1..][k] == row[k + 1];
    assert forall k :: 0 < k < |row| ==> row[k] == row[1..][k - 1];
  }

  lemma {:induction false} ReadsRow(row: Row, rest: string, st: ReadState)
    requires !st.quoted && st.field == "" && RowSurvives(row)
    ensures ReadFrom(WriteRow(row) + ("\n" + rest), st)
            == ReadFrom(rest, st.(grid := st.grid + [st.row + row], row := []))
    decreases |row|
  {
    RowText(row, rest);
    ReadsField(row[0], AfterFirst(row, rest), st);
    var read := st.(field := row[0]);
    if |row| == 1 {
      ReadsNewline(rest, read);
      assert [row[0]] == row;
    } else {
      TailSurvives(row);
      ReadsComma(WriteRow(row[1..]) + ("\n" + rest), read);
      ReadsRow(row[1..], rest, EndField(read));
      FirstAndRest(st.row, row);
    }
  }

  // ---- Reading back a table that does not survive ----

  /** Finished rows stay, and so do the finished fields of the row being read. */
  lemma {:induction false} ReadKeeps(src: string, st: ReadState)
    ensures var grid := ReadFrom(src, st);
            && st.grid <= grid
            && (st.row != [] ==> |grid| > |st.grid| && st.row <= grid[|st.grid|])
    decreases |src|
  {
    if src != "" {
      var ch := src[0];
      var two := |src| > 1 &&
        ((st.quoted && ch == '"' && src[1] == '"') || (!st.quoted && ch == '\r' && src[1] == '\n'));
      var rest := if two then src[2..] else src[1..];
      var next :=
        if st.quoted then
          if ch != '"' || two then Append(st, ch) else st.(quoted := false)
        else if ch == '"' then st.(quoted := true)
        else if ch == ',' then EndField(st)
        else if ch == '\n' || ch == '\r' then EndRow(st)
        else Append(st, ch);
      assert ReadFrom(src, st) == ReadFrom(rest, next);
      ReadKeeps(rest, next);
    }
  }

  function BeforeReturn(value: string): (a: string)
    ensures a <= value && '\r' !in a
    ensures '\r' in value ==> |a| < |value| && value[|a|] == '\r'
    ensures '\r' !in value ==> a == value
  {
    if value == "" || value[0] == '\r' then ""
    else
      var rest := BeforeReturn(value[1..]);
      assert value == [value[0]] + value[1..];
      [value[0]] + rest
  }

  /** An unquoted field is read only up to its first carriage return. */
  lemma ReadsUpToReturn(value: string, rest: string, st: ReadState)
    requires !st.quoted && st.field == "" && !NeedsQuotes(value) && EndsField(rest)
    ensures var grid := ReadFrom(value + rest, st);
            && |grid| > |st.grid| && |grid[|st.grid|]| > |st.row|
            && grid[|st.grid|][|st.row|] == BeforeReturn(value)
            && ('\r' in value ==> grid[|st.grid|] == st.row + [BeforeReturn(value)])
  {
    var a := BeforeReturn(value);
    var tail := value[|a|..] + rest;
    ReadsToReturn(value, rest, st);
    assert st.field + a == a;
    assert tail[0] == if '\r' in value then '\r' else rest[0];
    ReadsFieldEnd(tail, st.(field := a));
  }

  lemma {:induction false} ReadsToReturn(value: string, rest: string, st: ReadState)
    requires !st.quoted && !NeedsQuotes(value)
    ensures ReadFrom(value + rest, st)
            == ReadFrom(value[|BeforeReturn(value)|..] + rest, st.(field := st.field + BeforeReturn(value)))
    decreases |value|
  {
    if value == "" || value[0] == '\r' {
      assert st.field + "" == st.field;
    } else {
      var a := BeforeReturn(value[1..]);
      assert forall k :: 0 <= k < |value[1..]| ==> value[1..][k] == value[k + 1];
      ReadsToReturn(value[1..], rest, Append(st, value[0]));
      TailOfConcat(value, rest);
      DropTwice(value, |a|);
      ConcatAssociates(st.field, [value[0]], a);
    }
  }

  lemma ReadsFieldEnd(tail: string, st: ReadState)
    requires !st.quoted && tail != "" && (tail[0] == ',' || tail[0] == '\n' || tail[0] == '\r')
    ensures var grid := ReadFrom(tail, st);
            && |grid| > |st.grid|
            && (if tail[0] == ',' then st.row + [st.field] <= grid[|st.grid|]
                else st.row + [st.field] == grid[|st.grid|])
  {
    if tail[0] == ',' {
      ReadKeeps(tail[1..], EndField(st));
    } else {
      var after := if tail[0] == '\r' && |tail| > 1 && tail[1] == '\n' then tail[2..] else tail[1..];
      ReadKeeps(after, EndRow(st));
    }
  }

  lemma {:induction false} LosesRow(row: Row, rest: string, st: ReadState)
    requires !st.quoted && st.field == "" && !RowSurvives(row)
    ensures var grid := ReadFrom(WriteRow(row) + ("\n" + rest), st);
            |grid| > |st.grid| && grid[|st.grid|] != st.row + row
    decreases |row|
  {
    if row == [] {
      assert WriteRow(row) + ("\n" + rest) == "\n" + rest;
      ReadsNewline(rest, st);
      ReadKeeps(rest, EndRow(st));
    } else {
      RowText(row, rest);
      if !Survives(row[0]) {
        ReadsUpToReturn(row[0], AfterFirst(row, rest), st);
        assert (st.row + row)[|st.row|] == row[0];
      } else {
        var read := st.(field := row[0]);
        ReadsField(row[0], AfterFirst(row, rest), st);
        assert |row| > 1;
        TailSurvives(row);
        ReadsComma(WriteRow(row[1..]) + ("\n" + rest), read);
        LosesRow(row[1..], rest, EndField(read));
        FirstAndRest(st.row, row);
      }
    }
  }

  /** Without a byte-order mark: the rows come back exactly when every one of them survives. */
  lemma {:induction false} ReadsRowsExactlyWhenTheySurvive(rows: seq<Row>, st: ReadState)
    requires !st.quoted && st.field == "" && st.row == []
    ensures ReadFrom(WriteGrid(rows), st) == st.grid + rows <==> forall k :: 0 <= k < |rows| ==> RowSurvives(rows[k])
    decreases |rows|
  {
    if rows == [] {
      assert st.grid + rows == st.grid;
    } else {
      var rest := WriteGrid(rows[1..]);
      assert [] + rows[0] == rows[0];
      if RowSurvives(rows[0]) {
        ReadsRow(rows[0], rest, st);
        ReadsRowsExactlyWhenTheySurvive(rows[1..], st.(grid := st.grid + [rows[0]]));
        FirstAndRest(st.grid, rows);
        assert forall k :: 1 <= k < |rows| ==> rows[k] == rows[1..][k - 1];
      } else {
        LosesRow(rows[0], rest, st);
        assert (st.grid + rows)[|st.grid|] == rows[0];
      }
    }
  }

  lemma WrittenMark(rows: seq<Row>)
    ensures StartsWithMark(rows) <==> WriteGrid(rows) != "" && WriteGrid(rows)[0] == BYTE_ORDER_MARK
  {
    if rows != [] && rows[0] != [] {
      var value := rows[0][0];
      var text := WriteGrid(rows);
      if NeedsQuotes(value) {
        assert text[0] == '"';
      } else if value != "" {
        assert text[0] == value[0];
      } else {
        assert text[0] == ',' || text[0] == '\n';
      }
    }
  }

  lemma LosesMark(rows: seq<Row>)
    requires StartsWithMark(rows)
    ensures ReadGrid(WriteGrid(rows)) != rows
  {
    WrittenMark(rows);
    var value := rows[0][0];
    var rest := AfterFirst(rows[0], WriteGrid(rows[1..]));
    RowText(rows[0], WriteGrid(rows[1..]));
    assert (value + rest)[1..] == value[1..] + rest;
    assert forall k :: 0 <= k < |value[1..]| ==> value[1..][k] == value[k + 1];
    ReadsUpToReturn(value[1..], rest, START);
  }

  /** A table comes back unchanged exactly when it survives. */
  lemma WriteThenRead(rows: seq<Row>)
    ensures ReadGrid(WriteGrid(rows)) == rows <==> GridSurvives(rows)
  {
    WrittenMark(rows);
    if StartsWithMark(rows) {
      LosesMark(rows);
    } else {
      ReadsRowsExactlyWhenTheySurvive(rows, START);
      assert START.grid + rows == rows;
    }
  }

  // ---- The bank file ----

  datatype BankFileRow = BankFileRow(
    employeeCode: string, employeeName: string, accountNumber: string, ifsc: string,
    bankName: Option<string>, amountPaise: int, paymentMode: Option<string>)

  const HEADER: Row :=
    ["EmployeeCode", "EmployeeName", "AccountNumber", "IFSC", "BankName", "Amount", "PaymentMode"]

  predicate IsAmountChar(c: char) {
    IsDigit(c) || c == '.' || c == '-'
  }

  /** An amount in paise as rupees with two decimals. */
  function ToFixed2(paise: int): (s: string)
    ensures All(s, IsAmountChar)
  {
    var absolute := if paise < 0 then -paise else paise;
    (if paise < 0 then "-" else "") + Digits(absolute / 100, 1) + "." + Digits(absolute % 100, 2)
  }

  /** A sign if it is negative, rupees without superfluous zeros, a point, and exactly two digits of paise. */
  lemma AmountText(paise: int) returns (rupees: string, rest: string)
    ensures ToFixed2(paise) == (if paise < 0 then "-" else "") + rupees + "." + rest
    ensures |rest| == 2 && rupees != "" && All(rupees + rest, IsDigit)
    ensures |rupees| > 1 ==> rupees[0] != '0'
    ensures DigitsValue(rupees + rest) == if paise < 0 then -paise else paise
  {
    var absolute := if paise < 0 then -paise else paise;
    rupees, rest := Digits(absolute / 100, 1), Digits(absolute % 100, 2);
    assert Pow10(2) == 100;
    DigitsFit(absolute % 100, 2);
    DigitsLead(absolute / 100, 1);
    ValueOfConcat(rupees, rest);
  }

  function Cells(r: BankFileRow): Row {
    [r.employeeCode, r.employeeName, r.accountNumber, r.ifsc, r.bankName.OrElse(""),
     ToFixed2(r.amountPaise), r.paymentMode.OrElse("")]
  }

  /** Each cell stands below the name of what it holds. */
  lemma CellsAreNamed(r: BankFileRow, k: nat)
    requires k < |HEADER|
    ensures |Cells(r)| == |HEADER|
    ensures HEADER[k] == "EmployeeCode" ==> Cells(r)[k] == r.employeeCode
    ensures HEADER[k] == "EmployeeName" ==> Cells(r)[k] == r.employeeName
    ensures HEADER[k] == "AccountNumber" ==> Cells(r)[k] == r.accountNumber
    ensures HEADER[k] == "IFSC" ==> Cells(r)[k] == r.ifsc
    ensures HEADER[k] == "BankName" && r.bankName.Some? ==> Cells(r)[k] == r.bankName.value
    ensures HEADER[k] == "PaymentMode" && r.paymentMode.Some? ==> Cells(r)[k] == r.paymentMode.value
    ensures HEADER[k] == "Amount" ==> Cells(r)[k] == ToFixed2(r.amountPaise)
  {
    assert "EmployeeCode"[0] == 'E' && "AccountNumber"[1] == 'c' && "Amount"[1] == 'm';
    assert "EmployeeCode"[8] == 'C' && "EmployeeName"[8] == 'N';
  }

  function Join(parts: seq<string>, separator: string): string {
    if parts == [] then ""
    else if |parts| == 1 then parts[0]
    else parts[0] + (separator + Join(parts[1..], separator))
  }

  function BankLine(r: BankFileRow): string {
    Join([CsvEscape(r.employeeCode), CsvEscape(r.employeeName), CsvEscape(r.accountNumber), CsvEscape(r.ifsc),
          CsvEscape(r.bankName.OrElse("")), ToFixed2(r.amountPaise), r.paymentMode.OrElse("")], ",")
  }

  function BankLines(rows: seq<BankFileRow>): (lines: seq<string>)
    ensures |lines| == |rows| && forall k :: 0 <= k < |rows| ==> lines[k] == BankLine(rows[k])
  {
    if rows == [] then [] else [BankLine(rows[0])] + BankLines(rows[1..])
  }

  function Generate(rows: seq<BankFileRow>): string {
    Join([Join(HEADER, ",")] + BankLines(rows), "\n") + "\n"
  }

  function AllCells(rows: seq<BankFileRow>): (grid: seq<Row>)
    ensures |grid| == |rows| && forall k :: 0 <= k < |rows| ==> grid[k] == Cells(rows[k])
  {
    if rows == [] then [] else [Cells(rows[0])] + AllCells(rows[1..])
  }

  /** What the bank file is meant to hold. */
  function BankGrid(rows: seq<BankFileRow>): seq<Row> {
    [HEADER] + AllCells(rows)
  }

  lemma {:induction false} WriteRowIsJoin(row: Row, parts: seq<string>)
    requires |row| == |parts| && forall k :: 0 <= k < |row| ==> parts[k] == CsvEscape(row[k])
    ensures WriteRow(row) == Join(parts, ",")
    decreases |row|
  {
    if |row| > 1 {
      WriteRowIsJoin(row[1..], parts[1..]);
    }
  }

  lemma {:induction false} WriteGridIsJoin(rows: seq<Row>, lines: seq<string>)
    requires rows != [] && |rows| == |lines| && forall k :: 0 <= k < |rows| ==> lines[k] == WriteRow(rows[k])
    ensures WriteGrid(rows) == Join(lines, "\n") + "\n"
    decreases |rows|
  {
    if |rows| == 1 {
      assert WriteGrid(rows[1..]) == "";
    } else {
      WriteGridIsJoin(rows[1..], lines[1..]);
      assert lines[0] + ("\n" + (Join(lines[1..], "\n") + "\n")) == Join(lines, "\n") + "\n";
    }
  }

  lemma HeaderIsPlain()
    ensures forall k :: 0 <= k < |HEADER| ==> IsPlain(HEADER[k])
  {
    assert IsPlain("EmployeeCode");
    assert IsPlain("EmployeeName");
    assert IsPlain("AccountNumber");
    assert IsPlain("IFSC");
    assert IsPlain("BankName");
    assert IsPlain("Amount");
    assert IsPlain("PaymentMode");
  }

  lemma HeaderSurvives()
    ensures RowSurvives(HEADER) && HEADER[0] != "" && HEADER[0][0] != BYTE_ORDER_MARK
  {
    HeaderIsPlain();
  }

  lemma BankLineIsRow(r: BankFileRow)
    requires IsPlain(r.paymentMode.OrElse(""))
    ensures BankLine(r) == WriteRow(Cells(r))
  {
    assert !NeedsQuotes(ToFixed2(r.amountPaise));
    WriteRowIsJoin(Cells(r),
      [CsvEscape(r.employeeCode), CsvEscape(r.employeeName), CsvEscape(r.accountNumber), CsvEscape(r.ifsc),
       CsvEscape(r.bankName.OrElse("")), ToFixed2(r.amountPaise), r.paymentMode.OrElse("")]);
  }

  lemma BankFileIsGrid(rows: seq<BankFileRow>)
    requires forall k :: 0 <= k < |rows| ==> IsPlain(rows[k].paymentMode.OrElse(""))
    ensures Generate(rows) == WriteGrid(BankGrid(rows))
  {
    var lines := [Join(HEADER, ",")] + BankLines(rows);
    var grid := BankGrid(rows);
    HeaderIsPlain();
    WriteRowIsJoin(HEADER, HEADER);
    forall k | 0 <= k < |grid|
      ensures lines[k] == WriteRow(grid[k])
    {
      if k > 0 {
        BankLineIsRow(rows[k - 1]);
      }
    }
    WriteGridIsJoin(grid, lines);
  }

  /** The importing reader returns the bank file's cells exactly when no escaped cell loses a carriage return. */
  lemma BankFileReadsBack(rows: seq<BankFileRow>)
    requires forall k :: 0 <= k < |rows| ==> IsPlain(rows[k].paymentMode.OrElse(""))
    ensures ReadGrid(Generate(rows)) == BankGrid(rows)
            <==> forall k :: 0 <= k < |rows| ==> RowSurvives(Cells(rows[k]))
  {
    var grid := BankGrid(rows);
    BankFileIsGrid(rows);
    WriteThenRead(grid);
    HeaderSurvives();
    assert grid[0] == HEADER;
    SurvivesAfterHeader(HEADER, AllCells(rows));
  }

  lemma SurvivesAfterHeader(header: Row, body: seq<Row>)
    requires RowSurvives(header) && !StartsWithMark([header])
    ensures GridSurvives([header] + body) <==> forall k :: 0 <= k < |body| ==> RowSurvives(body[k])
  {
    var grid := [header] + body;
    assert forall k :: 0 <= k < |body| ==> body[k] == grid[k + 1];
    assert forall k :: 1 <= k < |grid| ==> grid[k] == body[k - 1];
  }
}
