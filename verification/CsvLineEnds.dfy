/** Tables written with any of the three line ends that spreadsheets use read back unchanged. */
module CsvLineEnds {
  import opened Csv
  import opened Sequences

  predicate IsLineEnd(lineEnd: string) {
    lineEnd == "\n" || lineEnd == "\r\n" || lineEnd == "\r"
  }

  function WriteLines(rows: seq<Row>, lineEnd: string): string {
    if rows == [] then "" else WriteRow(rows[0]) + (lineEnd + WriteLines(rows[1..], lineEnd))
  }

  lemma ReadsLineEnd(lineEnd: string, rest: string, st: ReadState)
    requires IsLineEnd(lineEnd) && !st.quoted && (rest != "" ==> rest[0] != '\n')
    ensures ReadFrom(lineEnd + rest, st) == ReadFrom(rest, EndRow(st))
  {
    var text := lineEnd + rest;
    assert text[|lineEnd|..] == rest;
  }

  /** The text of a row and its line end, after the first field. */
  function AfterFirstOf(row: Row, lineEnd: string, rest: string): string
    requires row != []
  {
    if |row| == 1 then lineEnd + rest else "," + (WriteRow(row[1..]) + (lineEnd + rest))
  }

  lemma RowTextTo(row: Row, lineEnd: string, rest: string)
    requires row != [] && IsLineEnd(lineEnd)
    ensures WriteRow(row) + (lineEnd + rest) == CsvEscape(row[0]) + AfterFirstOf(row, lineEnd, rest)
    ensures EndsField(AfterFirstOf(row, lineEnd, rest))
  {
    if |row| > 1 {
      var a, b := CsvEscape(row[0]), WriteRow(row[1..]);
      ConcatAssociates(a, "," + b, lineEnd + rest);
      ConcatAssociates(",", b, lineEnd + rest);
    }
  }

  lemma {:induction false} ReadsRowTo(row: Row, lineEnd: string, rest: string, st: ReadState)
    requires IsLineEnd(lineEnd) && (rest != "" ==> rest[0] != '\n')
    requires !st.quoted && st.field == "" && RowSurvives(row)
    ensures ReadFrom(WriteRow(row) + (lineEnd + rest), st)
            == ReadFrom(rest, st.(grid := st.grid + [st.row + row], row := []))
    decreases |row|
  {
    RowTextTo(row, lineEnd, rest);
    ReadsField(row[0], AfterFirstOf(row, lineEnd, rest), st);
    var read := st.(field := row[0]);
    if |row| == 1 {
      ReadsLineEnd(lineEnd, rest, read);
      assert [row[0]] == row;
    } else {
      TailSurvives(row);
      ReadsComma(WriteRow(row[1..]) + (lineEnd + rest), read);
      ReadsRowTo(row[1..], lineEnd, rest, EndField(read));
      FirstAndRest(st.row, row);
    }
  }

  /** No row begins with a bare line feed, since a field with one is quoted. */
  lemma FirstCharacter(rows: seq<Row>, lineEnd: string)
    requires IsLineEnd(lineEnd) && forall k :: 0 <= k < |rows| ==> RowSurvives(rows[k])
    ensures lineEnd != "\n" && WriteLines(rows, lineEnd) != "" ==> WriteLines(rows, lineEnd)[0] != '\n'
    ensures rows != [] ==> (StartsWithMark(rows) <==> WriteLines(rows, lineEnd)[0] == BYTE_ORDER_MARK)
  {
    if rows != [] {
      var value, text := rows[0][0], WriteLines(rows, lineEnd);
      if NeedsQuotes(value) {
        assert text[0] == '"';
      } else if value != "" {
        assert text[0] == value[0];
      } else {
        assert text[0] == if |rows[0]| > 1 then ',' else lineEnd[0];
      }
    }
  }

  lemma {:induction false} ReadsLines(rows: seq<Row>, lineEnd: string, st: ReadState)
    requires IsLineEnd(lineEnd) && forall k :: 0 <= k < |rows| ==> RowSurvives(rows[k])
    requires !st.quoted && st.field == "" && st.row == []
    ensures ReadFrom(WriteLines(rows, lineEnd), st) == st.grid + rows
    decreases |rows|
  {
    if rows == [] {
      assert st.grid + rows == st.grid;
    } else {
      var rest := WriteLines(rows[1..], lineEnd);
      FirstCharacter(rows[1..], lineEnd);
      if lineEnd == "\n" {
        ReadsRow(rows[0], rest, st);
      } else {
        ReadsRowTo(rows[0], lineEnd, rest, st);
      }
      assert [] + rows[0] == rows[0];
      ReadsLines(rows[1..], lineEnd, st.(grid := st.grid + [rows[0]]));
      FirstAndRest(st.grid, rows);
    }
  }

  /** A table that survives comes back from a text with any of the three. */
  lemma AnyLineEndReadsBack(rows: seq<Row>, lineEnd: string)
    requires IsLineEnd(lineEnd) && GridSurvives(rows)
    ensures ReadGrid(WriteLines(rows, lineEnd)) == rows
  {
    FirstCharacter(rows, lineEnd);
    ReadsLines(rows, lineEnd, START);
    assert START.grid + rows == rows;
  }
}
