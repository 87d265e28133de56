/** A pipe table: its columns and rows, the reader that builds it from the lines
    of a file and the writer that turns it back into lines. The reader never
    fails: a short or malformed file gives a partly filled table. */
module Tables {
  import opened Strings
  import opened Columns
  import opened Rows

  /** The value of a table: its stored columns (placeholders with an empty
      name included) and, for each row, its column-name-to-cell map. */
  datatype TableState = TableState(columns: seq<ColumnState>, rows: seq<map<string, string>>)

  // ---------------------------------------------------------------------------
  // Reading

  /** The columns the header line declares, one per field, with the default
      alignment and a width of the name's length but at least 5. */
  function HeaderColumns(headers: seq<string>): (r: seq<ColumnState>)
    ensures Names(r) == headers
    ensures forall i :: 0 <= i < |r| ==> r[i].alignment == Unspecified && r[i].width >= 5 && r[i].width >= |r[i].name|
  {
    seq(|headers|, i requires 0 <= i < |headers| => ColumnState(headers[i], Unspecified, Max(|headers[i]|, 5)))
  }

  /** The columns with the alignments that the separator-row fields declare. */
  function Aligned(cols: seq<ColumnState>, marks: seq<string>): (r: seq<ColumnState>)
    requires |marks| == |cols|
    ensures Names(r) == Names(cols)
    ensures forall i :: 0 <= i < |r| ==> r[i].width == cols[i].width
    ensures forall i :: 0 <= i < |r| ==>
      (r[i].alignment in {Left, Center} <==> |marks[i]| > 0 && marks[i][0] == ':') &&
      (r[i].alignment in {Right, Center} <==> |marks[i]| > 0 && marks[i][|marks[i]| - 1] == ':')
  {
    seq(|cols|, i requires 0 <= i < |cols| => cols[i].(alignment := ParseMarker(marks[i])))
  }

  /** The index of the first blank line at or after `from`, or the number of
      lines when there is none. */
  function DataEnd(lines: seq<string>, from: nat): (n: nat)
    requires from <= |lines|
    ensures from <= n <= |lines|
    ensures forall k :: from <= k < n ==> !IsBlank(lines[k])
    ensures n < |lines| ==> IsBlank(lines[n])
    decreases |lines| - from
  {
    if from == |lines| || IsBlank(lines[from]) then from else DataEnd(lines, from + 1)
  }

  /** The data lines: the lines up to the first blank one or the end. */
  function DataLines(lines: seq<string>): (r: seq<string>)
    ensures |r| <= |lines| && r == lines[..|r|]
    ensures forall k :: 0 <= k < |r| ==> !IsBlank(r[k])
    ensures |r| < |lines| ==> IsBlank(lines[|r|])
  {
    lines[..DataEnd(lines, 0)]
  }

  /** The fields of each line. */
  function Records(data: seq<string>): (r: seq<seq<string>>)
    ensures |r| == |data|
  {
    seq(|data|, k requires 0 <= k < |data| => Fields(data[k]))
  }

  /** The names of the columns, in order. */
  function Names(cols: seq<ColumnState>): (r: seq<string>)
    ensures |r| == |cols|
    ensures forall i :: 0 <= i < |cols| ==> r[i] == cols[i].name
  {
    seq(|cols|, i requires 0 <= i < |cols| => cols[i].name)
  }

  /** The map a row holds after its first n fields were stored under the
      names of the columns at the same positions, in order. */
  function RowValues(names: seq<string>, fields: seq<string>, n: nat): map<string, string>
    requires n <= |names| && n <= |fields|
  {
    if n == 0 then map[] else RowValues(names, fields, n - 1)[names[n - 1] := fields[n - 1]]
  }

  /** The smaller of two integers. */
  function Min(a: int, b: int): int {
    if a < b then a else b
  }

  /** The row read from the fields of a data line: fields beyond the last
      column are dropped. */
  function RowOf(names: seq<string>, fields: seq<string>): map<string, string> {
    RowValues(names, fields, Min(|fields|, |names|))
  }

  /** The rows read from the fields of the data lines. */
  function RowsOf(names: seq<string>, data: seq<seq<string>>): seq<map<string, string>> {
    seq(|data|, r requires 0 <= r < |data| => RowOf(names, data[r]))
  }

  /** The width of column i after one more row's fields: the length of field
      i when that is wider. */
  function Grow(width: int, fields: seq<string>, i: nat): int {
    if i < |fields| && width < |fields[i]| then |fields[i]| else width
  }

  /** The width of column i after the data lines were read. */
  function GrowWidth(width: int, data: seq<seq<string>>, i: nat): (r: int)
    ensures r >= width
    ensures forall k :: 0 <= k < |data| && i < |data[k]| ==> |data[k][i]| <= r
    decreases |data|
  {
    if |data| == 0 then width
    else Grow(GrowWidth(width, data[..|data| - 1], i), data[|data| - 1], i)
  }

  /** The columns with their widths grown to fit the data lines. */
  function Widened(cols: seq<ColumnState>, data: seq<seq<string>>): (r: seq<ColumnState>)
    ensures Names(r) == Names(cols)
    ensures forall i :: 0 <= i < |r| ==> r[i].alignment == cols[i].alignment && r[i].width >= cols[i].width
  {
    seq(|cols|, i requires 0 <= i < |cols| => cols[i].(width := GrowWidth(cols[i].width, data, i)))
  }

  /** The columns with their widths grown to fit the fields of one more data line. */
  function GrowColumns(cols: seq<ColumnState>, fields: seq<string>): seq<ColumnState> {
    seq(|cols|, i requires 0 <= i < |cols| => cols[i].(width := Grow(cols[i].width, fields, i)))
  }

  /** Widening for one more data line is one more growing step. */
  lemma WidenedSnoc(cols: seq<ColumnState>, data: seq<seq<string>>, fields: seq<string>)
    ensures Widened(cols, data + [fields]) == GrowColumns(Widened(cols, data), fields)
  {
    assert (data + [fields])[..|data|] == data;
  }

  /** The table read from the lines of a file. */
  function Parse(lines: seq<string>): TableState {
    if |lines| == 0 || IsBlank(lines[0]) then TableState([], [])
    else
      var cols := HeaderColumns(Fields(lines[0]));
      if |lines| == 1 || IsBlank(lines[1]) then TableState(cols, [])
      else
        var marks := Fields(lines[1]);
        if |marks| != |cols| then TableState(cols, [])
        else
          var records := Records(DataLines(lines[2..]));
          TableState(Widened(Aligned(cols, marks), records), RowsOf(Names(cols), records))
  }

  /** A missing or blank header line gives an empty table, and only then are
      there no columns. */
  lemma ParseBlankHeader(lines: seq<string>)
    ensures Parse(lines).columns == [] <==> |lines| == 0 || IsBlank(lines[0])
    ensures |lines| == 0 || IsBlank(lines[0]) ==> Parse(lines).rows == []
  {
  }

  /** After a header line: one column per field, in order, named after the
      trimmed field. */
  lemma ParseHeader(lines: seq<string>)
    requires |lines| > 0 && !IsBlank(lines[0])
    ensures Names(Parse(lines).columns) == Fields(lines[0])
  {
  }

  /** A missing or blank separator line, or one with a different number of
      fields, leaves the header columns as they are and reads no rows. */
  lemma ParseLenient(lines: seq<string>)
    requires |lines| > 0 && !IsBlank(lines[0])
    requires |lines| == 1 || IsBlank(lines[1]) || |Fields(lines[1])| != |Fields(lines[0])|
    ensures Parse(lines) == TableState(HeaderColumns(Fields(lines[0])), [])
    ensures forall i :: 0 <= i < |Parse(lines).columns| ==>
      Parse(lines).columns[i].alignment == Unspecified && Parse(lines).columns[i].width == Max(|Fields(lines[0])[i]|, 5)
  {
  }

  /** A well-formed header and separator line: the table read from them and
      the data lines that follow. */
  predicate HasSeparator(lines: seq<string>) {
    |lines| >= 2 && !IsBlank(lines[0]) && !IsBlank(lines[1]) && |Fields(lines[1])| == |Fields(lines[0])|
  }

  /** With a separator line, the rows are those of the data lines, read
      under the header's fields. */
  lemma ParseRowsOf(lines: seq<string>)
    requires HasSeparator(lines)
    ensures Parse(lines).rows == RowsOf(Fields(lines[0]), Records(DataLines(lines[2..])))
  {
    assert Names(HeaderColumns(Fields(lines[0]))) == Fields(lines[0]);
  }

  /** Each column takes the alignment its separator field declares by its
      colons. */
  lemma ParseAlignments(lines: seq<string>)
    requires HasSeparator(lines)
    ensures |Parse(lines).columns| == |Fields(lines[1])|
    ensures forall i :: 0 <= i < |Parse(lines).columns| ==> Parse(lines).columns[i].alignment == ParseMarker(Fields(lines[1])[i])
  {
  }

  /** The rows are read, in order, from the lines after the separator up to
      the first blank one. */
  lemma ParseRows(lines: seq<string>)
    requires HasSeparator(lines)
    ensures |Parse(lines).rows| == |DataLines(lines[2..])|
    ensures forall k :: 0 <= k < |Parse(lines).rows| ==>
      !IsBlank(lines[k + 2]) && Parse(lines).rows[k] == RowOf(Fields(lines[0]), Fields(lines[k + 2]))
    ensures |Parse(lines).rows| + 2 < |lines| ==> IsBlank(lines[|Parse(lines).rows| + 2])
  {
    var cols := HeaderColumns(Fields(lines[0]));
    var data := DataLines(lines[2..]);
    var records := Records(data);
    assert Names(cols) == Fields(lines[0]);
    assert Parse(lines).rows == RowsOf(Fields(lines[0]), records);
    forall k | 0 <= k < |data|
      ensures !IsBlank(lines[k + 2]) && records[k] == Fields(lines[k + 2])
    {
      assert data[k] == lines[2..][k] == lines[k + 2];
    }
    if |data| + 2 < |lines| {
      assert lines[2..][|data|] == lines[|data| + 2];
    }
  }

  /** The first blank line at or after `from` ends the data whatever follows it. */
  lemma {:induction false} DataEndStops(lines: seq<string>, from: nat, b: nat, rest: seq<string>)
    requires from <= b < |lines| && IsBlank(lines[b])
    ensures DataEnd(lines, from) == DataEnd(lines[..b + 1] + rest, from)
    decreases b - from
  {
    var other := lines[..b + 1] + rest;
    assert other[from] == lines[from];
    if from < b && !IsBlank(lines[from]) {
      DataEndStops(lines, from + 1, b, rest);
    }
  }

  /** Nothing after a blank data line is read. */
  lemma ParseStopsAtBlank(lines: seq<string>, b: nat, rest: seq<string>)
    requires 2 <= b < |lines| && IsBlank(lines[b])
    ensures Parse(lines[..b + 1] + rest) == Parse(lines)
  {
    var other := lines[..b + 1] + rest;
    assert other[0] == lines[0] && other[1] == lines[1];
    assert other[2..] == lines[2..][..b - 1] + rest;
    DataEndStops(lines[2..], 0, b - 2, rest);
    assert lines[2..][..b - 2 + 1] == lines[2..][..b - 1];
    assert DataLines(other[2..]) == DataLines(lines[2..]);
  }

  /** A row holds a value exactly for the names of its first n fields. */
  lemma {:induction false} RowValuesKeys(names: seq<string>, fields: seq<string>, n: nat)
    requires n <= |names| && n <= |fields|
    ensures forall key :: key in RowValues(names, fields, n) <==> exists j :: 0 <= j < n && names[j] == key
  {
    if n > 0 {
      RowValuesKeys(names, fields, n - 1);
    }
  }

  /** Every value a row holds is one of its fields, stored under that field's
      column name. */
  lemma {:induction false} RowValuesFrom(names: seq<string>, fields: seq<string>, n: nat)
    requires n <= |names| && n <= |fields|
    ensures forall key :: key in RowValues(names, fields, n) ==>
      exists j :: 0 <= j < n && names[j] == key && RowValues(names, fields, n)[key] == fields[j]
  {
    if n > 0 {
      RowValuesFrom(names, fields, n - 1);
      var m := RowValues(names, fields, n);
      forall key | key in m
        ensures exists j :: 0 <= j < n && names[j] == key && m[key] == fields[j]
      {
        if key != names[n - 1] {
          assert key in RowValues(names, fields, n - 1);
          var j :| 0 <= j < n - 1 && names[j] == key && RowValues(names, fields, n - 1)[key] == fields[j];
        }
      }
    }
  }

  /** The last field stored under a name wins: when no later one of the first
      n columns has the same name, the row holds field j under it. */
  lemma {:induction false} RowValuesLastWins(names: seq<string>, fields: seq<string>, n: nat, j: nat)
    requires j < n <= |names| && n <= |fields|
    requires forall l :: j < l < n ==> names[l] != names[j]
    ensures names[j] in RowValues(names, fields, n) && RowValues(names, fields, n)[names[j]] == fields[j]
  {
    if j < n - 1 {
      RowValuesLastWins(names, fields, n - 1, j);
    }
  }

  /** Fields beyond the last column are dropped: a row holds values only under
      the names of the columns its fields reach. */
  lemma RowOfKeys(names: seq<string>, fields: seq<string>)
    ensures forall key :: key in RowOf(names, fields) <==> exists j :: 0 <= j < |fields| && j < |names| && names[j] == key
  {
    RowValuesKeys(names, fields, Min(|fields|, |names|));
  }

  /** A column whose name no other column repeats reads its own field of the
      line, or the empty string when the line is too short. */
  lemma RowOfLookup(names: seq<string>, fields: seq<string>, j: nat)
    requires j < |names|
    requires forall l :: 0 <= l < |names| && l != j ==> names[l] != names[j]
    ensures Lookup(RowOf(names, fields), names[j]) == if j < |fields| then fields[j] else ""
  {
    var n := Min(|fields|, |names|);
    if j < |fields| {
      RowValuesLastWins(names, fields, n, j);
    } else {
      RowValuesKeys(names, fields, n);
    }
  }

  /** The length of the longest field at position i over the lines, 0 when no
      line reaches that position. */
  function Widest(records: seq<seq<string>>, i: nat): (r: nat)
    ensures forall k :: 0 <= k < |records| && i < |records[k]| ==> |records[k][i]| <= r
    ensures r == 0 || exists k :: 0 <= k < |records| && i < |records[k]| && |records[k][i]| == r
    decreases |records|
  {
    if |records| == 0 then 0
    else
      var last := records[|records| - 1];
      var w := Widest(records[..|records| - 1], i);
      var c := if i < |last| then |last[i]| else 0;
      if w >= c then w else c
  }

  /** Growing a width over the lines gives the larger of it and the longest
      field at that position. */
  lemma {:induction false} GrowWidthIsMax(width: int, records: seq<seq<string>>, i: nat)
    requires width >= 0
    ensures GrowWidth(width, records, i) == Max(width, Widest(records, i))
    decreases |records|
  {
    if |records| > 0 {
      var init := records[..|records| - 1];
      var last := records[|records| - 1];
      GrowWidthIsMax(width, init, i);
      assert GrowWidth(width, records, i) == Grow(GrowWidth(width, init, i), last, i);
      assert Widest(records, i) == Max(Widest(init, i), if i < |last| then |last[i]| else 0);
    }
  }

  /** Each column's width is the largest of 5, its name's length and the
      length of the longest field read into it. */
  lemma ParseWidths(lines: seq<string>)
    requires HasSeparator(lines)
    ensures forall i :: 0 <= i < |Parse(lines).columns| ==>
      Parse(lines).columns[i].width == Max(Max(|Fields(lines[0])[i]|, 5), Widest(Records(DataLines(lines[2..])), i))
  {
    var records := Records(DataLines(lines[2..]));
    forall i | 0 <= i < |Fields(lines[0])|
      ensures GrowWidth(Max(|Fields(lines[0])[i]|, 5), records, i) == Max(Max(|Fields(lines[0])[i]|, 5), Widest(records, i))
    {
      GrowWidthIsMax(Max(|Fields(lines[0])[i]|, 5), records, i);
    }
  }

  /** A column is at least 5 wide, as wide as its name, and as wide as every
      field read into it. */
  lemma ParseWidthBounds(lines: seq<string>)
    requires HasSeparator(lines)
    ensures forall i :: 0 <= i < |Parse(lines).columns| ==>
      Parse(lines).columns[i].width >= 5 && Parse(lines).columns[i].width >= |Parse(lines).columns[i].name|
    ensures forall k, i :: 0 <= k < |Records(DataLines(lines[2..]))| && 0 <= i < |Parse(lines).columns| && i < |Records(DataLines(lines[2..]))[k]| ==>
      Parse(lines).columns[i].width >= |Records(DataLines(lines[2..]))[k][i]|
  {
    ParseWidths(lines);
  }

  // ---------------------------------------------------------------------------
  // Writing

  /** The public columns: those with a non-empty name, in stored order. */
  function Public(cols: seq<ColumnState>): (r: seq<ColumnState>)
    ensures |r| <= |cols|
    ensures forall i :: 0 <= i < |r| ==> r[i].name != ""
    decreases |cols|
  {
    if |cols| == 0 then []
    else
      var last := cols[|cols| - 1];
      Public(cols[..|cols| - 1]) + (if last.name != "" then [last] else [])
  }

  /** The cells of a line, each a bar, a space, the text and a space. */
  function Cells(texts: seq<string>): string
    decreases |texts|
  {
    if |texts| == 0 then "" else Cells(texts[..|texts| - 1]) + "| " + texts[|texts| - 1] + " "
  }

  /** A whole line: the cells and a closing bar. */
  function RenderLine(texts: seq<string>): string {
    Cells(texts) + "|"
  }

  /** The header cells: each name padded to its column's width. */
  function HeaderTexts(cols: seq<ColumnState>): seq<string> {
    seq(|cols|, p requires 0 <= p < |cols| => PadRight(cols[p].name, cols[p].width))
  }

  /** The separator-row cells: each column's marker. */
  function MarkerTexts(cols: seq<ColumnState>): seq<string> {
    seq(|cols|, p requires 0 <= p < |cols| => Marker(cols[p].alignment, cols[p].width))
  }

  /** A row's cells: each column's value, empty when unset, padded to its width. */
  function RowTexts(cols: seq<ColumnState>, row: map<string, string>): seq<string> {
    seq(|cols|, p requires 0 <= p < |cols| => PadRight(Lookup(row, cols[p].name), cols[p].width))
  }

  /** One line per row, in row order. */
  function RowLines(cols: seq<ColumnState>, rows: seq<map<string, string>>): seq<string> {
    seq(|rows|, r requires 0 <= r < |rows| => RenderLine(RowTexts(cols, rows[r])))
  }

  /** The lines the writer produces: header, separator row, then one line per row. */
  function Serialize(t: TableState): (r: seq<string>)
    ensures |r| == 2 + |t.rows|
  {
    var pub := Public(t.columns);
    [RenderLine(HeaderTexts(pub)), RenderLine(MarkerTexts(pub))] + RowLines(pub, t.rows)
  }

  /** Filtering two runs of columns is filtering each. */
  lemma {:induction false} PublicAppend(a: seq<ColumnState>, b: seq<ColumnState>)
    ensures Public(a + b) == Public(a) + Public(b)
    decreases |b|
  {
    if |b| > 0 {
      var init := b[..|b| - 1];
      var last := b[|b| - 1];
      var kept := if last.name != "" then [last] else [];
      PublicAppend(a, init);
      assert (a + b)[..|a + b| - 1] == a + init;
      assert (a + b)[|a + b| - 1] == last;
      calc {
        Public(a + b);
        Public(a + init) + kept;
        Public(a) + Public(init) + kept;
        Public(a) + (Public(init) + kept);
        Public(a) + Public(b);
      }
    } else {
      assert a + b == a;
    }
  }

  /** The public columns are exactly the stored ones with a name. */
  lemma {:induction false} PublicMembers(cols: seq<ColumnState>)
    ensures forall c :: c in Public(cols) <==> c in cols && c.name != ""
    decreases |cols|
  {
    if |cols| > 0 {
      var init := cols[..|cols| - 1];
      var last := cols[|cols| - 1];
      PublicMembers(init);
      assert cols == init + [last];
    }
  }

  /** Columns that all have a name are all public. */
  lemma {:induction false} PublicAllNamed(cols: seq<ColumnState>)
    requires forall i :: 0 <= i < |cols| ==> cols[i].name != ""
    ensures Public(cols) == cols
    decreases |cols|
  {
    if |cols| > 0 {
      var init := cols[..|cols| - 1];
      PublicAllNamed(init);
      assert Public(cols) == init + [cols[|cols| - 1]];
    }
  }

  /** When no named column repeats the name of an earlier one, the public
      columns have distinct names. */
  lemma {:induction false} PublicDistinct(cols: seq<ColumnState>)
    requires forall j, k :: 0 <= j < k < |cols| && cols[j].name != "" ==> cols[j].name != cols[k].name
    ensures forall i, k :: 0 <= i < k < |Public(cols)| ==> Public(cols)[i].name != Public(cols)[k].name
    decreases |cols|
  {
    if |cols| > 0 {
      var init := cols[..|cols| - 1];
      var last := cols[|cols| - 1];
      PublicDistinct(init);
      PublicMembers(init);
      var pub := Public(init);
      forall i | 0 <= i < |pub|
        ensures pub[i].name != last.name || last.name == ""
      {
        assert pub[i] in init;
        var j :| 0 <= j < |init| && init[j] == pub[i];
        assert cols[j] == pub[i];
      }
    }
  }

  /** The cells of a line as the pieces between its bars. */
  function Pieces(texts: seq<string>): (r: seq<string>)
    ensures |r| == |texts|
  {
    seq(|texts|, i requires 0 <= i < |texts| => " " + texts[i] + " ")
  }

  /** The cells are the pieces, each after a bar. */
  lemma {:induction false} CellsJoin(texts: seq<string>)
    ensures Cells(texts) == Join([""] + Pieces(texts))
    decreases |texts|
  {
    if |texts| > 0 {
      var init := texts[..|texts| - 1];
      var last := texts[|texts| - 1];
      CellsJoin(init);
      JoinSnoc([""] + Pieces(init), " " + last + " ");
      assert [""] + Pieces(texts) == [""] + Pieces(init) + [" " + last + " "];
    } else {
      assert [""] + Pieces(texts) == [""];
    }
  }

  /** A line is the pieces joined with bars, with an empty piece at each end. */
  lemma RenderLineJoin(texts: seq<string>)
    ensures RenderLine(texts) == Join(Framed(Pieces(texts)))
  {
    CellsJoin(texts);
    JoinSnoc([""] + Pieces(texts), "");
    FramedAppend(Pieces(texts));
  }

  /** Reading back a written line: when no text holds a bar, its fields are an
      empty field, the trimmed texts and an empty field. */
  lemma FieldsOfLine(texts: seq<string>, values: seq<string>)
    requires |texts| == |values|
    requires forall i :: 0 <= i < |texts| ==> NoBar(texts[i]) && Trim(Pieces(texts)[i]) == values[i]
    ensures Fields(RenderLine(texts)) == Framed(values)
  {
    var parts := Framed(Pieces(texts));
    var expected := Framed(values);
    PartsNoBar(texts);
    FieldsJoin(parts);
    var fields := Fields(Join(parts));
    forall k | 0 <= k < |parts|
      ensures fields[k] == expected[k]
    {
      if 0 < k <= |texts| {
        assert parts[k] == Pieces(texts)[k - 1];
      }
    }
    assert fields == expected;
    RenderLineJoin(texts);
  }

  /** No piece of a line whose texts hold no bar holds a bar. */
  lemma PartsNoBar(texts: seq<string>)
    requires forall i :: 0 <= i < |texts| ==> NoBar(texts[i])
    ensures forall k :: 0 <= k < |texts| + 2 ==> NoBar(Framed(Pieces(texts))[k])
  {
    var parts := Framed(Pieces(texts));
    forall k | 0 <= k < |parts|
      ensures NoBar(parts[k])
    {
      if 0 < k <= |texts| {
        assert parts[k] == " " + texts[k - 1] + " ";
      }
    }
  }

  /** A written line ends with a bar, so it is never blank. */
  lemma RenderLineNotBlank(texts: seq<string>)
    ensures |RenderLine(texts)| > 0 && RenderLine(texts)[|RenderLine(texts)| - 1] == '|'
    ensures !IsBlank(RenderLine(texts))
  {
  }

  /** The writer emits a header line, a separator line and one line per row;
      each line holds a cell per public column, padded to its width, with the
      empty string for a value the row does not hold. */
  lemma SerializeShape(t: TableState)
    ensures |Serialize(t)| == 2 + |t.rows|
    ensures Serialize(t)[0] == RenderLine(HeaderTexts(Public(t.columns)))
    ensures Serialize(t)[1] == RenderLine(MarkerTexts(Public(t.columns)))
    ensures forall r :: 0 <= r < |t.rows| ==> Serialize(t)[r + 2] == RenderLine(RowTexts(Public(t.columns), t.rows[r]))
    ensures forall r, p :: 0 <= r < |t.rows| && 0 <= p < |Public(t.columns)| ==>
      RowTexts(Public(t.columns), t.rows[r])[p] == PadRight(Lookup(t.rows[r], Public(t.columns)[p].name), Public(t.columns)[p].width)
  {
  }

  // ---------------------------------------------------------------------------
  // The objects

  /** The values of a sequence of columns. */
  ghost function StatesOf(cs: seq<Column>): (r: seq<ColumnState>)
    reads cs
    ensures |r| == |cs|
    ensures forall i :: 0 <= i < |cs| ==> r[i] == cs[i].State()
    decreases |cs|
  {
    if |cs| == 0 then [] else StatesOf(cs[..|cs| - 1]) + [cs[|cs| - 1].State()]
  }

  /** The maps of a sequence of rows. */
  ghost function ValuesOf(rs: seq<Row>): (r: seq<map<string, string>>)
    reads rs
    ensures |r| == |rs|
    ensures forall i :: 0 <= i < |rs| ==> r[i] == rs[i].values
    decreases |rs|
  {
    if |rs| == 0 then [] else ValuesOf(rs[..|rs| - 1]) + [rs[|rs| - 1].values]
  }

  /** The columns with a non-empty name, in order. */
  function NamedColumns(cs: seq<Column>): (r: seq<Column>)
    reads cs
    ensures |r| <= |cs|
    ensures forall i :: 0 <= i < |r| ==> r[i] in cs && r[i].name != ""
    ensures forall i :: 0 <= i < |cs| && cs[i].name != "" ==> cs[i] in r
    decreases |cs|
  {
    if |cs| == 0 then []
    else
      var last := cs[|cs| - 1];
      NamedColumns(cs[..|cs| - 1]) + (if last.name != "" then [last] else [])
  }

  /** The values of two runs of columns side by side. */
  lemma StatesOfAppend(a: seq<Column>, b: seq<Column>)
    ensures StatesOf(a + b) == StatesOf(a) + StatesOf(b)
  {
  }

  /** The named columns have as values the public columns of the values. */
  lemma {:induction false} NamedColumnsStates(cs: seq<Column>)
    ensures StatesOf(NamedColumns(cs)) == Public(StatesOf(cs))
    decreases |cs|
  {
    if |cs| > 0 {
      var init := cs[..|cs| - 1];
      var last := cs[|cs| - 1];
      var kept := if last.name != "" then [last] else [];
      NamedColumnsStates(init);
      var states := StatesOf(cs);
      assert states[..|cs| - 1] == StatesOf(init);
      assert states[|cs| - 1] == last.State();
      assert Public(states) == Public(StatesOf(init)) + (if last.name != "" then [last.State()] else []);
      assert NamedColumns(cs) == NamedColumns(init) + kept;
      StatesOfAppend(NamedColumns(init), kept);
    }
  }


  /** Columns whose values are, one by one, those of a sequence. */
  lemma StatesOfEach(cs: seq<Column>, states: seq<ColumnState>)
    requires Hold(cs, states)
    ensures StatesOf(cs) == states
  {
  }

  /** Rows whose maps are, one by one, those of a sequence. */
  lemma ValuesOfEach(rs: seq<Row>, values: seq<map<string, string>>)
    requires HoldValues(rs, values)
    ensures ValuesOf(rs) == values
  {
  }

  /** No object occurs twice. */
  ghost predicate Distinct<T>(s: seq<T>) {
    forall i, j :: 0 <= i < j < |s| ==> s[i] != s[j]
  }

  /** The columns hold, one by one, the given values. */
  ghost predicate Hold(columns: seq<Column>, states: seq<ColumnState>)
    reads columns
  {
    |columns| == |states| && forall j :: 0 <= j < |columns| ==> columns[j].State() == states[j]
  }

  /** The rows hold, one by one, the given maps. */
  ghost predicate HoldValues(rows: seq<Row>, values: seq<map<string, string>>)
    reads rows
  {
    |rows| == |values| && forall r :: 0 <= r < |rows| ==> rows[r].values == values[r]
  }

  class Table {
    var columns: seq<Column>
    var rows: seq<Row>

    /** Each column is a separate object, so widening one leaves the others alone. */
    ghost predicate Valid()
      reads this
    {
      Distinct(columns)
    }

    /** The table's current value. */
    ghost function State(): TableState
      reads this, columns, rows
    {
      TableState(StatesOf(columns), ValuesOf(rows))
    }

    /** Reads a table from the lines of a file. */
    constructor (lines: seq<string>)
      ensures Valid()
      ensures forall i :: 0 <= i < |columns| ==> fresh(columns[i])
      ensures forall r :: 0 <= r < |rows| ==> fresh(rows[r])
      ensures State() == Parse(lines)
    {
      var cs, rs := ReadTable(lines);
      columns := cs;
      rows := rs;
      new;
      StatesOfEach(columns, Parse(lines).columns);
      ValuesOfEach(rows, Parse(lines).rows);
    }

    /** The public columns: the stored ones with a non-empty name. */
    function Columns(): (r: seq<Column>)
      reads this, columns
      requires Valid()
      ensures forall i :: 0 <= i < |r| ==> r[i] in columns && r[i].name != ""
      ensures forall i :: 0 <= i < |columns| && columns[i].name != "" ==> columns[i] in r
      ensures StatesOf(r) == Public(State().columns)
    {
      NamedColumnsStates(columns);
      NamedColumns(columns)
    }

    /** Writes the table: a header line, a separator line and one line per row. */
    method SaveAs() returns (lines: seq<string>)
      requires Valid()
      ensures lines == Serialize(State())
    {
      ghost var t := State();
      var pub := Columns();
      ghost var cols := Public(t.columns);
      HoldStates(pub);
      HoldValuesOf(rows);
      lines := WriteLines(pub, rows, cols, t.rows);
      SerializeOf(t, cols, t.rows);
    }
  }

  /** The header line, the separator line and the row lines, for the given
      public columns. */
  method WriteLines(pub: seq<Column>, rows: seq<Row>, ghost cols: seq<ColumnState>, ghost values: seq<map<string, string>>)
    returns (lines: seq<string>)
    requires Hold(pub, cols) && HoldValues(rows, values)
    ensures lines == [RenderLine(HeaderTexts(cols)), RenderLine(MarkerTexts(cols))] + RowLines(cols, values)
  {
    var header := HeaderLine(pub, cols);
    var separator := SeparatorLine(pub, cols);
    var body := RowLinesOf(rows, pub, cols, values);
    lines := [header, separator] + body;
  }

  /** One line per row, each row's cells in the order of the public columns. */
  method RowLinesOf(rows: seq<Row>, pub: seq<Column>, ghost cols: seq<ColumnState>, ghost values: seq<map<string, string>>)
    returns (lines: seq<string>)
    requires Hold(pub, cols) && HoldValues(rows, values)
    ensures lines == RowLines(cols, values)
  {
    lines := [];
    for r := 0 to |rows|
      invariant lines == RowLines(cols, values[..r])
    {
      var line := RowLine(rows[r], pub, cols);
      RowLinesStep(cols, values, r);
      lines := lines + [line];
    }
    assert values[..|rows|] == values;
  }

  /** The lines of a table, given its public columns and its rows. */
  lemma SerializeOf(t: TableState, cols: seq<ColumnState>, values: seq<map<string, string>>)
    requires cols == Public(t.columns) && values == t.rows
    ensures Serialize(t) == [RenderLine(HeaderTexts(cols)), RenderLine(MarkerTexts(cols))] + RowLines(cols, values)
  {
  }

  /** Rows hold their own maps. */
  lemma HoldValuesOf(rs: seq<Row>)
    ensures HoldValues(rs, ValuesOf(rs))
  {
  }

  /** Columns hold their own values. */
  lemma HoldStates(cs: seq<Column>)
    ensures Hold(cs, StatesOf(cs))
  {
  }

  /** The lines of one more row. */
  lemma RowLinesStep(cols: seq<ColumnState>, rows: seq<map<string, string>>, r: nat)
    requires r < |rows|
    ensures RowLines(cols, rows[..r + 1]) == RowLines(cols, rows[..r]) + [RenderLine(RowTexts(cols, rows[r]))]
  {
    assert rows[..r + 1][..r] == rows[..r];
  }

  /** Reads the header line, the separator line and the data lines into new
      column and row objects holding the parsed table. */
  method ReadTable(lines: seq<string>) returns (columns: seq<Column>, rows: seq<Row>)
    ensures forall i :: 0 <= i < |columns| ==> fresh(columns[i])
    ensures forall r :: 0 <= r < |rows| ==> fresh(rows[r])
    ensures Distinct(columns)
    ensures Hold(columns, Parse(lines).columns) && HoldValues(rows, Parse(lines).rows)
  {
    columns := [];
    rows := [];
    if |lines| == 0 || IsBlank(lines[0]) {
      return;
    }
    var headers := Fields(lines[0]);
    columns := NewColumns(headers);
    if |lines| == 1 || IsBlank(lines[1]) {
      return;
    }
    var alignments := Fields(lines[1]);
    if |alignments| != |columns| {
      return;
    }
    ghost var header := HeaderColumns(headers);
    SetAlignments(columns, alignments, header);
    ghost var aligned := Aligned(header, alignments);
    assert Names(aligned) == Names(header);
    rows := ReadRows(columns, lines[2..], aligned);
  }

  /** One new column per header field, named after it, with the default
      alignment and a width of the name's length but at least 5. */
  method NewColumns(headers: seq<string>) returns (columns: seq<Column>)
    ensures forall i :: 0 <= i < |columns| ==> fresh(columns[i])
    ensures Distinct(columns) && Hold(columns, HeaderColumns(headers))
  {
    columns := [];
    for h := 0 to |headers|
      invariant forall i :: 0 <= i < |columns| ==> fresh(columns[i])
      invariant Distinct(columns) && Hold(columns, HeaderColumns(headers)[..h])
    {
      var column := new Column();
      column.name := headers[h];
      column.width := Max(|headers[h]|, 5);
      columns := columns + [column];
    }
  }

  /** Gives each column the alignment its separator-row field declares. */
  method SetAlignments(columns: seq<Column>, alignments: seq<string>, ghost before: seq<ColumnState>)
    requires |alignments| == |columns|
    requires Distinct(columns) && Hold(columns, before)
    requires forall j :: 0 <= j < |before| ==> before[j].alignment == Unspecified
    modifies columns
    ensures Hold(columns, Aligned(before, alignments))
  {
    for i := 0 to |alignments|
      invariant forall j :: 0 <= j < |columns| ==> columns[j].name == before[j].name && columns[j].width == before[j].width
      invariant forall j :: 0 <= j < i ==> columns[j].alignment == ParseMarker(alignments[j])
      invariant forall j :: i <= j < |columns| ==> columns[j].alignment == Unspecified
    {
      var startsWith := |alignments[i]| > 0 && alignments[i][0] == ':';
      var endsWith := |alignments[i]| > 0 && alignments[i][|alignments[i]| - 1] == ':';
      if startsWith && endsWith {
        columns[i].alignment := Center;
      } else if startsWith {
        columns[i].alignment := Left;
      } else if endsWith {
        columns[i].alignment := Right;
      }
    }
  }

  /** Reads the fields of one data line into a new row, storing each under the
      name of the column at its position and widening that column to fit it. */
  method ReadRow(columns: seq<Column>, dataEntries: seq<string>, ghost before: seq<ColumnState>) returns (row: Row)
    requires Distinct(columns) && Hold(columns, before)
    modifies columns
    ensures fresh(row)
    ensures row.values == RowOf(Names(before), dataEntries)
    ensures Hold(columns, GrowColumns(before, dataEntries))
  {
    ghost var names := Names(before);
    row := new Row();
    for i := 0 to Min(|dataEntries|, |columns|)
      invariant fresh(row)
      invariant forall j :: 0 <= j < |columns| ==> columns[j].name == before[j].name && columns[j].alignment == before[j].alignment
      invariant forall j :: 0 <= j < i ==> columns[j].width == Grow(before[j].width, dataEntries, j)
      invariant forall j :: i <= j < |columns| ==> columns[j].width == before[j].width
      invariant row.values == RowValues(names, dataEntries, i)
    {
      StoreField(row, columns[i], dataEntries[i]);
    }
  }

  /** Stores one field of a data line under its column's name and widens the
      column when the field is longer. */
  method StoreField(row: Row, column: Column, entry: string)
    modifies row, column
    ensures row.values == old(row.values)[column.name := entry]
    ensures column.State() == old(column.State()).(width := if old(column.width) < |entry| then |entry| else old(column.width))
  {
    row.SetValue(column.name, entry);
    if column.width < |entry| {
      column.width := |entry|;
    }
  }

  /** Reading data line k after the first k: the columns grow to fit its
      fields and its row is added. */
  lemma ReadStep(before: seq<ColumnState>, records: seq<seq<string>>, k: nat)
    requires k < |records|
    ensures Names(Widened(before, records[..k])) == Names(before)
    ensures Widened(before, records[..k + 1]) == GrowColumns(Widened(before, records[..k]), records[k])
    ensures RowsOf(Names(before), records[..k + 1]) == RowsOf(Names(before), records[..k]) + [RowOf(Names(before), records[k])]
  {
    assert records[..k + 1] == records[..k] + [records[k]];
    WidenedSnoc(before, records[..k], records[k]);
  }

  /** Rows holding their maps, and one more row. */
  lemma HoldValuesSnoc(rows: seq<Row>, values: seq<map<string, string>>, row: Row)
    requires HoldValues(rows, values)
    ensures HoldValues(rows + [row], values + [row.values])
  {
  }

  /** Whether line k is still a data line. */
  lemma DataLinesAt(lines: seq<string>, k: int)
    requires 0 <= k <= |DataLines(lines)|
    ensures k < |DataLines(lines)| <==> k < |lines| && !IsBlank(lines[k])
    ensures k < |DataLines(lines)| ==> DataLines(lines)[k] == lines[k]
  {
  }

  /** Reads the data lines, up to the first blank one, into new rows, widening
      the columns to fit their fields. */
  method ReadRows(columns: seq<Column>, rest: seq<string>, ghost before: seq<ColumnState>) returns (rows: seq<Row>)
    requires Distinct(columns) && Hold(columns, before)
    modifies columns
    ensures forall r :: 0 <= r < |rows| ==> fresh(rows[r])
    ensures Hold(columns, Widened(before, Records(DataLines(rest))))
    ensures HoldValues(rows, RowsOf(Names(before), Records(DataLines(rest))))
  {
    ghost var records := Records(DataLines(rest));
    rows := [];
    var k := 0;
    while k < |rest| && !IsBlank(rest[k])
      invariant k <= |records|
      invariant forall r :: 0 <= r < |rows| ==> fresh(rows[r])
      invariant Hold(columns, Widened(before, records[..k]))
      invariant HoldValues(rows, RowsOf(Names(before), records[..k]))
    {
      DataLinesAt(rest, k);
      var dataEntries := Fields(rest[k]);
      ReadStep(before, records, k);
      var row := ReadRow(columns, dataEntries, Widened(before, records[..k]));
      HoldValuesSnoc(rows, RowsOf(Names(before), records[..k]), row);
      rows := rows + [row];
      k := k + 1;
    }
    DataLinesAt(rest, k);
    assert records[..k] == records;
  }

  /** The header line: each public column's name padded to its width. */
  method HeaderLine(pub: seq<Column>, ghost cols: seq<ColumnState>) returns (line: string)
    requires Hold(pub, cols)
    ensures line == RenderLine(HeaderTexts(cols))
  {
    ghost var texts := HeaderTexts(cols);
    line := "";
    for j := 0 to |pub|
      invariant line == Cells(texts[..j])
    {
      CellsStep(texts, j);
      line := line + "| " + PadRight(pub[j].name, pub[j].width) + " ";
    }
    assert texts[..|pub|] == texts;
    line := line + "|";
  }

  /** The separator line: each public column's marker. */
  method SeparatorLine(pub: seq<Column>, ghost cols: seq<ColumnState>) returns (line: string)
    requires Hold(pub, cols)
    ensures line == RenderLine(MarkerTexts(cols))
  {
    ghost var texts := MarkerTexts(cols);
    line := "";
    for j := 0 to |pub|
      invariant line == Cells(texts[..j])
    {
      CellsStep(texts, j);
      var marker := RenderMarker(pub[j].alignment, pub[j].width);
      line := line + "| " + marker + " ";
    }
    assert texts[..|pub|] == texts;
    line := line + "|";
  }

  /** A row's line: each public column's value in the row, or the empty
      string, padded to the column's width. */
  method RowLine(row: Row, pub: seq<Column>, ghost cols: seq<ColumnState>) returns (line: string)
    requires Hold(pub, cols)
    ensures line == RenderLine(RowTexts(cols, row.values))
  {
    ghost var texts := RowTexts(cols, row.values);
    line := "";
    for j := 0 to |pub|
      invariant line == Cells(texts[..j])
    {
      CellsStep(texts, j);
      line := line + "| " + PadRight(row.GetValue(pub[j].name), pub[j].width) + " ";
    }
    assert texts[..|pub|] == texts;
    line := line + "|";
  }

  /** Appending one more cell to a line. */
  lemma CellsStep(texts: seq<string>, j: nat)
    requires j < |texts|
    ensures Cells(texts[..j + 1]) == Cells(texts[..j]) + "| " + texts[j] + " "
  {
    assert texts[..j + 1][..j] == texts[..j];
  }
}
