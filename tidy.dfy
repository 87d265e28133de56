/** Tidying a file: reading it and writing it back. Once a file has been
    tidied, tidying it again changes nothing, provided its header names are
    distinct (empty placeholder names apart). */
module Tidy {
  import opened Strings
  import opened Columns
  import opened Rows
  import opened Tables

  /** No two header fields share a non-empty name. */
  predicate DistinctHeader(lines: seq<string>) {
    |lines| > 0 ==>
      var names := Fields(lines[0]);
      forall j, k :: 0 <= j < k < |names| && names[j] != "" ==> names[j] != names[k]
  }

  /** The length of the longest value the rows hold for a name, 0 when none. */
  function WidestValue(rows: seq<map<string, string>>, name: string): (r: nat)
    ensures forall k :: 0 <= k < |rows| ==> |Lookup(rows[k], name)| <= r
    ensures r == 0 || exists k :: 0 <= k < |rows| && |Lookup(rows[k], name)| == r
    decreases |rows|
  {
    if |rows| == 0 then 0
    else
      var w := WidestValue(rows[..|rows| - 1], name);
      var c := |Lookup(rows[|rows| - 1], name)|;
      if w >= c then w else c
  }

  /** The values a row holds for the given names, the empty string for a
      missing one. */
  function Values(row: map<string, string>, names: seq<string>): (r: seq<string>)
    ensures |r| == |names|
  {
    seq(|names|, i requires 0 <= i < |names| => Lookup(row, names[i]))
  }

  /** A table the writer and the reader agree on: distinct public names, no
      name or value with surrounding white space or a bar, and each public
      column exactly as wide as the larger of 5, its name and its longest
      value. */
  predicate Consistent(t: TableState) {
    var pub := Public(t.columns);
    (forall i, k :: 0 <= i < k < |pub| ==> pub[i].name != pub[k].name) &&
    (forall i :: 0 <= i < |pub| ==>
      IsClean(pub[i].name) && pub[i].width == Max(Max(|pub[i].name|, 5), WidestValue(t.rows, pub[i].name))) &&
    (forall r, i :: 0 <= r < |t.rows| && 0 <= i < |pub| ==> IsClean(Lookup(t.rows[r], pub[i].name)))
  }

  // ---------------------------------------------------------------------------
  // A table read from a file is consistent

  /** The widest value under a name is the widest field at the position that
      name is read from. */
  lemma {:induction false} WidestOfColumn(records: seq<seq<string>>, rows: seq<map<string, string>>, name: string, j: nat)
    requires |records| == |rows|
    requires forall k :: 0 <= k < |rows| ==> Lookup(rows[k], name) == if j < |records[k]| then records[k][j] else ""
    ensures WidestValue(rows, name) == Widest(records, j)
    decreases |rows|
  {
    if |rows| > 0 {
      var n := |rows| - 1;
      forall k | 0 <= k < n
        ensures Lookup(rows[..n][k], name) == if j < |records[..n][k]| then records[..n][k][j] else ""
      {
        assert rows[..n][k] == rows[k] && records[..n][k] == records[k];
      }
      WidestOfColumn(records[..n], rows[..n], name, j);
    }
  }

  /** Consistency from facts about the stored columns one by one. */
  lemma ConsistentOfStored(t: TableState)
    requires forall j, k :: 0 <= j < k < |t.columns| && t.columns[j].name != "" ==> t.columns[j].name != t.columns[k].name
    requires forall j :: 0 <= j < |t.columns| && t.columns[j].name != "" ==>
      IsClean(t.columns[j].name) &&
      t.columns[j].width == Max(Max(|t.columns[j].name|, 5), WidestValue(t.rows, t.columns[j].name)) &&
      forall r :: 0 <= r < |t.rows| ==> IsClean(Lookup(t.rows[r], t.columns[j].name))
    ensures Consistent(t)
  {
    var pub := Public(t.columns);
    PublicDistinct(t.columns);
    PublicMembers(t.columns);
    forall i | 0 <= i < |pub|
      ensures IsClean(pub[i].name) && pub[i].width == Max(Max(|pub[i].name|, 5), WidestValue(t.rows, pub[i].name))
      ensures forall r :: 0 <= r < |t.rows| ==> IsClean(Lookup(t.rows[r], pub[i].name))
    {
      assert pub[i] in t.columns;
      var j :| 0 <= j < |t.columns| && t.columns[j] == pub[i];
    }
  }

  /** A header name no other header field repeats. */
  lemma UniqueName(lines: seq<string>, j: nat)
    requires DistinctHeader(lines) && |lines| > 0
    requires j < |Fields(lines[0])| && Fields(lines[0])[j] != ""
    ensures forall l :: 0 <= l < |Fields(lines[0])| && l != j ==> Fields(lines[0])[l] != Fields(lines[0])[j]
  {
  }

  /** With a separator line, a named column of the table read is as wide as
      the larger of 5, its name and its longest value, and holds only clean
      values. */
  lemma ParsedColumn(lines: seq<string>, j: nat)
    requires DistinctHeader(lines) && HasSeparator(lines)
    requires j < |Fields(lines[0])| && Fields(lines[0])[j] != ""
    ensures j < |Parse(lines).columns| && Parse(lines).columns[j].name == Fields(lines[0])[j]
    ensures Parse(lines).columns[j].width == Max(Max(|Fields(lines[0])[j]|, 5), WidestValue(Parse(lines).rows, Fields(lines[0])[j]))
    ensures forall r :: 0 <= r < |Parse(lines).rows| ==> IsClean(Lookup(Parse(lines).rows[r], Fields(lines[0])[j]))
  {
    var names := Fields(lines[0]);
    var records := Records(DataLines(lines[2..]));
    var rows := RowsOf(names, records);
    ParseHeader(lines);
    ParseWidths(lines);
    ParseRowsOf(lines);
    UniqueName(lines, j);
    forall k | 0 <= k < |rows|
      ensures Lookup(rows[k], names[j]) == if j < |records[k]| then records[k][j] else ""
    {
      RowOfLookup(names, records[k], j);
    }
    WidestOfColumn(records, rows, names[j], j);
  }

  /** The table read from a file whose header names are distinct is consistent. */
  lemma ParseConsistent(lines: seq<string>)
    requires DistinctHeader(lines)
    ensures Consistent(Parse(lines))
  {
    var t := Parse(lines);
    if |lines| == 0 || IsBlank(lines[0]) {
      assert t.columns == [];
    } else if !HasSeparator(lines) {
      ParseLenient(lines);
      ParseHeader(lines);
      ConsistentOfStored(t);
    } else {
      ParseHeader(lines);
      forall j | 0 <= j < |t.columns| && t.columns[j].name != ""
        ensures t.columns[j].width == Max(Max(|t.columns[j].name|, 5), WidestValue(t.rows, t.columns[j].name))
        ensures forall r :: 0 <= r < |t.rows| ==> IsClean(Lookup(t.rows[r], t.columns[j].name))
      {
        ParsedColumn(lines, j);
      }
      ConsistentOfStored(t);
    }
  }

  // ---------------------------------------------------------------------------
  // Reading back what was written

  /** The header line reads back as the public names between two empty fields. */
  lemma ReparseHeader(t: TableState)
    requires Consistent(t)
    ensures Fields(Serialize(t)[0]) == Framed(Names(Public(t.columns)))
  {
    var pub := Public(t.columns);
    SerializeShape(t);
    forall i | 0 <= i < |pub|
      ensures NoBar(HeaderTexts(pub)[i]) && Trim(Pieces(HeaderTexts(pub))[i]) == Names(pub)[i]
    {
      assert Pieces(HeaderTexts(pub))[i] == " " + PadRight(pub[i].name, pub[i].width) + " ";
      PadRightNoBar(pub[i].name, pub[i].width);
      PaddedCellTrims(pub[i].name, pub[i].width);
    }
    FieldsOfLine(HeaderTexts(pub), Names(pub));
  }

  /** The separator line reads back as the markers between two empty fields. */
  lemma ReparseSeparator(t: TableState)
    ensures Fields(Serialize(t)[1]) == Framed(MarkerTexts(Public(t.columns)))
  {
    var pub := Public(t.columns);
    var texts := MarkerTexts(pub);
    SerializeShape(t);
    forall i | 0 <= i < |pub|
      ensures NoBar(texts[i]) && Trim(Pieces(texts)[i]) == texts[i]
    {
      var m := texts[i];
      assert Pieces(texts)[i] == " " + m + " ";
      assert m == Marker(pub[i].alignment, pub[i].width);
      assert IsTrimmed(m);
      TrimSurrounded(" ", m, " ");
    }
    FieldsOfLine(texts, texts);
  }

  /** A row line reads back as the row's values for the public names between
      two empty fields. */
  lemma ReparseRow(t: TableState, r: nat)
    requires Consistent(t) && r < |t.rows|
    ensures Fields(Serialize(t)[r + 2]) == Framed(Values(t.rows[r], Names(Public(t.columns))))
  {
    var pub := Public(t.columns);
    var values := Values(t.rows[r], Names(pub));
    SerializeShape(t);
    forall i | 0 <= i < |pub|
      ensures NoBar(RowTexts(pub, t.rows[r])[i]) && Trim(Pieces(RowTexts(pub, t.rows[r]))[i]) == values[i]
    {
      assert Pieces(RowTexts(pub, t.rows[r]))[i] == " " + PadRight(values[i], pub[i].width) + " ";
      PadRightNoBar(values[i], pub[i].width);
      PaddedCellTrims(values[i], pub[i].width);
    }
    FieldsOfLine(RowTexts(pub, t.rows[r]), values);
  }

  /** Every written line is a data line. */
  lemma {:induction false} DataEndAll(lines: seq<string>, from: nat)
    requires from <= |lines|
    requires forall k :: 0 <= k < |lines| ==> !IsBlank(lines[k])
    ensures DataEnd(lines, from) == |lines|
    decreases |lines| - from
  {
    if from < |lines| {
      DataEndAll(lines, from + 1);
    }
  }

  /** A name found only at position j of the names. */
  predicate OnlyAt(names: seq<string>, j: nat) {
    j < |names| && forall l :: 0 <= l < |names| && l != j ==> names[l] != names[j]
  }

  /** The written file has a well-formed separator line. */
  lemma WrittenSeparator(t: TableState)
    requires Consistent(t)
    ensures HasSeparator(Serialize(t))
  {
    SerializeShape(t);
    ReparseHeader(t);
    ReparseSeparator(t);
    RenderLineNotBlank(HeaderTexts(Public(t.columns)));
    RenderLineNotBlank(MarkerTexts(Public(t.columns)));
  }

  /** All the written lines after the separator line are data lines, one per row. */
  lemma WrittenData(t: TableState)
    ensures DataLines(Serialize(t)[2..]) == Serialize(t)[2..]
    ensures |Serialize(t)[2..]| == |t.rows|
  {
    var data := Serialize(t)[2..];
    SerializeShape(t);
    forall k | 0 <= k < |data|
      ensures !IsBlank(data[k])
    {
      RenderLineNotBlank(RowTexts(Public(t.columns), t.rows[k]));
    }
    DataEndAll(data, 0);
  }

  /** The fields read from the data line of row k. */
  lemma WrittenRecord(t: TableState, k: nat)
    requires Consistent(t) && k < |t.rows|
    ensures |Records(DataLines(Serialize(t)[2..]))| == |t.rows|
    ensures Records(DataLines(Serialize(t)[2..]))[k] == Framed(Values(t.rows[k], Names(Public(t.columns))))
  {
    var data := Serialize(t)[2..];
    WrittenData(t);
    assert data[k] == Serialize(t)[k + 2];
    ReparseRow(t, k);
  }

  /** The fields a reader finds on the data lines written for the rows. */
  function WrittenRecords(t: TableState): seq<seq<string>> {
    seq(|t.rows|, k requires 0 <= k < |t.rows| => Framed(Values(t.rows[k], Names(Public(t.columns)))))
  }

  /** The data lines written read back as the rows' values for the public
      names between two empty fields. */
  lemma WrittenRecordsOf(t: TableState)
    requires Consistent(t)
    ensures Records(DataLines(Serialize(t)[2..])) == WrittenRecords(t)
  {
    WrittenData(t);
    forall k | 0 <= k < |t.rows|
      ensures Records(DataLines(Serialize(t)[2..]))[k] == WrittenRecords(t)[k]
    {
      WrittenRecord(t, k);
    }
  }

  /** Field i + 1 of the data line of row k is the row's value for public
      column i. */
  lemma WrittenCell(t: TableState, k: nat, i: nat)
    requires k < |t.rows| && i < |Public(t.columns)|
    ensures i + 1 < |WrittenRecords(t)[k]|
    ensures WrittenRecords(t)[k][i + 1] == Lookup(t.rows[k], Public(t.columns)[i].name)
  {
    var values := Values(t.rows[k], Names(Public(t.columns)));
    assert Framed(values)[i + 1] == values[i];
  }

  /** The header written for the public columns: placeholders at both ends,
      public name i at position i + 1 and nowhere else. */
  lemma FramedName(pub: seq<ColumnState>, i: nat)
    requires i < |pub|
    requires forall a, b :: 0 <= a < b < |pub| ==> pub[a].name != pub[b].name
    requires forall a :: 0 <= a < |pub| ==> pub[a].name != ""
    ensures |Framed(Names(pub))| == |pub| + 2
    ensures Framed(Names(pub))[i + 1] == pub[i].name
    ensures OnlyAt(Framed(Names(pub)), i + 1)
  {
    var names := Framed(Names(pub));
    forall l | 0 <= l < |names| && l != i + 1
      ensures names[l] != names[i + 1]
    {
      if 0 < l < |names| - 1 {
        assert names[l] == pub[l - 1].name;
      }
    }
  }

  /** With a separator line, column j is as wide as the larger of 5, its
      header field and the widest field at position j of the data lines. */
  lemma ParsedWidthAt(lines: seq<string>, j: nat)
    requires HasSeparator(lines) && j < |Fields(lines[0])|
    ensures |Parse(lines).columns| == |Fields(lines[0])|
    ensures Parse(lines).columns[j].width == Max(Max(|Fields(lines[0])[j]|, 5), Widest(Records(DataLines(lines[2..])), j))
  {
    ParseHeader(lines);
    ParseWidths(lines);
  }

  /** The widest field at position i + 1 of the data lines written is the
      widest value of public column i. */
  lemma WrittenColumn(t: TableState, i: nat)
    requires i < |Public(t.columns)|
    ensures Widest(WrittenRecords(t), i + 1) == WidestValue(t.rows, Public(t.columns)[i].name)
  {
    var records := WrittenRecords(t);
    forall k | 0 <= k < |t.rows|
      ensures Lookup(t.rows[k], Public(t.columns)[i].name) == if i + 1 < |records[k]| then records[k][i + 1] else ""
    {
      WrittenCell(t, k, i);
    }
    WidestOfColumn(records, t.rows, Public(t.columns)[i].name, i + 1);
  }

  /** The width read back for public column i is its width. */
  lemma ReparsedWidth(t: TableState, i: nat)
    requires Consistent(t) && i < |Public(t.columns)|
    ensures |Parse(Serialize(t)).columns| == |Public(t.columns)| + 2
    ensures Parse(Serialize(t)).columns[i + 1].width == Public(t.columns)[i].width
  {
    var pub := Public(t.columns);
    assert |Fields(Serialize(t)[0])| == |pub| + 2 && Fields(Serialize(t)[0])[i + 1] == pub[i].name by {
      ReparseHeader(t);
      FramedName(pub, i);
    }
    assert Widest(Records(DataLines(Serialize(t)[2..])), i + 1) == WidestValue(t.rows, pub[i].name) by {
      WrittenRecordsOf(t);
      WrittenColumn(t, i);
    }
    assert |Parse(Serialize(t)).columns| == |pub| + 2 &&
      Parse(Serialize(t)).columns[i + 1].width == Max(Max(|pub[i].name|, 5), WidestValue(t.rows, pub[i].name)) by {
      WrittenSeparator(t);
      ParsedWidthAt(Serialize(t), i + 1);
    }
  }

  /** Public column i is read back as itself, one position further on. */
  lemma ReparsedColumn(t: TableState, i: nat)
    requires Consistent(t) && i < |Public(t.columns)|
    ensures |Parse(Serialize(t)).columns| == |Public(t.columns)| + 2
    ensures Parse(Serialize(t)).columns[i + 1] == Public(t.columns)[i]
  {
    var pub := Public(t.columns);
    var s := Serialize(t);
    var c2 := Parse(s).columns;
    WrittenSeparator(t);
    ReparseHeader(t);
    ReparseSeparator(t);
    ParseHeader(s);
    ParseAlignments(s);
    assert c2[i + 1].name == Fields(s[0])[i + 1] == pub[i].name;
    assert Fields(s[1])[i + 1] == Marker(pub[i].alignment, pub[i].width);
    MarkerRoundTrip(pub[i].alignment, pub[i].width);
    ReparsedWidth(t, i);
  }

  /** An unnamed first column is not public. */
  lemma {:induction false} PublicDropFirst(cols: seq<ColumnState>)
    requires |cols| > 0 && cols[0].name == ""
    ensures Public(cols) == Public(cols[1..])
    decreases |cols|
  {
    if |cols| > 1 {
      var init := cols[..|cols| - 1];
      PublicDropFirst(init);
      assert init[1..] == cols[1..][..|cols[1..]| - 1];
    } else {
      assert cols[..0] == [];
    }
  }

  /** Columns holding the given ones from position 1 on hold them as a slice. */
  lemma Inner(cols: seq<ColumnState>, pub: seq<ColumnState>)
    requires |cols| == |pub| + 2
    requires forall i :: 0 <= i < |pub| ==> cols[i + 1] == pub[i]
    ensures cols[1..|pub| + 1] == pub
  {
  }

  /** Columns that frame the given named ones between two unnamed ones have
      exactly those as public columns. */
  lemma PublicFramed(cols: seq<ColumnState>, pub: seq<ColumnState>)
    requires |cols| == |pub| + 2 && cols[0].name == "" && cols[|pub| + 1].name == ""
    requires cols[1..|pub| + 1] == pub
    requires forall i :: 0 <= i < |pub| ==> pub[i].name != ""
    ensures Public(cols) == pub
  {
    var inner := cols[..|pub| + 1];
    assert Public(cols) == Public(inner) by {
      assert cols[..|cols| - 1] == inner;
    }
    assert inner[1..] == pub;
    PublicDropFirst(inner);
    PublicAllNamed(pub);
  }

  /** The columns read back from the written file start and end with an
      unnamed one. */
  lemma ReparsedEnds(t: TableState)
    requires Consistent(t)
    ensures |Parse(Serialize(t)).columns| == |Public(t.columns)| + 2
    ensures Parse(Serialize(t)).columns[0].name == ""
    ensures Parse(Serialize(t)).columns[|Public(t.columns)| + 1].name == ""
  {
    var s := Serialize(t);
    WrittenSeparator(t);
    ReparseHeader(t);
    ParseHeader(s);
    assert Parse(s).columns[0].name == Fields(s[0])[0];
    assert Parse(s).columns[|Public(t.columns)| + 1].name == Fields(s[0])[|Public(t.columns)| + 1];
  }

  /** Reading the written file gives back the public columns. */
  lemma ReparseColumns(t: TableState)
    requires Consistent(t)
    ensures Public(Parse(Serialize(t)).columns) == Public(t.columns)
  {
    var pub := Public(t.columns);
    var c2 := Parse(Serialize(t)).columns;
    ReparsedEnds(t);
    forall i | 0 <= i < |pub|
      ensures c2[i + 1] == pub[i]
    {
      ReparsedColumn(t, i);
    }
    Inner(c2, pub);
    PublicFramed(c2, pub);
  }

  /** Reading a file whose header holds a name only at position j: row k
      holds field j of its data line under that name. */
  lemma FramedLookup(lines: seq<string>, name: string, k: nat, j: nat)
    requires HasSeparator(lines) && OnlyAt(Fields(lines[0]), j) && Fields(lines[0])[j] == name
    requires k < |Records(DataLines(lines[2..]))| && j < |Records(DataLines(lines[2..]))[k]|
    ensures |Parse(lines).rows| == |Records(DataLines(lines[2..]))|
    ensures Lookup(Parse(lines).rows[k], name) == Records(DataLines(lines[2..]))[k][j]
  {
    var records := Records(DataLines(lines[2..]));
    var names := Fields(lines[0]);
    ParseRowsOf(lines);
    RowOfLookup(names, records[k], j);
  }

  /** The header written holds public name i at position i + 1 only. */
  lemma WrittenName(t: TableState, i: nat)
    requires Consistent(t) && i < |Public(t.columns)|
    ensures OnlyAt(Fields(Serialize(t)[0]), i + 1) && Fields(Serialize(t)[0])[i + 1] == Public(t.columns)[i].name
  {
    ReparseHeader(t);
    FramedName(Public(t.columns), i);
  }

  /** Field i + 1 of the data line of row k is the row's value for public
      column i. */
  lemma WrittenField(t: TableState, k: nat, i: nat)
    requires Consistent(t) && k < |t.rows| && i < |Public(t.columns)|
    ensures |Records(DataLines(Serialize(t)[2..]))| == |t.rows| && i + 1 < |Records(DataLines(Serialize(t)[2..]))[k]|
    ensures Records(DataLines(Serialize(t)[2..]))[k][i + 1] == Lookup(t.rows[k], Public(t.columns)[i].name)
  {
    WrittenRecordsOf(t);
    WrittenCell(t, k, i);
  }

  /** Row k read back holds the value of row k for public column i. */
  lemma ReparsedLookup(t: TableState, k: nat, i: nat)
    requires Consistent(t) && k < |t.rows| && i < |Public(t.columns)|
    ensures |Parse(Serialize(t)).rows| == |t.rows|
    ensures Lookup(Parse(Serialize(t)).rows[k], Public(t.columns)[i].name) == Lookup(t.rows[k], Public(t.columns)[i].name)
  {
    WrittenSeparator(t);
    WrittenName(t, i);
    WrittenField(t, k, i);
    FramedLookup(Serialize(t), Public(t.columns)[i].name, k, i + 1);
  }

  /** Reading the written file gives back the rows' values for the public names. */
  lemma ReparseRows(t: TableState)
    requires Consistent(t)
    ensures |Parse(Serialize(t)).rows| == |t.rows|
    ensures forall k, i :: 0 <= k < |t.rows| && 0 <= i < |Public(t.columns)| ==>
      Lookup(Parse(Serialize(t)).rows[k], Public(t.columns)[i].name) == Lookup(t.rows[k], Public(t.columns)[i].name)
  {
    WrittenSeparator(t);
    WrittenData(t);
    forall k, i | 0 <= k < |t.rows| && 0 <= i < |Public(t.columns)|
      ensures Lookup(Parse(Serialize(t)).rows[k], Public(t.columns)[i].name) == Lookup(t.rows[k], Public(t.columns)[i].name)
    {
      ReparsedLookup(t, k, i);
    }
  }

  /** The writer depends only on the public columns and on the rows' values
      for their names. */
  lemma SerializeCongruent(t1: TableState, t2: TableState)
    requires Public(t1.columns) == Public(t2.columns) && |t1.rows| == |t2.rows|
    requires forall k, i :: 0 <= k < |t1.rows| && 0 <= i < |Public(t1.columns)| ==>
      Lookup(t1.rows[k], Public(t1.columns)[i].name) == Lookup(t2.rows[k], Public(t1.columns)[i].name)
    ensures Serialize(t1) == Serialize(t2)
  {
    var pub := Public(t1.columns);
    forall k | 0 <= k < |t1.rows|
      ensures RowTexts(pub, t1.rows[k]) == RowTexts(pub, t2.rows[k])
    {
    }
    assert RowLines(pub, t1.rows) == RowLines(pub, t2.rows);
  }

  /** Writing a consistent table and reading it back writes the same lines. */
  lemma ReparseSerialized(t: TableState)
    requires Consistent(t)
    ensures Serialize(Parse(Serialize(t))) == Serialize(t)
  {
    ReparseColumns(t);
    ReparseRows(t);
    SerializeCongruent(Parse(Serialize(t)), t);
  }

  /** Tidying is idempotent: tidying a tidied file gives the same lines. */
  lemma TidyFixedPoint(lines: seq<string>)
    requires DistinctHeader(lines)
    ensures Serialize(Parse(Serialize(Parse(lines)))) == Serialize(Parse(lines))
  {
    ParseConsistent(lines);
    ReparseSerialized(Parse(lines));
  }
}
