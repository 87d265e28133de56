# Markdown pipe tables: reader, writer and tidy

This project models the table core of MarkdownData, a small C# library that
reads a GitHub-flavoured Markdown pipe table, keeps it as columns and rows, and
writes it back with aligned cells. It proves properties of that model in Dafny.

- **Reader.** The `Table` constructor splits the header line on `|` and trims
  every field. Each field becomes a column with width `max(len, 5)`. The second
  line sets the alignments, but only when it has as many fields as there are
  columns. Every following non-blank line becomes a row: fields past the last
  column are dropped, and column widths grow to fit the cells. The reader never
  fails. A missing or blank line, or a separator line with the wrong field count,
  ends the reading early and leaves the table partly filled.
- **Public columns.** The `Columns` view keeps only the columns whose name is
  not empty. This drops the placeholder columns that a leading or trailing `|`
  creates.
- **Writer.** `SaveAs` writes a header line, a separator line and one line per
  row. Every cell is `"| " + text.PadRight(width) + " "` and every line ends
  with `|`. A row that holds no value for a column writes the empty string.
- **Markers.** `ToString(alignment, width)` builds the separator cell
  character by character: a colon or a dash, `width - 2` dashes, then a colon
  or a dash.
- **Rows.** A `Row` is a dictionary from column name to cell text. A missing
  name reads as the empty string.

The model is organised as follows:

- **`Strings`**: the text primitives the reader and writer use.
  `String.IsNullOrWhiteSpace` is `IsBlank`; `Split('|', TrimEntries)` is
  `Fields`; `Trim` and `PadRight` keep their names.
- **`Columns`**: the alignment, the marker function `Marker`, the loop that
  renders it (`RenderMarker`), the colon rule the reader applies
  (`ParseMarker`), and the `Column` class.
- **`Rows`**: the `Row` class over a `map` field, and `Lookup`, the
  get-or-empty read.
- **`Tables`**: two views of the table.
  - The reader and the writer as functions of values: `Parse` over a sequence of
    lines, and `Serialize` from a `TableState` to lines.
  - The `Table` class, whose constructor and `SaveAs` follow the source's
    loops. They fill and widen `Column` objects in place and store into `Row`
    objects. They are proved to compute exactly `Parse(lines)` and
    `Serialize(State())`.
- **`Tidy`**: reading and re-writing a file (the `tidy` command). It proves
  that a tidied file is a fixed point when its header names are distinct.

## Model

| member | source | states |
|---|---|---|
| Columns.Marker | MarkdownData/Column.cs:13-33 | The marker is `width` characters long, or 2 when `width < 2`. Its first character is `:` exactly for Left and Center. Its last character is `:` exactly for Right and Center. Every character in between is `-`. |
| Columns.RenderMarker | MarkdownData/Column.cs:13-33 | The loop that appends `width - 2` dashes between the start and end marks returns exactly `Marker(alignment, width)`. |
| Columns.Dashes | MarkdownData/Column.cs:26-29 | The interior fill has `max(n, 0)` characters, and all of them are dashes. |
| Columns.ParseMarker | MarkdownData/Table.cs:35-51 | The alignment the reader assigns is Left or Center exactly when the field starts with `:`. It is Right or Center exactly when the field ends with `:`. |
| Columns.MarkerRoundTrip | MarkdownData/Column.cs:13-33 | For every alignment and every width, reading back the rendered marker gives the alignment. |
| Columns.MarkerOfParsed | MarkdownData/Table.cs:35-51 | A marker-shaped field of length 2 or more (colon or dash at each end, dashes in between) is the rendered marker of the alignment it is read as, at its own length. |
| Columns.Column.constructor | MarkdownData/Column.cs:36-45 | A new column has name `""`, alignment Unspecified (the enum's first member) and width 0. |
| Rows.Row.constructor | MarkdownData/Row.cs:5-8 | A new row holds no values, so every column reads as `""`. |
| Rows.Row.GetValue | MarkdownData/Row.cs:10-20 | A column that was set reads as its stored value. Any other column reads as `""`. |
| Rows.Row.SetValue | MarkdownData/Row.cs:22-25 | The map is the old map with this column set to the value, and nothing else changes. |
| Rows.Lookup | MarkdownData/Row.cs:10-20 | The get-or-empty read: a stored column gives its value, and any other column gives `""`. `LookupSet` and `LookupLastWins` state how it behaves after a set. |
| Rows.LookupSet | MarkdownData/Row.cs:10-25 | After setting a column, that column reads as the new value. Every other column reads as it did before. |
| Rows.LookupLastWins | MarkdownData/Row.cs:22-25 | Setting a column twice leaves the same map as setting it once to the last value. |
| Strings.IsBlank | MarkdownData/Table.cs:15 | `String.IsNullOrWhiteSpace` for a line that is present: every character is white space. `Trim` returns `""` exactly for blank text (Table.cs:26 and 54 apply the same test). |
| Strings.Trim | MarkdownData/Table.cs:19 | The trimmed field has no white space at either end. It is empty exactly when the field is blank, and trimming adds no `\|`. |
| Strings.Split | MarkdownData/Table.cs:19 | Splitting gives at least one piece, and no piece contains `\|`. |
| Strings.JoinSplit | MarkdownData/Table.cs:19 | Joining the pieces of a split with `\|` gives back the line. |
| Strings.SplitJoin | MarkdownData/Table.cs:19 | Joining pieces that contain no `\|` and splitting the result gives back the pieces. |
| Strings.Fields | MarkdownData/Table.cs:19 | There is one field per piece, and every field is trimmed and free of `\|`. |
| Strings.PadRight | MarkdownData/Table.cs:83 | The padded text has length `max(len, width)`. It starts with the text, and every character after it is a space. |
| Strings.PaddedCellTrims | MarkdownData/Table.cs:99 | A trimmed value, padded and set between single spaces as the writer emits it, trims back to the value. |
| Tables.HeaderColumns | MarkdownData/Table.cs:19-23 | The header columns are named after the fields, in order. Each is Unspecified and at least 5 wide and as wide as its name. |
| Tables.Aligned | MarkdownData/Table.cs:35-51 | Names and widths are kept. Each column is Left or Center exactly when its field starts with `:`, and Right or Center exactly when it ends with `:`. |
| Tables.RowValues | MarkdownData/Table.cs:60-62 | The map after storing the first n fields under their columns' names. `RowValuesKeys`, `RowValuesFrom` and `RowValuesLastWins` give its keys and values. |
| Tables.RowOf | MarkdownData/Table.cs:56-67 | The row read from one data line, with fields past the last column dropped. `RowOfKeys` and `RowOfLookup` give its keys and values. |
| Tables.GrowWidth | MarkdownData/Table.cs:63-66 | Widening never shrinks a width, and the result is at least as long as every field at that position. `GrowWidthIsMax` shows that it is exactly the larger of the start and the longest field. |
| Tables.Widened | MarkdownData/Table.cs:63-66 | Widening keeps each column's name and alignment and never shrinks its width. |
| Tables.Parse | MarkdownData/Table.cs:7-74 | The reference reader. The `Parse…` lemmas give its cases: a blank header, the header names, the leniency, the alignments, the rows and the widths. The `Table` constructor is proved equal to it. |
| Tables.DataEnd | MarkdownData/Table.cs:53-72 | The first blank line at or after a position, or the end of the lines. Every line before it is non-blank. |
| Tables.DataLines | MarkdownData/Table.cs:53-72 | The data lines are a prefix of the lines after the separator. All of them are non-blank, and the line after them, if any, is blank. |
| Tables.ParseBlankHeader | MarkdownData/Table.cs:14-18 | A missing or blank header line gives no columns and no rows. This is the only case with no columns. |
| Tables.ParseHeader | MarkdownData/Table.cs:19-23 | After a header line, the column names are its trimmed fields, in order. |
| Tables.ParseLenient | MarkdownData/Table.cs:25-34 | A missing or blank separator line, or one with a different field count, gives the header columns with alignment Unspecified and width `max(len, 5)`, and no rows. |
| Tables.ParseAlignments | MarkdownData/Table.cs:35-51 | With a matching separator line, each column takes the alignment its field declares by its colons. |
| Tables.ParseRows | MarkdownData/Table.cs:53-72 | There is one row per data line, in order, each read under the header names. Reading stops at the first blank line. |
| Tables.ParseRowsOf | MarkdownData/Table.cs:53-72 | With a matching separator line, the rows are the data lines' fields stored under the header fields. |
| Tables.ParseStopsAtBlank | MarkdownData/Table.cs:53-54 | Whatever follows a blank data line does not change the table. |
| Tables.DataEndStops | MarkdownData/Table.cs:53-54 | The data run ends at the same place whatever lines follow a blank line. |
| Tables.RowValuesKeys | MarkdownData/Table.cs:60-62 | A row holds a value exactly for the names of the columns its fields reached. |
| Tables.RowValuesFrom | MarkdownData/Table.cs:60-62 | Every value a row holds is the field at a position whose column has that name. |
| Tables.RowValuesLastWins | MarkdownData/Table.cs:60-62 | When no later column repeats a name, the row holds that column's field under it. |
| Tables.RowOfKeys | MarkdownData/Table.cs:60 | Fields past the last column are dropped. A row's keys are the names of the columns its fields reach. |
| Tables.RowOfLookup | MarkdownData/Table.cs:56-67 | A column whose name no other column repeats reads its own field, or `""` when the line is too short. |
| Tables.Widest | MarkdownData/Table.cs:63-66 | The longest field at a position is at least as long as every field there, and some field reaches it unless it is 0. |
| Tables.GrowWidthIsMax | MarkdownData/Table.cs:63-66 | Widening a width row by row gives the larger of that width and the longest field at that position. |
| Tables.ParseWidths | MarkdownData/Table.cs:19-72 | Each column's width is `max(5, len(name), longest field read into it)`. |
| Tables.ParseWidthBounds | MarkdownData/Table.cs:19-72 | Each column is at least 5 wide, at least as wide as its name, and at least as wide as every field read into it. |
| Tables.Public | MarkdownData/Table.cs:106 | There are no more public columns than stored ones, and every public column has a name. |
| Tables.PublicMembers | MarkdownData/Table.cs:106 | A column is public exactly when it is stored and has a non-empty name. |
| Tables.PublicAppend | MarkdownData/Table.cs:106 | The filter keeps the stored order: filtering two runs of columns gives the two filtered runs, one after the other. |
| Tables.PublicAllNamed | MarkdownData/Table.cs:106 | When every column has a name, all of them are public. |
| Tables.PublicDistinct | MarkdownData/Table.cs:106 | When no named column repeats an earlier name, the public names are distinct. |
| Tables.Serialize | MarkdownData/Table.cs:76-104 | The reference writer: 2 + rows lines. `SerializeShape` gives each line's cells. `SaveAs` is proved equal to it, and the `Tidy` lemmas show that reading its output gives the table back. |
| Tables.SerializeShape | MarkdownData/Table.cs:76-104 | The output has 2 + rows lines: header, separator, then one line per row. Each row cell is the row's value for the column (`""` when unset), padded to the column's width. |
| Tables.RenderLineNotBlank | MarkdownData/Table.cs:85 | Every written line ends with `\|`, so none is blank. |
| Tables.RenderLineJoin | MarkdownData/Table.cs:80-85 | A written line is its cells joined by `\|`, with an empty piece at each end. |
| Tables.FieldsOfLine | MarkdownData/Table.cs:76-104 | A written line whose texts contain no `\|` reads back as `""`, the trimmed texts, then `""`. |
| Tables.Table.constructor | MarkdownData/Table.cs:7-74 | The new table's state is `Parse(lines)`. Every column and row object is new, and no column object is shared. |
| Tables.Table.Columns | MarkdownData/Table.cs:106 | The public columns are the stored columns with a non-empty name, in stored order. Their values are `Public` of the stored values. |
| Tables.Table.SaveAs | MarkdownData/Table.cs:76-104 | On a table whose column objects are not shared (which the constructor guarantees), the returned lines are `Serialize` of the table's state. |
| Tables.ReadTable | MarkdownData/Table.cs:7-74 | The new column and row objects hold `Parse(lines)`. |
| Tables.NewColumns | MarkdownData/Table.cs:19-23 | There is one new column per header field, named after it, with width `max(len, 5)`. |
| Tables.SetAlignments | MarkdownData/Table.cs:35-51 | Each column gets the alignment of its separator field. Names and widths are unchanged. |
| Tables.ReadRows | MarkdownData/Table.cs:53-72 | The new rows hold the data lines' fields. The columns are widened over all of them. |
| Tables.ReadRow | MarkdownData/Table.cs:56-69 | The new row holds the fields under the column names, with extra fields dropped. Each column grows to fit its field. |
| Tables.StoreField | MarkdownData/Table.cs:62-66 | The row gets the field under the column's name. The column grows to the field's length when the field is longer. |
| Tables.WriteLines | MarkdownData/Table.cs:76-104 | The lines are the header line, the separator line and the row lines for the public columns. |
| Tables.HeaderLine | MarkdownData/Table.cs:80-85 | The header line is each public name padded to its width, written as cells. |
| Tables.SeparatorLine | MarkdownData/Table.cs:87-92 | The separator line is each public column's marker, written as cells. |
| Tables.RowLinesOf | MarkdownData/Table.cs:94-102 | There is one line per row, in row order. |
| Tables.RowLine | MarkdownData/Table.cs:97-101 | A row's line is its value for each public column (`""` when unset), padded to the width. |
| Tidy.WidestOfColumn | MarkdownData/Table.cs:60-66 | The widest value a column holds across the rows is the widest field at its position. |
| Tidy.ParsedColumn | MarkdownData/Table.cs:19-72 | A named column that was read is as wide as the larger of 5, its name and its longest value. Its values are trimmed and contain no `\|`. |
| Tidy.ParseConsistent | MarkdownData/Table.cs:7-74 | A table read from a file with distinct header names is consistent: distinct public names, clean text, and widths that fit exactly. |
| Tidy.ReparseHeader | MarkdownData/Table.cs:80-85 | The written header line reads back as the public names, between two empty fields. |
| Tidy.ReparseSeparator | MarkdownData/Table.cs:87-92 | The written separator line reads back as the markers, between two empty fields. |
| Tidy.ReparseRow | MarkdownData/Table.cs:94-101 | A written row line reads back as the row's values for the public names, between two empty fields. |
| Tidy.ReparsedColumn | MarkdownData/Table.cs:7-104 | Each public column is read back unchanged, one position further on: same name, alignment and width. |
| Tidy.ReparseColumns | MarkdownData/Table.cs:7-106 | Reading the written file gives back the same public columns. |
| Tidy.ReparseRows | MarkdownData/Table.cs:7-104 | Reading the written file gives back the same number of rows, and each row has the same value for every public name. |
| Tidy.SerializeCongruent | MarkdownData/Table.cs:76-104 | The output depends only on the public columns and on the rows' values for their names. |
| Tidy.ReparseSerialized | MarkdownData/Table.cs:7-104 | Writing a consistent table, reading it back and writing it again gives the same lines. |
| Tidy.TidyFixedPoint | MarkdownData/Table.cs:7-104 | When the header names are distinct, tidying the tidied lines changes nothing. |

## Left out

- Files: `StreamReader` and `StreamWriter` are not modelled. The constructor takes the file's lines as a sequence, and `SaveAs` returns the lines it would write. A line past the end of the sequence plays the part of `ReadLine()` returning null.
- The enumerator (`GetEnumerator`, MarkdownData/Table.cs:108-116) is boilerplate. The rows are the `rows` field.
- The command-line tool (MarkdownDataTool/Program.cs) is not part of this model. That covers its option wiring, its console output and its `--key` filter.
- Sorting rows and arranging columns: the library's table class has no such operations, so nothing models them.
- White space: `IsWhite` counts the space and the characters tab to carriage return. .NET's `char.IsWhiteSpace` also counts other Unicode spaces. A Dafny `char` is a Unicode scalar value, so a character outside the Basic Multilingual Plane has length 1 in the model. .NET `Length` counts it as 2 UTF-16 code units. Column widths and padding therefore differ for such text.
- Rows.Row.SetValue: its contract states the new map only. The get/set properties are stated about that map as the lemmas `Rows.LookupSet` and `Rows.LookupLastWins`.
- Tables.SetAlignments: requires every column to start Unspecified, which is what the reader's fresh columns hold. On a column that already had an alignment, the source would keep it when the field has no colon. That case never arises in the reader.
- Strings.PadRight: negative widths are not modelled. .NET `PadRight` throws for them, while the model returns the text unchanged. The reader never makes a negative width; only a caller that sets a column's width below 0 before `SaveAs` could.
- Tables.GrowWidthIsMax: requires the starting width to be at least 0. The reader starts every column at 5 or more.
- Tables.Table.Valid: tracks that no column object is shared, because widening one column must leave the others alone. The constructor establishes it, and `Columns` and `SaveAs` require it. Row objects are all new too, but their distinctness is not tracked, because nothing the model proves depends on it.
- Tidy.TidyFixedPoint: requires distinct non-empty header names. With a repeated name, both columns write the value stored last. The width read back for the first of them then comes from those values, not from the first column's original fields, so a second tidy can pad that column differently.
