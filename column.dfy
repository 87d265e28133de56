/** Columns of a pipe table: the alignment of a column, the separator-row marker
    that encodes it, and the mutable Column record. */
module Columns {
  import opened Strings

  /** How a column's cells are aligned; Unspecified is the default value. */
  datatype ColumnAlignment = Unspecified | Left | Center | Right

  /** n dash characters (none when n is not positive). */
  function Dashes(n: int): (r: string)
    ensures |r| == Max(n, 0)
    ensures forall i :: 0 <= i < |r| ==> r[i] == '-'
    decreases n
  {
    if n <= 0 then "" else Dashes(n - 1) + "-"
  }

  /** The first character of a marker: a colon for Left and Center. */
  function StartMark(alignment: ColumnAlignment): char {
    if alignment == Left || alignment == Center then ':' else '-'
  }

  /** The last character of a marker: a colon for Right and Center. */
  function EndMark(alignment: ColumnAlignment): char {
    if alignment == Right || alignment == Center then ':' else '-'
  }

  /** The separator-row cell for a column of the given alignment and width. It
      is `width` characters long, but never shorter than the two end marks. */
  function Marker(alignment: ColumnAlignment, width: int): (r: string)
    ensures |r| == Max(width, 2)
    ensures r[0] == ':' <==> alignment == Left || alignment == Center
    ensures r[|r| - 1] == ':' <==> alignment == Right || alignment == Center
    ensures forall i :: 0 <= i < |r| ==> r[i] == ':' || r[i] == '-'
    ensures forall i :: 0 < i < |r| - 1 ==> r[i] == '-'
  {
    [StartMark(alignment)] + Dashes(width - 2) + [EndMark(alignment)]
  }

  /** ColumnAlignmentExtensions.ToString: builds the marker one dash at a time. */
  method RenderMarker(alignment: ColumnAlignment, width: int) returns (result: string)
    ensures result == Marker(alignment, width)
  {
    var start := "-";
    var end := "-";
    if alignment == Left || alignment == Center {
      start := ":";
    }
    if alignment == Right || alignment == Center {
      end := ":";
    }
    result := start;
    var i := 0;
    while i < width - 2
      invariant 0 <= i <= Max(width - 2, 0)
      invariant result == start + Dashes(i)
    {
      result := result + "-";
      i := i + 1;
    }
    result := result + end;
  }

  /** The alignment a separator-row cell declares: a colon at the start and at
      the end is Center, at the start only Left, at the end only Right. */
  function ParseMarker(marker: string): (r: ColumnAlignment)
    ensures r == Left || r == Center <==> |marker| > 0 && marker[0] == ':'
    ensures r == Right || r == Center <==> |marker| > 0 && marker[|marker| - 1] == ':'
  {
    var startsWith := |marker| > 0 && marker[0] == ':';
    var endsWith := |marker| > 0 && marker[|marker| - 1] == ':';
    if startsWith && endsWith then Center
    else if startsWith then Left
    else if endsWith then Right
    else Unspecified
  }

  /** Reading back a rendered marker gives its alignment, for every width. */
  lemma MarkerRoundTrip(alignment: ColumnAlignment, width: int)
    ensures ParseMarker(Marker(alignment, width)) == alignment
  {
  }

  /** A marker-shaped cell (colons or dashes at the ends, dashes between) is
      exactly the marker of the alignment it declares, at its own length. */
  lemma {:induction false} MarkerOfParsed(marker: string)
    requires |marker| >= 2
    requires marker[0] == ':' || marker[0] == '-'
    requires marker[|marker| - 1] == ':' || marker[|marker| - 1] == '-'
    requires forall i :: 0 < i < |marker| - 1 ==> marker[i] == '-'
    ensures Marker(ParseMarker(marker), |marker|) == marker
  {
    var m := Marker(ParseMarker(marker), |marker|);
    assert |m| == |marker|;
    forall i | 0 <= i < |marker|
      ensures m[i] == marker[i]
    {
    }
  }

  /** The value of a Column at one moment. */
  datatype ColumnState = ColumnState(name: string, alignment: ColumnAlignment, width: int)

  /** A column of the table, whose alignment and width the reader updates in place. */
  class Column {
    var name: string
    var alignment: ColumnAlignment
    var width: int

    /** A new column has no name, the default alignment and width zero. */
    constructor ()
      ensures name == "" && alignment == Unspecified && width == 0
    {
      name := "";
      alignment := Unspecified;
      width := 0;
    }

    /** The column's current value. */
    ghost function State(): ColumnState
      reads this
    {
      ColumnState(name, alignment, width)
    }
  }
}
