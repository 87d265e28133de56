/** Rows of a pipe table: a sparse map from column name to cell text. */
module Rows {

  /** The value a row holds for a column, or the empty string when it holds none. */
  function Lookup(values: map<string, string>, column: string): string {
    if column in values then values[column] else ""
  }

  /** After a value is set for a column, that column reads as the value and
      every other column reads as before. */
  lemma LookupSet(values: map<string, string>, column: string, value: string, other: string)
    ensures Lookup(values[column := value], column) == value
    ensures other != column ==> Lookup(values[column := value], other) == Lookup(values, other)
  {
  }

  /** Setting a column twice keeps the last value only. */
  lemma LookupLastWins(values: map<string, string>, column: string, first: string, last: string)
    ensures values[column := first][column := last] == values[column := last]
  {
  }

  /** A data row; the reader fills it in place, one cell at a time. */
  class Row {
    var values: map<string, string>

    /** A new row holds no values, so every column reads as empty. */
    constructor ()
      ensures values == map[]
      ensures forall column :: GetValue(column) == ""
    {
      values := map[];
    }

    /** The cell for a column; a column never set reads as the empty string. */
    function GetValue(column: string): (r: string)
      reads this
      ensures column in values ==> r == values[column]
      ensures column !in values ==> r == ""
    {
      Lookup(values, column)
    }

    /** Sets the cell for a column, replacing any earlier value for it. */
    method SetValue(column: string, value: string)
      modifies this
      ensures values == old(values)[column := value]
    {
      values := values[column := value];
    }
  }
}
