/** Text primitives the table reader and writer rely on: String.IsNullOrWhiteSpace,
    String.Trim, String.Split('|'), String.PadRight and Math.Max, stated over
    strings as sequences of characters. */
module Strings {

  /** Math.Max on two integers. */
  function Max(a: int, b: int): int {
    if a >= b then a else b
  }

  /** A white-space character: the space and the control characters tab to
      carriage return (a simplification of char.IsWhiteSpace). */
  predicate IsWhite(c: char) {
    c == ' ' || ('\t' <= c <= '\r')
  }

  /** String.IsNullOrWhiteSpace for a line that is present. */
  predicate IsBlank(s: string) {
    forall i :: 0 <= i < |s| ==> IsWhite(s[i])
  }

  /** No white space at either end. */
  predicate IsTrimmed(s: string) {
    |s| == 0 || (!IsWhite(s[0]) && !IsWhite(s[|s| - 1]))
  }

  /** The string holds no field separator. */
  predicate NoBar(s: string) {
    forall i :: 0 <= i < |s| ==> s[i] != '|'
  }

  /** A field as the reader produces it: trimmed and free of separators. */
  predicate IsClean(s: string) {
    IsTrimmed(s) && NoBar(s)
  }

  /** Drops the leading white space: the result is a suffix of s, starts with a
      non-white character, and only white space was dropped. */
  function TrimStart(s: string): (r: string)
    ensures |r| <= |s| && r == s[|s| - |r|..]
    ensures |r| == 0 || !IsWhite(r[0])
    ensures IsBlank(s[..|s| - |r|])
    decreases |s|
  {
    if |s| > 0 && IsWhite(s[0]) then TrimStart(s[1..]) else s
  }

  /** Drops the trailing white space: the result is a prefix of s, ends with a
      non-white character, and only white space was dropped. */
  function TrimEnd(s: string): (r: string)
    ensures |r| <= |s| && r == s[..|r|]
    ensures |r| == 0 || !IsWhite(r[|r| - 1])
    ensures IsBlank(s[|r|..])
    decreases |s|
  {
    if |s| > 0 && IsWhite(s[|s| - 1]) then TrimEnd(s[..|s| - 1]) else s
  }

  /** String.Trim. */
  function Trim(s: string): (r: string)
    ensures IsTrimmed(r)
    ensures NoBar(s) ==> NoBar(r)
    ensures r == "" <==> IsBlank(s)
  {
    var t := TrimStart(s);
    var r := TrimEnd(t);
    assert |r| > 0 ==> r[0] == t[0];
    assert r == "" ==> IsBlank(s) by {
      if r == "" {
        assert IsBlank(t[0..]);
        assert s == s[..|s| - |t|] + t;
      }
    }
    r
  }

  /** String.Split('|'): the pieces between separators, with an empty piece
      before a leading and after a trailing separator. */
  function Split(s: string): (r: seq<string>)
    ensures |r| >= 1
    ensures forall k :: 0 <= k < |r| ==> NoBar(r[k])
    decreases |s|
  {
    if |s| == 0 then [""]
    else
      var rest := Split(s[1..]);
      if s[0] == '|' then [""] + rest
      else [[s[0]] + rest[0]] + rest[1..]
  }

  /** String.Join("|", parts): the inverse of Split. */
  function Join(parts: seq<string>): string
    requires |parts| >= 1
    decreases |parts|
  {
    if |parts| == 1 then parts[0] else parts[0] + "|" + Join(parts[1..])
  }

  /** Joining the pieces of a split gives back the string. */
  lemma {:induction false} JoinSplit(s: string)
    ensures Join(Split(s)) == s
    decreases |s|
  {
    if |s| > 0 {
      var rest := Split(s[1..]);
      JoinSplit(s[1..]);
      if s[0] == '|' {
        assert s == "|" + s[1..];
      } else {
        assert s == [s[0]] + s[1..];
        if |rest| > 1 {
          assert ([[s[0]] + rest[0]] + rest[1..])[1..] == rest[1..];
        }
      }
    }
  }

  /** Joining with one more piece at the end. */
  lemma {:induction false} JoinSnoc(parts: seq<string>, last: string)
    requires |parts| >= 1
    ensures Join(parts + [last]) == Join(parts) + "|" + last
    decreases |parts|
  {
    if |parts| > 1 {
      JoinSnoc(parts[1..], last);
      assert (parts + [last])[1..] == parts[1..] + [last];
    }
  }

  /** Splitting a string that starts with a piece free of separators. */
  lemma {:induction false} SplitPrefix(x: string, y: string)
    requires NoBar(x)
    ensures Split(x + y) == [x + Split(y)[0]] + Split(y)[1..]
    decreases |x|
  {
    if |x| > 0 {
      SplitPrefix(x[1..], y);
      assert (x + y)[1..] == x[1..] + y;
      var rest := Split(x[1..] + y);
      assert (x + y)[0] == x[0] != '|';
      assert Split(x + y) == [[x[0]] + rest[0]] + rest[1..];
      assert [x[0]] + (x[1..] + Split(y)[0]) == x + Split(y)[0];
    } else {
      assert x + y == y;
      assert x + Split(y)[0] == Split(y)[0];
      assert Split(y) == [Split(y)[0]] + Split(y)[1..];
    }
  }

  /** Splitting separator-free pieces joined by separators gives them back. */
  lemma {:induction false} SplitJoin(parts: seq<string>)
    requires |parts| >= 1
    requires forall k :: 0 <= k < |parts| ==> NoBar(parts[k])
    ensures Split(Join(parts)) == parts
    decreases |parts|
  {
    if |parts| == 1 {
      SplitPrefix(parts[0], "");
      assert parts[0] + "" == parts[0];
      assert Split("") == [""];
      assert parts[0] + Split("")[0] == parts[0];
      assert Split(Join(parts)) == [parts[0]];
    } else {
      var tail := Join(parts[1..]);
      SplitJoin(parts[1..]);
      assert Split("|" + tail) == [""] + Split(tail) by {
        assert ("|" + tail)[1..] == tail;
      }
      SplitPrefix(parts[0], "|" + tail);
      assert parts[0] + "|" + tail == parts[0] + ("|" + tail);
      assert Split("|" + tail)[0] == "" && Split("|" + tail)[1..] == parts[1..];
      assert parts[0] + "" == parts[0];
      assert parts == [parts[0]] + parts[1..];
    }
  }

  /** Split('|', StringSplitOptions.TrimEntries): the trimmed pieces. */
  function Fields(line: string): (r: seq<string>)
    ensures |r| == |Split(line)| >= 1
    ensures forall k :: 0 <= k < |r| ==> IsClean(r[k])
  {
    var pieces := Split(line);
    seq(|pieces|, k requires 0 <= k < |pieces| => Trim(pieces[k]))
  }

  /** The pieces of a line that starts and ends with a bar: an empty piece,
      the given ones and another empty piece. */
  function Framed(s: seq<string>): (r: seq<string>)
    ensures |r| == |s| + 2 && r[0] == "" && r[|s| + 1] == ""
  {
    seq(|s| + 2, k requires 0 <= k < |s| + 2 => if 0 < k <= |s| then s[k - 1] else "")
  }

  /** Framing is adding an empty piece at each end. */
  lemma FramedAppend(s: seq<string>)
    ensures Framed(s) == [""] + s + [""]
  {
    var r := [""] + s + [""];
    forall k | 0 <= k < |r|
      ensures Framed(s)[k] == r[k]
    {
      if 0 < k <= |s| {
        assert r[k] == s[k - 1];
      }
    }
  }

  /** The fields of pieces joined with bars are the trimmed pieces. */
  lemma FieldsJoin(parts: seq<string>)
    requires |parts| >= 1
    requires forall k :: 0 <= k < |parts| ==> NoBar(parts[k])
    ensures |Fields(Join(parts))| == |parts|
    ensures forall k :: 0 <= k < |parts| ==> Fields(Join(parts))[k] == Trim(parts[k])
  {
    SplitJoin(parts);
  }

  /** n space characters. */
  function Spaces(n: nat): (r: string)
    ensures |r| == n && IsBlank(r)
    ensures forall i :: 0 <= i < |r| ==> r[i] == ' '
  {
    if n == 0 then "" else Spaces(n - 1) + " "
  }

  /** String.PadRight: s followed by spaces up to the width; never truncates. */
  function PadRight(s: string, width: int): (r: string)
    ensures |r| == Max(|s|, width)
    ensures r[..|s|] == s && IsBlank(r[|s|..])
    ensures forall i :: |s| <= i < |r| ==> r[i] == ' '
  {
    if |s| >= width then s else s + Spaces(width - |s|)
  }

  /** Padding adds only spaces, so it adds no separator. */
  lemma PadRightNoBar(s: string, width: int)
    requires NoBar(s)
    ensures NoBar(PadRight(s, width))
  {
    var r := PadRight(s, width);
    forall i | 0 <= i < |r|
      ensures r[i] != '|'
    {
      if i < |s| {
        assert r[i] == r[..|s|][i];
      } else {
        assert r[i] == r[|s|..][i - |s|];
      }
    }
  }

  /** Leading white space does not change what TrimStart keeps. */
  lemma {:induction false} TrimStartBlankPrefix(p: string, x: string)
    requires IsBlank(p)
    ensures TrimStart(p + x) == TrimStart(x)
    decreases |p|
  {
    if |p| > 0 {
      assert (p + x)[1..] == p[1..] + x;
      TrimStartBlankPrefix(p[1..], x);
    } else {
      assert p + x == x;
    }
  }

  /** Trailing white space does not change what TrimEnd keeps. */
  lemma {:induction false} TrimEndBlankSuffix(x: string, q: string)
    requires IsBlank(q)
    ensures TrimEnd(x + q) == TrimEnd(x)
    decreases |q|
  {
    if |q| > 0 {
      assert (x + q)[..|x + q| - 1] == x + q[..|q| - 1];
      TrimEndBlankSuffix(x, q[..|q| - 1]);
    } else {
      assert x + q == x;
    }
  }

  /** Trimming a trimmed string surrounded by white space gives it back. */
  lemma TrimSurrounded(p: string, v: string, q: string)
    requires IsBlank(p) && IsBlank(q) && IsTrimmed(v)
    ensures Trim(p + v + q) == v
  {
    if v == "" {
      assert p + v + q == p + q;
      assert IsBlank(p + q);
    } else {
      assert p + v + q == p + (v + q);
      TrimStartBlankPrefix(p, v + q);
      assert TrimStart(v + q) == v + q;
      TrimEndBlankSuffix(v, q);
      assert TrimEnd(v) == v;
    }
  }

  /** A trimmed value padded to any width and put between single spaces, as the
      writer emits a cell, reads back as the value. */
  lemma PaddedCellTrims(v: string, width: int)
    requires IsTrimmed(v)
    ensures Trim(" " + PadRight(v, width) + " ") == v
  {
    var padded := PadRight(v, width);
    assert padded == v + padded[|v|..];
    assert " " + padded + " " == " " + v + (padded[|v|..] + " ");
    assert IsBlank(padded[|v|..] + " ");
    TrimSurrounded(" ", v, padded[|v|..] + " ");
  }
}
