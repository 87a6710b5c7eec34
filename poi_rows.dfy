/**
 * read_poi of poi_crop/poi_crop.py, on rows the CSV reader has already split
 * into cells: the header row is dropped, blank rows are skipped, a remaining
 * row with fewer than four cells raises, and every other row contributes its
 * first four cells, stripped.
 */
module PoiRows {
  import opened Wrappers
  import opened PoiExpr

  /** Python's str.isspace for one character (the Unicode whitespace set). */
  predicate IsSpace(c: char) {
    || c == ' ' || '\t' <= c <= '\r' || '\U{1C}' <= c <= '\U{1F}'
    || c == '\U{85}' || c == '\U{A0}' || c == '\U{1680}'
    || '\U{2000}' <= c <= '\U{200A}' || c == '\U{2028}' || c == '\U{2029}'
    || c == '\U{202F}' || c == '\U{205F}' || c == '\U{3000}'
  }

  /** Drops leading whitespace. */
  function StripLeft(s: string): string {
    if s != [] && IsSpace(s[0]) then StripLeft(s[1..]) else s
  }

  /** Drops trailing whitespace. */
  function StripRight(s: string): string {
    if s != [] && IsSpace(s[|s| - 1]) then StripRight(s[..|s| - 1]) else s
  }

  /** StripLeft leaves the suffix of s that starts at its first non-whitespace character. */
  lemma {:induction false} StripLeftIsSuffix(s: string)
    ensures var r := StripLeft(s);
            && |r| <= |s| && r == s[|s| - |r|..]
            && (forall i :: 0 <= i < |s| - |r| ==> IsSpace(s[i]))
            && (r != [] ==> !IsSpace(r[0]))
  {
    if s != [] && IsSpace(s[0]) {
      var t := s[1..];
      StripLeftIsSuffix(t);
      var r := StripLeft(t);
      assert StripLeft(s) == r;
      assert t[|t| - |r|..] == s[|s| - |r|..];
      forall i | 0 <= i < |s| - |r| ensures IsSpace(s[i]) {
        if i > 0 {
          assert s[i] == t[i - 1];
        }
      }
    }
  }

  /** StripRight leaves the prefix of s that ends at its last non-whitespace character. */
  lemma {:induction false} StripRightIsPrefix(s: string)
    ensures var r := StripRight(s);
            && |r| <= |s| && r == s[..|r|]
            && (forall i :: |r| <= i < |s| ==> IsSpace(s[i]))
            && (r != [] ==> !IsSpace(r[|r| - 1]))
  {
    if s != [] && IsSpace(s[|s| - 1]) {
      var t := s[..|s| - 1];
      StripRightIsPrefix(t);
      var r := StripRight(t);
      assert StripRight(s) == r;
      assert t[..|r|] == s[..|r|];
      forall i | |r| <= i < |s| ensures IsSpace(s[i]) {
        if i < |s| - 1 {
          assert s[i] == t[i];
        }
      }
    }
  }

  /** No whitespace at either end. */
  predicate Trimmed(s: string) {
    s == [] || (!IsSpace(s[0]) && !IsSpace(s[|s| - 1]))
  }

  /** A cell is blank exactly when every character of it is whitespace. */
  lemma BlankCellIff(s: string)
    ensures BlankCell(s) <==> forall i :: 0 <= i < |s| ==> IsSpace(s[i])
  {
    var l := StripLeft(s);
    StripLeftIsSuffix(s);
    StripRightIsPrefix(l);
    if l != [] {
      assert l[0] == s[|s| - |l|];
    }
  }

  /** str.strip(): drops whitespace at both ends and keeps what lies between. */
  function Strip(s: string): (r: string)
    ensures |r| <= |s| && Trimmed(r)
  {
    StripLeftIsSuffix(s);
    StripRightIsPrefix(StripLeft(s));
    var r := StripRight(StripLeft(s));
    assert r != [] ==> r[0] == StripLeft(s)[0];
    r
  }

  /**
   * The stripped cell is what lies between a run of leading and a run of
   * trailing whitespace: s is some whitespace, then Strip(s), then some
   * whitespace.
   */
  lemma StripKeepsMiddle(s: string)
    ensures var r, i := Strip(s), |s| - |StripLeft(s)|;
            && 0 <= i <= i + |r| <= |s| && r == s[i..i + |r|]
            && (forall k :: 0 <= k < i ==> IsSpace(s[k]))
            && (forall k :: i + |r| <= k < |s| ==> IsSpace(s[k]))
  {
    var l := StripLeft(s);
    StripLeftIsSuffix(s);
    StripRightIsPrefix(l);
    var r, i := Strip(s), |s| - |l|;
    assert r == l[..|r|];
    forall k | i + |r| <= k < |s| ensures IsSpace(s[k]) {
      assert s[k] == l[k - i];
    }
  }

  /** `not cell.strip()`: a cell that is empty once stripped. */
  predicate BlankCell(cell: string) {
    Strip(cell) == []
  }

  /** `not row or all(not cell.strip() for cell in row)`. */
  predicate BlankRow(row: seq<string>) {
    row == [] || forall i :: 0 <= i < |row| ==> BlankCell(row[i])
  }

  /** A row read_poi accepts: blank (skipped) or with at least four cells. */
  predicate RowOk(row: seq<string>) {
    BlankRow(row) || |row| >= 4
  }

  /** What one row contributes: its stripped cells if it has the four, else nothing. */
  function Kept(row: seq<string>): seq<Keyframe> {
    if BlankRow(row) || |row| < 4 then [] else [KeepRow(row)]
  }

  /** The first four cells, stripped. */
  function KeepRow(row: seq<string>): Keyframe
    requires |row| >= 4
  {
    Keyframe(Strip(row[0]), Strip(row[1]), Strip(row[2]), Strip(row[3]))
  }

  const RowShapeError: string := "poi.csv rows must be: t,x,y,z"

  /** The data rows after the header, processed in order as read_poi's loop does. */
  function ReadData(rows: seq<seq<string>>): (r: Result<seq<Keyframe>, string>)
    ensures r.Success? ==> |r.value| <= |rows|
    decreases |rows|
  {
    if rows == [] then Success([])
    else
      match ReadData(rows[..|rows| - 1])
      case Failure(e) => Failure(e)
      case Success(acc) =>
        var row := rows[|rows| - 1];
        if BlankRow(row) then Success(acc)
        else if |row| < 4 then Failure(RowShapeError)
        else Success(acc + [KeepRow(row)])
  }

  /** read_poi on the rows of a whole file; an empty file has no header and gives []. */
  function ReadPoiSpec(csv: seq<seq<string>>): Result<seq<Keyframe>, string> {
    if csv == [] then Success([]) else ReadData(csv[1..])
  }

  /** Every row that is not blank has at least the four cells t, x, y, z. */
  predicate WellShaped(rows: seq<seq<string>>) {
    forall k :: 0 <= k < |rows| ==> RowOk(rows[k])
  }

  /** Reference definition: keep the non-blank rows, in order. */
  function KeptRows(rows: seq<seq<string>>): seq<Keyframe> {
    if rows == [] then []
    else Kept(rows[0]) + KeptRows(rows[1..])
  }

  lemma {:induction false} KeptRowsAppend(rows: seq<seq<string>>, row: seq<string>)
    ensures KeptRows(rows + [row]) == KeptRows(rows) + Kept(row)
  {
    if rows != [] {
      assert (rows + [row])[1..] == rows[1..] + [row];
      KeptRowsAppend(rows[1..], row);
    }
  }

  /**
   * read_poi's loop agrees with the reference: it fails exactly when some
   * non-blank row has fewer than four cells, and otherwise returns the kept
   * rows in order.
   */
  lemma WellShapedAppend(rows: seq<seq<string>>, row: seq<string>)
    ensures WellShaped(rows + [row]) <==> WellShaped(rows) && RowOk(row)
  {
    var all := rows + [row];
    assert forall k :: 0 <= k < |rows| ==> all[k] == rows[k];
    assert all[|rows|] == row;
  }

  lemma {:induction false} ReadDataIsKeptRows(rows: seq<seq<string>>)
    ensures ReadData(rows) == if WellShaped(rows) then Success(KeptRows(rows)) else Failure(RowShapeError)
  {
    if rows == [] {
      assert WellShaped(rows);
      assert KeptRows(rows) == [];
    } else {
      var init, row := rows[..|rows| - 1], rows[|rows| - 1];
      assert rows == init + [row];
      ReadDataIsKeptRows(init);
      WellShapedAppend(init, row);
      assert WellShaped(rows) == (WellShaped(init) && RowOk(row));
      if WellShaped(init) {
        KeptRowsAppend(init, row);
        if BlankRow(row) {
          assert Kept(row) == [];
          assert KeptRows(rows) == KeptRows(init) + [] == KeptRows(init);
          assert ReadData(rows) == Success(KeptRows(init));
        } else if |row| < 4 {
          assert ReadData(rows) == Failure(RowShapeError);
        } else {
          assert Kept(row) == [KeepRow(row)];
          assert ReadData(rows) == Success(KeptRows(init) + [KeepRow(row)]);
        }
      } else {
        assert ReadData(rows) == Failure(RowShapeError);
      }
    }
  }

  /** The only error read_poi raises is the row-shape one. */
  lemma {:induction false} ReadDataError(rows: seq<seq<string>>)
    ensures ReadData(rows).Failure? ==> ReadData(rows).error == RowShapeError
  {
    if rows != [] {
      ReadDataError(rows[..|rows| - 1]);
    }
  }

  /** Kept rows number at most the data rows, and every kept cell is stripped. */
  lemma {:induction false} KeptRowsBounded(rows: seq<seq<string>>)
    ensures |KeptRows(rows)| <= |rows|
    ensures forall k :: 0 <= k < |KeptRows(rows)| ==>
              var f := KeptRows(rows)[k];
              Trimmed(f.t) && Trimmed(f.x) && Trimmed(f.y) && Trimmed(f.z)
  {
    if rows != [] {
      KeptRowsBounded(rows[1..]);
    }
  }

  /** The header row's contents never matter. */
  lemma HeaderIgnored(csv: seq<seq<string>>, header: seq<string>)
    requires csv != []
    ensures ReadPoiSpec([header] + csv[1..]) == ReadPoiSpec(csv)
  {
    assert ([header] + csv[1..])[1..] == csv[1..];
  }

  lemma {:induction false} FailureSticks(rows: seq<seq<string>>, k: nat)
    requires k <= |rows|
    requires ReadData(rows[..k]).Failure?
    ensures ReadData(rows) == Failure(RowShapeError)
  {
    ReadDataIsKeptRows(rows[..k]);
    ReadDataIsKeptRows(rows);
    var j :| 0 <= j < k && !RowOk(rows[..k][j]);
    assert rows[j] == rows[..k][j];
  }

  /**
   * read_poi: skips the header, then loops over the data rows with
   * `continue` for blank rows and a raise for short ones.
   */
  method ReadPoi(csv: seq<seq<string>>) returns (r: Result<seq<Keyframe>, string>)
    ensures r == ReadPoiSpec(csv)
    ensures csv == [] ==> r == Success([])
  {
    var rows: seq<Keyframe> := [];
    if |csv| == 0 {
      return Success(rows);
    }
    var data := csv[1..];
    var i := 0;
    while i < |data|
      invariant 0 <= i <= |data|
      invariant ReadData(data[..i]) == Success(rows)
    {
      var row := data[i];
      assert data[..i + 1][..i] == data[..i];
      if BlankRow(row) {
        i := i + 1;
        continue;
      }
      if |row| < 4 {
        FailureSticks(data, i + 1);
        return Failure(RowShapeError);
      }
      rows := rows + [KeepRow(row)];
      i := i + 1;
    }
    assert data[..i] == data;
    r := Success(rows);
  }
}
