/** `write_output`: the result of `check_data` laid out as a table with one column per key and
    as many rows as the longest value, shorter columns padded with empty cells. */
module Report {
  import opened Diagnostics
  import opened RecordChecker

  /** The cells of one column of the report. A list of diagnostics gives one rendered
      diagnostic per row; the message string stored for an absent column is indexed like a
      list, so it gives one character per row. */
  function Cells(a: Attribute, value: Column): seq<string> {
    match value
    case Checked(ds) => seq(|ds|, i requires 0 <= i < |ds| => Render(ds[i]))
    case Absent => Characters(AbsentMessage(a))
  }

  /** A string as a list of one-character strings. */
  function Characters(m: string): seq<string> {
    seq(|m|, i requires 0 <= i < |m| => [m[i]])
  }

  /** The cell of row i in a column: the column's i-th cell, or empty past its end. */
  function Padded(cells: seq<string>, i: nat): string {
    if i < |cells| then cells[i] else ""
  }

  /** The cells of every column, in key order. */
  function Columns(errors: seq<(Attribute, Column)>): seq<seq<string>> {
    seq(|errors|, k requires 0 <= k < |errors| => Cells(errors[k].0, errors[k].1))
  }

  /** `max(len(values) for values in errors.values())`; Python raises on an empty dictionary. */
  function MaxLength(columns: seq<seq<string>>): (n: nat)
    requires |columns| > 0
    decreases |columns|
    ensures forall k :: 0 <= k < |columns| ==> |columns[k]| <= n
    ensures exists k :: 0 <= k < |columns| && |columns[k]| == n
  {
    var last := |columns| - 1;
    if last == 0 then |columns[0]|
    else
      var before := MaxLength(columns[..last]);
      assert forall k :: 0 <= k < last ==> columns[..last][k] == columns[k];
      if before < |columns[last]| then |columns[last]| else before
  }

  /** The body of the report: MaxLength rows, each with one cell per column. */
  function Grid(columns: seq<seq<string>>): (rows: seq<seq<string>>)
    requires |columns| > 0
  {
    seq(MaxLength(columns), i requires 0 <= i < MaxLength(columns) => Row(columns, i))
  }

  /** Row i of the report: the i-th cell of every column, or empty past its end. */
  function Row(columns: seq<seq<string>>, i: nat): (row: seq<string>) {
    seq(|columns|, k requires 0 <= k < |columns| => Padded(columns[k], i))
  }

  /** The header row: the keys in insertion order. */
  function Header(errors: seq<(Attribute, Column)>): seq<string> {
    seq(|errors|, k requires 0 <= k < |errors| => Name(errors[k].0))
  }

  /** The row-padding loop of `write_output`: the header and the rows it hands to the CSV
      writer. */
  method WriteRows(errors: seq<(Attribute, Column)>) returns (header: seq<string>, rows: seq<seq<string>>)
    requires |errors| > 0
    ensures header == Header(errors)
    ensures rows == Grid(Columns(errors))
  {
    header := Header(errors);
    rows := PadRows(Columns(errors));
  }

  /** The outer loop of the padding: MaxLength rows. */
  method PadRows(columns: seq<seq<string>>) returns (rows: seq<seq<string>>)
    requires |columns| > 0
    ensures rows == Grid(columns)
  {
    var maxLength := MaxLength(columns);
    ghost var grid := Grid(columns);
    rows := [];
    var i := 0;
    while i < maxLength
      invariant i <= maxLength == |grid|
      invariant rows == grid[..i]
    {
      var row := PadRow(columns, i);
      assert grid[..i + 1] == grid[..i] + [row];
      rows := rows + [row];
      i := i + 1;
    }
    assert rows == grid;
  }

  /** The inner loop of the padding: one row, one cell per column. */
  method PadRow(columns: seq<seq<string>>, i: nat) returns (row: seq<string>)
    ensures row == Row(columns, i)
  {
    ghost var full := Row(columns, i);
    row := [];
    var k := 0;
    while k < |columns|
      invariant k <= |columns| == |full|
      invariant row == full[..k]
    {
      var cells := columns[k];
      if i < |cells| {
        row := row + [cells[i]];
      } else {
        row := row + [""];
      }
      assert full[..k + 1] == full[..k] + [full[k]];
      k := k + 1;
    }
    assert row == full;
  }

  /** Reading column k of the report from the top gives back that column's cells in order, and
      every row below them is empty: nothing is lost, reordered or invented. */
  lemma GridColumn(columns: seq<seq<string>>, k: nat)
    requires |columns| > 0 && k < |columns|
    ensures |columns[k]| <= |Grid(columns)|
    ensures forall i :: 0 <= i < |columns[k]| ==> Grid(columns)[i][k] == columns[k][i]
    ensures forall i :: |columns[k]| <= i < |Grid(columns)| ==> Grid(columns)[i][k] == ""
  {
  }

  /** Every row of the report is as wide as the header, and the longest column has no
      padding at all. */
  lemma GridShape(errors: seq<(Attribute, Column)>)
    requires |errors| > 0
    ensures forall i :: 0 <= i < |Grid(Columns(errors))| ==> |Grid(Columns(errors))[i]| == |Header(errors)|
    ensures exists k :: 0 <= k < |errors| && |Cells(errors[k].0, errors[k].1)| == |Grid(Columns(errors))|
  {
    var columns := Columns(errors);
    var k :| 0 <= k < |columns| && |columns[k]| == MaxLength(columns);
    assert columns[k] == Cells(errors[k].0, errors[k].1);
  }

  /** The characters of a sequence of strings, one after the other. */
  function Join(cells: seq<string>): string
    decreases |cells|
  {
    if cells == [] then "" else Join(cells[..|cells| - 1]) + cells[|cells| - 1]
  }

  /** An absent column spreads its message down the report one character per row; joining the
      column's cells gives the message back. */
  lemma AbsentColumnSpellsMessage(a: Attribute)
    ensures Join(Cells(a, Absent)) == AbsentMessage(a)
  {
    JoinCharacters(AbsentMessage(a));
  }

  /** Joining the one-character strings of m gives m back. */
  lemma {:induction false} JoinCharacters(m: string)
    decreases |m|
    ensures Join(Characters(m)) == m
  {
    var cells := Characters(m);
    if m != [] {
      var n := |m| - 1;
      JoinCharacters(m[..n]);
      assert cells[..n] == Characters(m[..n]);
      assert m == m[..n] + [m[n]];
    }
  }
}
