/** The markdown table writer of the GOA report: a data frame, given as its
    column names and its rows of cells, rendered as a pipe table. */
module GoaReport {
  import opened Strings
  import opened Ordering

  /** A cell as text: two-decimal formatting in a float column when the value
      is not missing, str(val) otherwise. */
  function CellText<T>(col: string, val: T, floatCols: seq<string>,
                       notna: T -> bool, str: T -> string, fmt2: T -> string): string
  {
    if col in floatCols && notna(val) then fmt2(val) else str(val)
  }

  /** One row's cells, in column order. */
  function RowCells<T>(headers: seq<string>, row: seq<T>, floatCols: seq<string>,
                       notna: T -> bool, str: T -> string, fmt2: T -> string): (r: seq<string>)
    requires |row| == |headers|
    ensures |r| == |headers|
  {
    seq(|headers|, i requires 0 <= i < |headers| => CellText(headers[i], row[i], floatCols, notna, str, fmt2))
  }

  /** A table line: the cells between pipes. */
  function TableLine(cells: seq<string>): string
  {
    "| " + Join(" | ", cells) + " |"
  }

  /** The rule under the header: one "---" per column. */
  function Dashes(n: nat): (r: seq<string>)
    ensures |r| == n
  {
    seq(n, _ => "---")
  }

  predicate Rectangular<T>(headers: seq<string>, rows: seq<seq<T>>)
  {
    forall j :: 0 <= j < |rows| ==> |rows[j]| == |headers|
  }

  /** The lines of the table: header, rule, then one line per row. */
  function MarkdownLines<T>(headers: seq<string>, rows: seq<seq<T>>, floatCols: seq<string>,
                            notna: T -> bool, str: T -> string, fmt2: T -> string): (r: seq<string>)
    requires Rectangular(headers, rows)
    ensures |r| == |rows| + 2
  {
    [TableLine(headers), TableLine(Dashes(|headers|))] +
    seq(|rows|, j requires 0 <= j < |rows| => TableLine(RowCells(headers, rows[j], floatCols, notna, str, fmt2)))
  }

  /** df_to_markdown_table; a missing float_cols is the empty list. */
  method DfToMarkdownTable<T>(headers: seq<string>, rows: seq<seq<T>>, floatCols: seq<string>,
                              notna: T -> bool, str: T -> string, fmt2: T -> string) returns (text: string)
    requires Rectangular(headers, rows)
    ensures text == Join("\n", MarkdownLines(headers, rows, floatCols, notna, str, fmt2))
  {
    ghost var spec := MarkdownLines(headers, rows, floatCols, notna, str, fmt2);
    var lines := ["| " + Join(" | ", headers) + " |"];
    var rule := [];
    for i := 0 to |headers|
      invariant rule == Dashes(i)
    {
      rule := rule + ["---"];
    }
    lines := lines + ["| " + Join(" | ", rule) + " |"];
    for j := 0 to |rows|
      invariant lines == spec[..j + 2]
    {
      var row := rows[j];
      var values := [];
      for i := 0 to |headers|
        invariant values == RowCells(headers, row, floatCols, notna, str, fmt2)[..i]
      {
        var col := headers[i];
        var val := row[i];
        if col in floatCols && notna(val) {
          values := values + [fmt2(val)];
        } else {
          values := values + [str(val)];
        }
      }
      assert values == RowCells(headers, row, floatCols, notna, str, fmt2);
      lines := lines + ["| " + Join(" | ", values) + " |"];
      assert spec[..j + 3] == spec[..j + 2] + [spec[j + 2]];
    }
    assert lines == spec;
    text := Join("\n", lines);
  }

  // ---------------------------------------------------------------- reading the table back

  /** No line break and no pipe: a cell that keeps the table's shape. */
  predicate Plain(s: string)
  {
    '\n' !in s && '|' !in s
  }

  /** A cell as it stands between two pipes. */
  function Pad(c: string): string
  {
    " " + c + " "
  }

  lemma {:induction false} JoinSnoc(sep: string, parts: seq<string>, x: string)
    requires parts != []
    ensures Join(sep, parts + [x]) == Join(sep, parts) + sep + x
    decreases |parts|
  {
    if |parts| > 1 {
      JoinSnoc(sep, parts[1..], x);
      assert (parts + [x])[1..] == parts[1..] + [x];
    }
  }

  lemma {:induction false} PadJoin(cells: seq<string>)
    requires cells != []
    ensures " " + Join(" | ", cells) + " " == Join("|", MapSeq(cells, Pad))
    decreases |cells|
  {
    if |cells| > 1 {
      PadJoin(cells[1..]);
      assert MapSeq(cells, Pad)[1..] == MapSeq(cells[1..], Pad);
      var j := Join(" | ", cells[1..]);
      assert " " + Join(" | ", cells) + " " == Pad(cells[0]) + "|" + (" " + j + " ");
    }
  }

  /** A table line is its padded cells joined by pipes, with a pipe at each end. */
  lemma LineAsJoin(cells: seq<string>)
    requires cells != []
    ensures TableLine(cells) == Join("|", [""] + MapSeq(cells, Pad) + [""])
  {
    var p := MapSeq(cells, Pad);
    PadJoin(cells);
    JoinSnoc("|", [""] + p, "");
    assert ([""] + p)[1..] == p;
    assert Join("|", [""] + p) == "" + "|" + Join("|", p);
  }

  /** A line of plain cells splits at its pipes back into those cells. */
  lemma LineCells(cells: seq<string>)
    requires cells != []
    requires forall i :: 0 <= i < |cells| ==> Plain(cells[i])
    ensures SplitOn(TableLine(cells), '|') == [""] + MapSeq(cells, Pad) + [""]
  {
    var parts := [""] + MapSeq(cells, Pad) + [""];
    LineAsJoin(cells);
    forall k | 0 <= k < |parts| ensures '|' !in parts[k] {
      if 0 < k < |parts| - 1 {
        assert parts[k] == " " + cells[k - 1] + " ";
      }
    }
    SplitJoin(parts, '|');
  }

  lemma LineNoBreak(cells: seq<string>)
    requires forall i :: 0 <= i < |cells| ==> Plain(cells[i])
    ensures '\n' !in TableLine(cells)
  {
    if cells != [] {
      LineAsJoin(cells);
      var parts := [""] + MapSeq(cells, Pad) + [""];
      forall k | 0 <= k < |parts| ensures '\n' !in parts[k] {
        if 0 < k < |parts| - 1 {
          assert parts[k] == " " + cells[k - 1] + " ";
        }
      }
      JoinFree(parts, "|", '\n');
    }
  }

  lemma {:induction false} JoinFree(parts: seq<string>, sep: string, c: char)
    requires c !in sep
    requires forall k :: 0 <= k < |parts| ==> c !in parts[k]
    ensures c !in Join(sep, parts)
    decreases |parts|
  {
    if |parts| > 1 {
      JoinFree(parts[1..], sep, c);
    }
  }

  /** Plain rendered cells of one row. */
  predicate PlainRow<T>(headers: seq<string>, row: seq<T>, floatCols: seq<string>,
                        notna: T -> bool, str: T -> string, fmt2: T -> string)
    requires |row| == |headers|
  {
    forall i :: 0 <= i < |headers| ==> Plain(CellText(headers[i], row[i], floatCols, notna, str, fmt2))
  }

  /** A data line reads back, pipe by pipe, as the row's cells in column
      order: the two-decimal form for a present value in a float column,
      str(val) for every other cell. */
  lemma DataLineCells<T>(headers: seq<string>, row: seq<T>, floatCols: seq<string>,
                         notna: T -> bool, str: T -> string, fmt2: T -> string)
    requires |row| == |headers| && headers != []
    requires PlainRow(headers, row, floatCols, notna, str, fmt2)
    ensures var parts := SplitOn(TableLine(RowCells(headers, row, floatCols, notna, str, fmt2)), '|');
      |parts| == |headers| + 2 && parts[0] == "" && parts[|headers| + 1] == "" &&
      forall i :: 0 <= i < |headers| ==>
        parts[i + 1] == " " + (if headers[i] in floatCols && notna(row[i]) then fmt2(row[i]) else str(row[i])) + " "
  {
    LineCells(RowCells(headers, row, floatCols, notna, str, fmt2));
  }

  /** The header line reads back as the column names. */
  lemma HeaderLineCells(headers: seq<string>)
    requires headers != []
    requires forall i :: 0 <= i < |headers| ==> Plain(headers[i])
    ensures var h := SplitOn(TableLine(headers), '|');
      |h| == |headers| + 2 && forall i :: 1 <= i <= |headers| ==> h[i] == " " + headers[i - 1] + " "
  {
    LineCells(headers);
  }

  /** The rule line reads back as one "---" per column. */
  lemma RuleLineCells(n: nat)
    requires n > 0
    ensures var d := SplitOn(TableLine(Dashes(n)), '|');
      |d| == n + 2 && forall i :: 1 <= i <= n ==> d[i] == " --- "
  {
    DashesPlain(n);
    LineCells(Dashes(n));
  }

  lemma DashesPlain(n: nat)
    ensures forall i :: 0 <= i < n ==> Plain(Dashes(n)[i])
  {
    forall i | 0 <= i < n ensures Plain(Dashes(n)[i]) {
      assert Dashes(n)[i] == "---";
    }
  }

  /** The text splits at its line breaks into exactly the header, the rule
      and one line per row, in row order, when every header and rendered cell
      is plain. */
  lemma TableLinesReadBack<T>(headers: seq<string>, rows: seq<seq<T>>, floatCols: seq<string>,
                              notna: T -> bool, str: T -> string, fmt2: T -> string)
    requires Rectangular(headers, rows)
    requires forall i :: 0 <= i < |headers| ==> Plain(headers[i])
    requires forall j :: 0 <= j < |rows| ==> PlainRow(headers, rows[j], floatCols, notna, str, fmt2)
    ensures var lines := SplitOn(Join("\n", MarkdownLines(headers, rows, floatCols, notna, str, fmt2)), '\n');
      |lines| == |rows| + 2 && lines[0] == TableLine(headers) && lines[1] == TableLine(Dashes(|headers|)) &&
      forall j :: 0 <= j < |rows| ==> lines[j + 2] == TableLine(RowCells(headers, rows[j], floatCols, notna, str, fmt2))
  {
    var lines := MarkdownLines(headers, rows, floatCols, notna, str, fmt2);
    LineNoBreak(headers);
    DashesPlain(|headers|);
    LineNoBreak(Dashes(|headers|));
    forall k | 2 <= k < |lines| ensures '\n' !in lines[k] {
      var cells := RowCells(headers, rows[k - 2], floatCols, notna, str, fmt2);
      assert lines[k] == TableLine(cells);
      LineNoBreak(cells);
    }
    SplitJoin(lines, '\n');
  }
}
