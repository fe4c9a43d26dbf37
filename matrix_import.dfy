/**
 * The matrix import: clipboard text becomes a grid of cells, and a price
 * grid (top axis in row 0, left axis in column 0, prices inside) becomes
 * flat records with inferred lower-bound ("min") columns.
 */
module MatrixImport {
  import opened Wrappers
  import opened Text
  import opened NumberNormalizer

  // ---------------------------------------------------------------- the clipboard split

  const LineEnds: set<char> := {'\r', '\n'}

  /** `line.rstrip('\r\n')`. */
  function Trim(line: string): (r: string)
    ensures |r| <= |line| && r == line[..|r|]
    ensures r == [] || r[|r| - 1] !in LineEnds
    ensures forall i :: |r| <= i < |line| ==> line[i] in LineEnds
  {
    RStripChars(line, LineEnds)
  }

  /** The grid made of some lines: every line that is not empty once trimmed, split on tabs. */
  function GridOf(lines: seq<string>): (rows: seq<seq<string>>)
    ensures |rows| <= |lines|
    ensures forall k, c :: 0 <= k < |rows| && 0 <= c < |rows[k]| ==> '\t' !in rows[k][c]
  {
    if |lines| == 0 then []
    else
      var last := Trim(lines[|lines| - 1]);
      GridOf(lines[..|lines| - 1]) + (if last == "" then [] else [Split(last, '\t')])
  }

  /**
   * `self.rows` after `load_from_clipboard` has read `text`: no row is
   * empty, and no cell holds a tab.
   */
  function ClipboardRows(text: string): (rows: seq<seq<string>>)
    ensures forall k :: 0 <= k < |rows| ==> |rows[k]| > 0
    ensures forall k, c :: 0 <= k < |rows| && 0 <= c < |rows[k]| ==> '\t' !in rows[k][c]
  {
    GridShape(Split(text, '\n'));
    GridOf(Split(text, '\n'))
  }

  /** The loop that fills `self.rows` line by line. */
  method SplitClipboard(text: string) returns (rows: seq<seq<string>>)
    ensures rows == ClipboardRows(text)
  {
    var lines := Split(text, '\n');
    rows := [];
    var i := 0;
    while i < |lines|
      invariant 0 <= i <= |lines|
      invariant rows == GridOf(lines[..i])
    {
      assert lines[..i + 1][..i] == lines[..i];
      var line := RStripChars(lines[i], LineEnds);
      if line != "" {
        rows := rows + [Split(line, '\t')];
      }
      i := i + 1;
    }
    assert lines[..i] == lines;
  }

  /** The grid is empty exactly when every line is empty once trimmed; no row of it is empty. */
  lemma {:induction false} GridShape(lines: seq<string>)
    ensures |GridOf(lines)| == 0 <==> forall k :: 0 <= k < |lines| ==> Trim(lines[k]) == ""
    ensures forall k :: 0 <= k < |GridOf(lines)| ==> |GridOf(lines)[k]| > 0
  {
    if |lines| > 0 {
      var init := lines[..|lines| - 1];
      GridShape(init);
      assert forall k :: 0 <= k < |init| ==> init[k] == lines[k];
    }
  }

  /** The tab-separated text a spreadsheet puts on the clipboard for a grid of cells. */
  function TsvText(rows: seq<seq<string>>): string {
    if |rows| == 0 then "" else Join(TsvLines(rows), '\n')
  }

  function TsvLines(rows: seq<seq<string>>): (lines: seq<string>)
    ensures |lines| == |rows|
    ensures forall k :: 0 <= k < |rows| ==> lines[k] == Join(rows[k], '\t')
  {
    seq(|rows|, k requires 0 <= k < |rows| => Join(rows[k], '\t'))
  }

  /** A cell a spreadsheet can put on the clipboard without breaking the grid apart. */
  predicate PlainCell(cell: string) {
    '\t' !in cell && '\n' !in cell
  }

  /** A row that survives the split: its line is neither empty nor ends in a line-end character. */
  predicate PlainRow(row: seq<string>) {
    |row| > 0 && (forall c :: 0 <= c < |row| ==> PlainCell(row[c]))
    && Join(row, '\t') != "" && Join(row, '\t')[|Join(row, '\t')| - 1] !in LineEnds
  }

  /** Pasting a grid copied as tab-separated text gives back the grid. */
  lemma ClipboardRoundTrip(rows: seq<seq<string>>)
    requires forall k :: 0 <= k < |rows| ==> PlainRow(rows[k])
    ensures ClipboardRows(TsvText(rows)) == rows
  {
    if |rows| == 0 {
      assert Split("", '\n') == [""];
      assert RStripChars("", LineEnds) == "";
    } else {
      var lines := TsvLines(rows);
      forall k | 0 <= k < |lines| ensures '\n' !in lines[k] {
        JoinFree(rows[k], '\t', '\n');
      }
      SplitJoin(lines, '\n');
      GridOfLines(rows, lines);
    }
  }

  lemma {:induction false} GridOfLines(rows: seq<seq<string>>, lines: seq<string>)
    requires forall k :: 0 <= k < |rows| ==> PlainRow(rows[k])
    requires |lines| == |rows| && forall k :: 0 <= k < |rows| ==> lines[k] == Join(rows[k], '\t')
    ensures GridOf(lines) == rows
  {
    if |rows| > 0 {
      var n := |rows| - 1;
      GridOfLines(rows[..n], lines[..n]);
      var row := rows[n];
      assert Trim(lines[n]) == lines[n];
      SplitJoin(row, '\t');
      assert rows == rows[..n] + [row];
    }
  }

  lemma {:induction false} JoinFree(pieces: seq<string>, c: char, d: char)
    requires |pieces| > 0 && c != d
    requires forall k :: 0 <= k < |pieces| ==> d !in pieces[k]
    ensures d !in Join(pieces, c)
  {
    if |pieces| > 1 {
      JoinFree(pieces[1..], c, d);
    }
  }

  // ---------------------------------------------------------------- the price grid

  /** The combo-box entry that selects no column. */
  const Ignore := "(Ignorieren)"

  /** A record for one price cell: column name to number. */
  type Record = map<string, real>

  datatype ImportOutcome =
    | AxisMissing                       // a warning is shown, nothing is accepted
    | ImportFailed                      // the grid has no header row: the error box is shown
    | Imported(records: seq<Record>)    // `result_data`, and the dialog is accepted

  /**
   * `clean_number(s.strip())`, the reader of every grid cell. The expansion
   * below takes the reader as a parameter `clean` and is proved for any
   * reader; `ProcessImport` fixes it to this one.
   */
  function Cleaned(s: string): real {
    CleanNumberValue(Strip(s))
  }

  /** `top_values`: the header cells after the corner, read. */
  function TopValues(header: seq<string>, clean: string -> real): (tops: seq<real>)
    ensures |tops| == if |header| == 0 then 0 else |header| - 1
    ensures forall j :: 1 <= j < |header| ==> tops[j - 1] == clean(header[j])
  {
    if |header| == 0 then [] else seq(|header| - 1, k requires 0 <= k < |header| - 1 => clean(header[k + 1]))
  }

  /** `top_mins`: the lower bound of each header column. */
  function TopMins(tops: seq<real>): (mins: seq<real>)
    ensures |mins| == if |tops| == 0 then 1 else |tops|
    ensures mins[0] == 0.0
    ensures forall j :: 1 <= j < |tops| ==> mins[j] == tops[j - 1]
  {
    [0.0] + (if |tops| == 0 then [] else tops[..|tops| - 1])
  }

  /** `col.replace("max", "min") if "max" in col else None`. */
  function MinName(column: string): Option<string> {
    if Contains(column, "max") then Some(ReplaceAll(column, "max", "min")) else None
  }

  /**
   * The column a lower bound is written to for an axis column: the name with
   * every "max" replaced by "min", when the name has a "max" and the result
   * is one of the table's columns.
   */
  function MinColumn(column: string, currentColumns: seq<string>): (r: Option<string>)
    ensures r.Some? <==> Contains(column, "max") && ReplaceAll(column, "max", "min") in currentColumns
    ensures r.Some? ==> r.value == ReplaceAll(column, "max", "min") && |r.value| == |column|
  {
    match MinName(column)
    case Some(m) => if m != "" && m in currentColumns then Some(m) else None
    case None => None
  }

  /** A cell position in the grid. */
  datatype Pos = Pos(row: nat, col: nat)

  /** A cell inside the axes and within the header's width. */
  predicate Inner(rows: seq<seq<string>>, width: nat, p: Pos) {
    1 <= p.row < |rows| && 1 <= p.col < |rows[p.row]| && p.col <= width
  }

  /** A cell that yields a record: an inner cell that is not blank. */
  predicate Priced(rows: seq<seq<string>>, width: nat, p: Pos) {
    Inner(rows, width, p) && Strip(rows[p.row][p.col]) != ""
  }

  /** Row-major order. */
  predicate Before(p: Pos, q: Pos) {
    p.row < q.row || (p.row == q.row && p.col < q.col)
  }

  /** The priced cells among row `i`'s first `n` cells, left to right. */
  function RowCells(rows: seq<seq<string>>, width: nat, i: nat, n: nat): (cs: seq<Pos>)
    requires 1 <= i < |rows| && n <= |rows[i]|
    ensures forall k :: 0 <= k < |cs| ==> Priced(rows, width, cs[k]) && cs[k].row == i && cs[k].col < n
  {
    if n <= 1 then []
    else RowCells(rows, width, i, n - 1) + (if Priced(rows, width, Pos(i, n - 1)) then [Pos(i, n - 1)] else [])
  }

  /** The priced cells of the rows before row `m`, in row-major order. */
  function Cells(rows: seq<seq<string>>, width: nat, m: nat): (cs: seq<Pos>)
    requires 1 <= m <= |rows|
    ensures forall k :: 0 <= k < |cs| ==> Priced(rows, width, cs[k]) && cs[k].row < m
  {
    if m == 1 then [] else Cells(rows, width, m - 1) + RowCells(rows, width, m - 1, |rows[m - 1]|)
  }

  /** `left_val` of a row: its first cell, read. */
  function LeftValue(row: seq<string>, clean: string -> real): real
    requires |row| > 0
  {
    clean(row[0])
  }

  /** `prev_left_val` when row `i` is reached: the left value of the last non-empty row before it, or 0. */
  function PrevLeft(rows: seq<seq<string>>, i: nat, clean: string -> real): (v: real)
    requires 1 <= i <= |rows|
    ensures i == 1 ==> v == 0.0
    ensures i >= 2 && |rows[i - 1]| > 0 ==> v == LeftValue(rows[i - 1], clean)
  {
    if i == 1 then 0.0
    else if |rows[i - 1]| > 0 then LeftValue(rows[i - 1], clean)
    else PrevLeft(rows, i - 1, clean)
  }

  /**
   * A record from its values, keys written in the source's order (a later
   * key of the same name overwrites an earlier one).
   */
  function RecordFor(top: string, left: string, minTop: Option<string>, minLeft: Option<string>,
                     topVal: real, leftVal: real, price: real, topMin: real, leftMin: real): (r: Record)
    ensures r.Keys == {top, left, "price"}
      + (if minTop.Some? then {minTop.value} else {}) + (if minLeft.Some? then {minLeft.value} else {})
  {
    var base := map[top := topVal][left := leftVal]["price" := price];
    var withTop := if minTop.Some? then base[minTop.value := topMin] else base;
    if minLeft.Some? then withTop[minLeft.value := leftMin] else withTop
  }

  /** The axis columns and the table's columns an import writes to. */
  datatype Axes = Axes(top: string, left: string, currentColumns: seq<string>)

  /** The record built for the priced cell at `p`. */
  function RecordAt(rows: seq<seq<string>>, axes: Axes, clean: string -> real, p: Pos): Record
    requires |rows| > 0 && Inner(rows, |TopValues(rows[0], clean)|, p)
  {
    var tops := TopValues(rows[0], clean);
    RecordFor(axes.top, axes.left, MinColumn(axes.top, axes.currentColumns), MinColumn(axes.left, axes.currentColumns),
      tops[p.col - 1], LeftValue(rows[p.row], clean), clean(rows[p.row][p.col]), TopMins(tops)[p.col - 1],
      PrevLeft(rows, p.row, clean))
  }

  /** The records of a sequence of priced cells, one per cell. */
  function RecordsOf(rows: seq<seq<string>>, axes: Axes, clean: string -> real, cs: seq<Pos>): (rs: seq<Record>)
    requires |rows| > 0 && forall k :: 0 <= k < |cs| ==> Inner(rows, |TopValues(rows[0], clean)|, cs[k])
    ensures |rs| == |cs|
    ensures forall k :: 0 <= k < |cs| ==> rs[k] == RecordAt(rows, axes, clean, cs[k])
  {
    seq(|cs|, k requires 0 <= k < |cs| => RecordAt(rows, axes, clean, cs[k]))
  }

  /** The records of row `i`'s first `n` cells, left to right: one per priced cell. */
  function RowRecords(rows: seq<seq<string>>, axes: Axes, clean: string -> real, i: nat, n: nat): seq<Record>
    requires 1 <= i < |rows| && n <= |rows[i]|
  {
    if n <= 1 then []
    else
      RowRecords(rows, axes, clean, i, n - 1)
      + (if Priced(rows, |TopValues(rows[0], clean)|, Pos(i, n - 1)) then [RecordAt(rows, axes, clean, Pos(i, n - 1))] else [])
  }

  /** The records of the rows before row `m`. */
  function RecordsUpTo(rows: seq<seq<string>>, axes: Axes, clean: string -> real, m: nat): seq<Record>
    requires 1 <= m <= |rows|
  {
    if m == 1 then [] else RecordsUpTo(rows, axes, clean, m - 1) + RowRecords(rows, axes, clean, m - 1, |rows[m - 1]|)
  }

  /** The records a grid expands to. */
  function GridRecords(rows: seq<seq<string>>, axes: Axes, clean: string -> real): seq<Record>
    requires |rows| > 0
  {
    RecordsUpTo(rows, axes, clean, |rows|)
  }

  /** What `process_import` does with a grid and the two selected axis columns. */
  function ImportOf(rows: seq<seq<string>>, top: string, left: string, currentColumns: seq<string>): (r: ImportOutcome)
    ensures r.AxisMissing? <==> top == Ignore || left == Ignore
    ensures r.ImportFailed? <==> top != Ignore && left != Ignore && |rows| == 0
  {
    if top == Ignore || left == Ignore then AxisMissing
    else if |rows| == 0 then ImportFailed
    else Imported(GridRecords(rows, Axes(top, left, currentColumns), Cleaned))
  }

  lemma RecordsAppend(rows: seq<seq<string>>, axes: Axes, clean: string -> real, a: seq<Pos>, b: seq<Pos>)
    requires |rows| > 0
    requires forall k :: 0 <= k < |a| ==> Inner(rows, |TopValues(rows[0], clean)|, a[k])
    requires forall k :: 0 <= k < |b| ==> Inner(rows, |TopValues(rows[0], clean)|, b[k])
    ensures RecordsOf(rows, axes, clean, a + b) == RecordsOf(rows, axes, clean, a) + RecordsOf(rows, axes, clean, b)
  {
    var ab := a + b;
    assert forall k :: 0 <= k < |a| ==> ab[k] == a[k];
    assert forall k :: |a| <= k < |ab| ==> ab[k] == b[k - |a|];
  }

  /** Cells past the header's width add nothing: the inner loop may stop there. */
  lemma {:induction false} RowRecordsBeyond(rows: seq<seq<string>>, axes: Axes, clean: string -> real, i: nat, n: nat)
    requires 1 <= i < |rows| && |TopValues(rows[0], clean)| + 1 <= n <= |rows[i]|
    ensures RowRecords(rows, axes, clean, i, n) == RowRecords(rows, axes, clean, i, |TopValues(rows[0], clean)| + 1)
  {
    if n > |TopValues(rows[0], clean)| + 1 {
      RowRecordsBeyond(rows, axes, clean, i, n - 1);
    }
  }

  /** Row by row, the records are those of the priced cells. */
  lemma {:induction false} RowRecordsCells(rows: seq<seq<string>>, axes: Axes, clean: string -> real, i: nat, n: nat)
    requires 1 <= i < |rows| && n <= |rows[i]|
    ensures RowRecords(rows, axes, clean, i, n) == RecordsOf(rows, axes, clean, RowCells(rows, |TopValues(rows[0], clean)|, i, n))
  {
    if n > 1 {
      var w := |TopValues(rows[0], clean)|;
      RowRecordsCells(rows, axes, clean, i, n - 1);
      var more := if Priced(rows, w, Pos(i, n - 1)) then [Pos(i, n - 1)] else [];
      RecordsAppend(rows, axes, clean, RowCells(rows, w, i, n - 1), more);
    }
  }

  /**
   * The expansion is one record per priced cell, in row-major order: the
   * loops build exactly the records of `Cells`.
   */
  lemma {:induction false} GridRecordsCells(rows: seq<seq<string>>, axes: Axes, clean: string -> real, m: nat)
    requires 1 <= m <= |rows|
    ensures RecordsUpTo(rows, axes, clean, m) == RecordsOf(rows, axes, clean, Cells(rows, |TopValues(rows[0], clean)|, m))
  {
    if m > 1 {
      var w := |TopValues(rows[0], clean)|;
      GridRecordsCells(rows, axes, clean, m - 1);
      RowRecordsCells(rows, axes, clean, m - 1, |rows[m - 1]|);
      RecordsAppend(rows, axes, clean, Cells(rows, w, m - 1), RowCells(rows, w, m - 1, |rows[m - 1]|));
    }
  }

  /** A row's priced cells are exactly the priced cells of that row before column `n`. */
  lemma {:induction false} RowCellsExactly(rows: seq<seq<string>>, width: nat, i: nat, n: nat)
    requires 1 <= i < |rows| && n <= |rows[i]|
    ensures forall p :: p in RowCells(rows, width, i, n) <==> Priced(rows, width, p) && p.row == i && p.col < n
  {
    if n > 1 {
      RowCellsExactly(rows, width, i, n - 1);
    }
  }

  /** The priced cells of the rows before `m` are listed, each once and nothing else. */
  lemma {:induction false} CellsExactly(rows: seq<seq<string>>, width: nat, m: nat)
    requires 1 <= m <= |rows|
    ensures forall p :: p in Cells(rows, width, m) <==> Priced(rows, width, p) && p.row < m
  {
    if m > 1 {
      CellsExactly(rows, width, m - 1);
      RowCellsExactly(rows, width, m - 1, |rows[m - 1]|);
    }
  }

  /** A row's priced cells come left to right. */
  lemma {:induction false} RowCellsOrdered(rows: seq<seq<string>>, width: nat, i: nat, n: nat)
    requires 1 <= i < |rows| && n <= |rows[i]|
    ensures forall a, b :: 0 <= a < b < |RowCells(rows, width, i, n)| ==>
      Before(RowCells(rows, width, i, n)[a], RowCells(rows, width, i, n)[b])
  {
    if n > 1 {
      RowCellsOrdered(rows, width, i, n - 1);
    }
  }

  /** The priced cells come in row-major order, so no cell appears twice. */
  lemma {:induction false} CellsOrdered(rows: seq<seq<string>>, width: nat, m: nat)
    requires 1 <= m <= |rows|
    ensures forall a, b :: 0 <= a < b < |Cells(rows, width, m)| ==> Before(Cells(rows, width, m)[a], Cells(rows, width, m)[b])
  {
    if m > 1 {
      CellsOrdered(rows, width, m - 1);
      RowCellsOrdered(rows, width, m - 1, |rows[m - 1]|);
    }
  }

  /**
   * What a record holds: each lower bound under its column, and each of the
   * three values under its name unless a later key of the same name
   * overwrote it.
   */
  lemma RecordFields(top: string, left: string, minTop: Option<string>, minLeft: Option<string>,
                     topVal: real, leftVal: real, price: real, topMin: real, leftMin: real)
    ensures var r := RecordFor(top, left, minTop, minLeft, topVal, leftVal, price, topMin, leftMin);
      && (minLeft.Some? ==> r[minLeft.value] == leftMin)
      && (minTop.Some? && minLeft != minTop ==> r[minTop.value] == topMin)
      && (minTop != Some("price") && minLeft != Some("price") ==> r["price"] == price)
      && (left != "price" && minTop != Some(left) && minLeft != Some(left) ==> r[left] == leftVal)
      && (top != left && top != "price" && minTop != Some(top) && minLeft != Some(top) ==> r[top] == topVal)
  {
  }

  /**
   * The expansion of a grid: one record per priced cell, in row-major
   * order, and the record of a cell is the one built from its column's top
   * value and lower bound, its row's left value and lower bound, and its
   * own price.
   */
  lemma GridExpansion(rows: seq<seq<string>>, axes: Axes, clean: string -> real)
    requires |rows| > 0
    ensures var cs := Cells(rows, |TopValues(rows[0], clean)|, |rows|);
      && |GridRecords(rows, axes, clean)| == |cs|
      && (forall k :: 0 <= k < |cs| ==> GridRecords(rows, axes, clean)[k] == RecordAt(rows, axes, clean, cs[k]))
      && (forall p :: p in cs <==> Priced(rows, |TopValues(rows[0], clean)|, p))
      && (forall a, b :: 0 <= a < b < |cs| ==> Before(cs[a], cs[b]))
  {
    var w := |TopValues(rows[0], clean)|;
    GridRecordsCells(rows, axes, clean, |rows|);
    CellsExactly(rows, w, |rows|);
    CellsOrdered(rows, w, |rows|);
  }

  // ---------------------------------------------------------------- the import loops

  /** The `top_values` loop over the header row. */
  method HeaderValues(header: seq<string>, clean: string -> real) returns (topValues: seq<real>)
    ensures topValues == TopValues(header, clean)
  {
    topValues := [];
    var c := 1;
    while c < |header|
      invariant 1 <= c && (c <= |header| || c == 1)
      invariant topValues == TopValues(header, clean)[..c - 1]
    {
      var v := clean(header[c]);
      topValues := topValues + [v];
      c := c + 1;
    }
    assert c - 1 == |TopValues(header, clean)|;
  }

  /** The `row_dict` of one price cell: the three values, then each lower bound whose column exists. */
  method BuildRecord(axes: Axes, colMinTop: Option<string>, colMinLeft: Option<string>,
                     topVal: real, leftVal: real, price: real, topMin: real, leftMin: real) returns (rowDict: Record)
    requires colMinTop == MinName(axes.top) && colMinLeft == MinName(axes.left)
    ensures rowDict == RecordFor(axes.top, axes.left, MinColumn(axes.top, axes.currentColumns),
      MinColumn(axes.left, axes.currentColumns), topVal, leftVal, price, topMin, leftMin)
  {
    rowDict := map[axes.top := topVal][axes.left := leftVal]["price" := price];
    if colMinTop.Some? && colMinTop.value != "" && colMinTop.value in axes.currentColumns {
      rowDict := rowDict[colMinTop.value := topMin];
    }
    if colMinLeft.Some? && colMinLeft.value != "" && colMinLeft.value in axes.currentColumns {
      rowDict := rowDict[colMinLeft.value := leftMin];
    }
  }

  /** One pass of the inner loop, for cell `j` of data row `i`: a record is added when the cell is not blank. */
  method ImportCell(rows: seq<seq<string>>, i: nat, j: nat, axes: Axes, clean: string -> real,
                    topValues: seq<real>, topMins: seq<real>, colMinTop: Option<string>, colMinLeft: Option<string>,
                    leftVal: real, minLeftVal: real, records: seq<Record>)
    returns (records': seq<Record>)
    requires 1 <= i < |rows| && 1 <= j < |rows[i]| && j <= |topValues|
    requires topValues == TopValues(rows[0], clean) && topMins == TopMins(topValues)
    requires colMinTop == MinName(axes.top) && colMinLeft == MinName(axes.left)
    requires leftVal == LeftValue(rows[i], clean) && minLeftVal == PrevLeft(rows, i, clean)
    requires records == RowRecords(rows, axes, clean, i, j)
    ensures records' == RowRecords(rows, axes, clean, i, j + 1)
  {
    RowRecordsStep(rows, axes, clean, i, j);
    var priceStr := Strip(rows[i][j]);
    if priceStr == "" {
      return records;
    }
    var price := clean(rows[i][j]);
    var rowDict := BuildRecord(axes, colMinTop, colMinLeft, topValues[j - 1], leftVal, price, topMins[j - 1], minLeftVal);
    RecordAtCell(rows, axes, clean, i, j);
    records' := records + [rowDict];
  }

  lemma RowRecordsStep(rows: seq<seq<string>>, axes: Axes, clean: string -> real, i: nat, j: nat)
    requires 1 <= i < |rows| && 1 <= j < |rows[i]| && j <= |TopValues(rows[0], clean)|
    ensures RowRecords(rows, axes, clean, i, j + 1) == RowRecords(rows, axes, clean, i, j)
      + (if Strip(rows[i][j]) == "" then [] else [RecordAt(rows, axes, clean, Pos(i, j))])
  {
    assert Priced(rows, |TopValues(rows[0], clean)|, Pos(i, j)) <==> Strip(rows[i][j]) != "";
  }

  lemma RecordAtCell(rows: seq<seq<string>>, axes: Axes, clean: string -> real, i: nat, j: nat)
    requires 1 <= i < |rows| && 1 <= j < |rows[i]| && j <= |TopValues(rows[0], clean)|
    ensures RecordAt(rows, axes, clean, Pos(i, j)) == RecordFor(axes.top, axes.left,
      MinColumn(axes.top, axes.currentColumns), MinColumn(axes.left, axes.currentColumns),
      TopValues(rows[0], clean)[j - 1], LeftValue(rows[i], clean), clean(rows[i][j]),
      TopMins(TopValues(rows[0], clean))[j - 1], PrevLeft(rows, i, clean))
  {
  }

  /** The inner loop over the cells of data row `i`; it returns the row's records and its `left_val`. */
  method ImportRow(rows: seq<seq<string>>, i: nat, axes: Axes, clean: string -> real,
                   topValues: seq<real>, topMins: seq<real>, colMinTop: Option<string>, colMinLeft: Option<string>,
                   minLeftVal: real)
    returns (records: seq<Record>, leftVal: real)
    requires 1 <= i < |rows| && |rows[i]| > 0
    requires topValues == TopValues(rows[0], clean) && topMins == TopMins(topValues)
    requires colMinTop == MinName(axes.top) && colMinLeft == MinName(axes.left) && minLeftVal == PrevLeft(rows, i, clean)
    ensures leftVal == LeftValue(rows[i], clean)
    ensures records == RowRecords(rows, axes, clean, i, |rows[i]|)
  {
    var rowData := rows[i];
    leftVal := clean(rowData[0]);
    records := [];
    var j := 1;
    while j < |rowData|
      invariant 1 <= j <= |rowData| && j <= |topValues| + 1
      invariant records == RowRecords(rows, axes, clean, i, j)
    {
      if j > |topValues| {
        break;
      }
      records := ImportCell(rows, i, j, axes, clean, topValues, topMins, colMinTop, colMinLeft, leftVal, minLeftVal, records);
      j := j + 1;
    }
    if j < |rowData| {
      RowRecordsBeyond(rows, axes, clean, i, |rowData|);
    }
  }

  /** The body of the `try` in `process_import`: the header row read, then every data row expanded. */
  method ExpandGrid(rows: seq<seq<string>>, axes: Axes, clean: string -> real) returns (newRows: seq<Record>)
    requires |rows| > 0
    ensures newRows == GridRecords(rows, axes, clean)
  {
    var topValues := HeaderValues(rows[0], clean);
    var colMinTop := if Contains(axes.top, "max") then Some(ReplaceAll(axes.top, "max", "min")) else None;
    var colMinLeft := if Contains(axes.left, "max") then Some(ReplaceAll(axes.left, "max", "min")) else None;
    var topMins := [0.0] + (if |topValues| == 0 then [] else topValues[..|topValues| - 1]);
    assert topMins == TopMins(topValues);
    ghost var width := |topValues|;

    newRows := [];
    var prevLeftVal := 0.0;
    var i := 1;
    while i < |rows|
      invariant 1 <= i <= |rows|
      invariant newRows == RecordsUpTo(rows, axes, clean, i)
      invariant prevLeftVal == PrevLeft(rows, i, clean)
    {
      if |rows[i]| == 0 {
        i := i + 1;
        continue;
      }
      var records, leftVal := ImportRow(rows, i, axes, clean, topValues, topMins, colMinTop, colMinLeft, prevLeftVal);
      newRows := newRows + records;
      prevLeftVal := leftVal;
      i := i + 1;
    }
  }

  /** `process_import`, with the combo boxes' texts and `current_columns` passed in. */
  method ProcessImport(rows: seq<seq<string>>, colTop: string, colLeft: string, currentColumns: seq<string>)
    returns (outcome: ImportOutcome)
    ensures outcome == ImportOf(rows, colTop, colLeft, currentColumns)
  {
    if colTop == Ignore || colLeft == Ignore {
      return AxisMissing;
    }
    if |rows| == 0 {
      return ImportFailed;
    }
    var newRows := ExpandGrid(rows, Axes(colTop, colLeft, currentColumns), Cleaned);
    return Imported(newRows);
  }
}
