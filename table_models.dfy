/**
 * The table view's models: the model that shows and edits the DataFrame
 * cell by cell, and the proxy in front of it that hides the rows whose
 * shown text is not among a column's allowed values.
 */
module TableModels {
  import opened Wrappers
  import opened Numbers
  import opened Table

  /** A model index: Qt's invalid index, or a row and a column, neither negative. */
  datatype ModelIndex = Invalid | Index(row: nat, column: nat)

  datatype Role = DisplayRole | EditRole | TextAlignmentRole | OtherRole(code: int)

  /** What `data` hands back to the view. */
  datatype CellData = NoData | Text(s: string) | AlignCenter

  // ---------------------------------------------------------------- showing a cell

  /**
   * The text a cell is shown with: a number without a fractional part as
   * an integer, any other number with two decimals, a text as it is, and a
   * missing cell (NaN, a float that is not integral) as "nan".
   */
  function DisplayText(cell: Option<Value>): (r: string)
    ensures cell.Some? && cell.value.Num? && IsIntegral(cell.value.x) ==> '.' !in r
    ensures cell.Some? && cell.value.Num? && !IsIntegral(cell.value.x) ==> |r| >= 4 && r[|r| - 3] == '.'
    ensures cell.Some? && cell.value.Num? ==> |r| > 0 && (r[0] == '-' <==> cell.value.x < 0.0)
    ensures cell.Some? && cell.value.Num? && IsIntegral(cell.value.x) ==> IntShaped(r)
    ensures cell.Some? && cell.value.Num? && !IsIntegral(cell.value.x) ==> Fixed2Shaped(r)
    ensures cell.Some? && cell.value.Str? ==> r == cell.value.s
    ensures cell.None? ==> r == "nan"
  {
    match cell
    case None => "nan"
    case Some(Num(x)) => if IsIntegral(x) then IntText(x.Floor) else Fixed2(x)
    case Some(Str(s)) => s
  }

  /** Reading a shown number back gives the number, or the number rounded to cents. */
  lemma DisplayReadBack(x: real)
    ensures ParseFloat(DisplayText(Some(Num(x)))) == Some(if IsIntegral(x) then x else Round2(x))
  {
    if IsIntegral(x) {
      IntTextRoundTrip(x.Floor);
    } else {
      Fixed2RoundTrip(x);
    }
  }

  /** The cell at a position, when the position is inside the table (`None` is NaN). */
  function CellAt(columns: seq<string>, rows: seq<Row>, r: int, c: int): Option<Value>
    requires 0 <= r < |rows| && 0 <= c < |columns|
  {
    if columns[c] in rows[r] then Some(rows[r][columns[c]]) else None
  }

  predicate InTable(columns: seq<string>, rows: seq<Row>, index: ModelIndex) {
    index.Index? && 0 <= index.row < |rows| && 0 <= index.column < |columns|
  }

  /** `PandasModel.data`. */
  function DataOf(columns: seq<string>, rows: seq<Row>, index: ModelIndex, role: Role): (d: CellData)
    ensures d.Text? <==> role == DisplayRole && InTable(columns, rows, index)
    ensures d.Text? ==> d.s == DisplayText(CellAt(columns, rows, index.row, index.column))
    ensures d == AlignCenter <==> role == TextAlignmentRole && index.Index?
    ensures d == NoData <==>
      (index.Invalid? || (role == DisplayRole && !InTable(columns, rows, index)) || (role != DisplayRole && role != TextAlignmentRole))
  {
    if index.Invalid? then NoData
    else if role == DisplayRole then
      if InTable(columns, rows, index) then Text(DisplayText(CellAt(columns, rows, index.row, index.column))) else NoData
    else if role == TextAlignmentRole then AlignCenter
    else NoData
  }

  // ---------------------------------------------------------------- editing a cell

  /** A cell the source treats as a number: a float, or NaN. */
  predicate NumericCell(cell: Option<Value>) {
    cell.None? || cell.value.Num?
  }

  /**
   * The rows after the view writes `value` into the cell at `(r, c)`: into
   * a numeric cell as a number, and then only when the text reads as one
   * (otherwise `None`: the edit is refused); into a text cell as the text.
   */
  function EditCell(columns: seq<string>, rows: seq<Row>, r: int, c: int, value: string): (e: Option<seq<Row>>)
    requires 0 <= r < |rows| && 0 <= c < |columns|
    ensures e.None? <==> NumericCell(CellAt(columns, rows, r, c)) && ParseFloat(value).None?
    ensures e.Some? ==> |e.value| == |rows| && columns[c] in e.value[r]
  {
    var cell := CellAt(columns, rows, r, c);
    if NumericCell(cell) then
      match ParseFloat(value)
      case Some(x) => Some(rows[r := rows[r][columns[c] := Num(x)]])
      case None => None
    else Some(rows[r := rows[r][columns[c] := Str(value)]])
  }

  /**
   * An edit is refused exactly when the cell is numeric and the text does
   * not read as a number; otherwise exactly that one cell changes, to the
   * number read or to the text.
   */
  lemma EditCellEffect(columns: seq<string>, rows: seq<Row>, r: int, c: int, value: string)
    requires 0 <= r < |rows| && 0 <= c < |columns|
    ensures var e := EditCell(columns, rows, r, c, value);
      && (e.None? <==> NumericCell(CellAt(columns, rows, r, c)) && ParseFloat(value).None?)
      && (e.Some? ==>
        && |e.value| == |rows|
        && (forall k :: 0 <= k < |rows| && k != r ==> e.value[k] == rows[k])
        && e.value[r].Keys == rows[r].Keys + {columns[c]}
        && (forall key :: key in rows[r] && key != columns[c] ==> e.value[r][key] == rows[r][key])
        && e.value[r][columns[c]] == if NumericCell(CellAt(columns, rows, r, c))
          then Num(ParseFloat(value).value) else Str(value))
  {
  }

  /**
   * Writing back the text a cell is shown with is always accepted, and
   * leaves a number as it was up to rounding to cents and a text as it was.
   */
  lemma EditShownText(columns: seq<string>, rows: seq<Row>, r: int, c: int)
    requires 0 <= r < |rows| && 0 <= c < |columns| && columns[c] in rows[r]
    ensures var cell := rows[r][columns[c]];
      EditCell(columns, rows, r, c, DisplayText(Some(cell))) == Some(rows[r := rows[r][columns[c] :=
        match cell
        case Num(x) => Num(if IsIntegral(x) then x else Round2(x))
        case Str(s) => Str(s)]])
  {
    var cell := rows[r][columns[c]];
    if cell.Num? {
      DisplayReadBack(cell.x);
    }
  }

  /** `PandasModel`: the table shown and edited in place. */
  class PandasModel {
    var df: DataFrame

    constructor (df: DataFrame)
      ensures this.df == df
    {
      this.df := df;
    }

    /** `data(index, role)` on the current table. */
    function Data(index: ModelIndex, role: Role): CellData
      reads this, df
    {
      DataOf(df.columns, df.rows, index, role)
    }

    /**
     * `setData(index, value, role)`: only an edit is carried out, on the
     * table in place; a refused edit changes nothing.
     */
    method SetData(index: ModelIndex, value: string, role: Role) returns (ok: bool)
      requires role == EditRole ==> InTable(df.columns, df.rows, index)
      modifies df
      ensures df.columns == old(df.columns)
      ensures ok <==> role == EditRole && EditCell(old(df.columns), old(df.rows), index.row, index.column, value).Some?
      ensures ok ==> df.rows == EditCell(old(df.columns), old(df.rows), index.row, index.column, value).value
      ensures !ok ==> df.rows == old(df.rows)
    {
      if role != EditRole {
        return false;
      }
      var r, c := index.row, index.column;
      var column := df.columns[c];
      var current := if column in df.rows[r] then Some(df.rows[r][column]) else None;
      var cell: Value;
      if current.None? || current.value.Num? {
        var parsed := ParseFloat(value);
        if parsed.None? {
          return false;
        }
        cell := Num(parsed.value);
      } else {
        cell := Str(value);
      }
      df.rows := df.rows[r := df.rows[r][column := cell]];
      return true;
    }
  }

  // ---------------------------------------------------------------- filtering rows

  /** `model.index(row, column)`: Qt's invalid index for a position outside the table. */
  function IndexAt(columns: seq<string>, rows: seq<Row>, row: int, column: int): (index: ModelIndex)
    ensures index.Index? <==> 0 <= row < |rows| && 0 <= column < |columns|
    ensures index.Index? ==> index.row == row && index.column == column && InTable(columns, rows, index)
  {
    if 0 <= row < |rows| && 0 <= column < |columns| then Index(row, column) else Invalid
  }

  /** `str(data)` for a row's cell in a filtered column: the shown text, or "None" off the table. */
  function FilterText(columns: seq<string>, rows: seq<Row>, row: int, column: int): (t: string)
    ensures 0 <= row < |rows| && 0 <= column < |columns| ==> t == DisplayText(CellAt(columns, rows, row, column))
    ensures !(0 <= row < |rows| && 0 <= column < |columns|) ==> t == "None"
  {
    match DataOf(columns, rows, IndexAt(columns, rows, row, column), DisplayRole)
    case Text(s) => s
    case _ => "None"
  }

  /** A row passes when, in every filtered column, its text is among the allowed ones. */
  predicate Passes(filters: map<int, set<string>>, columns: seq<string>, rows: seq<Row>, row: int)
    ensures filters == map[] ==> Passes(filters, columns, rows, row)
  {
    forall column :: column in filters ==> FilterText(columns, rows, row, column) in filters[column]
  }

  /** Dropping a column's filter never hides a row. */
  lemma DropFilterWidens(filters: map<int, set<string>>, column: int, columns: seq<string>, rows: seq<Row>, row: int)
    requires Passes(filters, columns, rows, row)
    ensures Passes(filters - {column}, columns, rows, row)
  {
  }

  /** Setting a column's filter keeps exactly the rows that pass the others and whose text there is allowed. */
  lemma SetFilterNarrows(filters: map<int, set<string>>, column: int, allowed: set<string>,
                         columns: seq<string>, rows: seq<Row>, row: int)
    ensures Passes(filters[column := allowed], columns, rows, row)
      <==> Passes(filters - {column}, columns, rows, row) && FilterText(columns, rows, row, column) in allowed
  {
    if Passes(filters - {column}, columns, rows, row) && FilterText(columns, rows, row, column) in allowed {
      forall k | k in filters[column := allowed]
        ensures FilterText(columns, rows, row, k) in filters[column := allowed][k]
      {
        if k != column {
          assert k in filters - {column};
        }
      }
    }
  }

  /** A non-empty set of column indices has a member to take next. */
  lemma HasElement(s: set<int>)
    requires s != {}
    ensures exists x :: x in s
  {
    if forall x :: x !in s {
      assert false;
    }
  }

  /** `FilterProxyModel`: the allowed texts per column index, over a source model. */
  class FilterProxyModel {
    var filters: map<int, set<string>>
    var source: PandasModel

    constructor (source: PandasModel)
      ensures filters == map[] && this.source == source
    {
      filters := map[];
      this.source := source;
    }

    /** `filterAcceptsRow(row)` on the source's current table. */
    predicate Accepts(row: int)
      reads this, source, source.df
    {
      Passes(filters, source.df.columns, source.df.rows, row)
    }

    /** `setFilterByColumn`: `None` removes the column's filter, values replace it. */
    method SetFilterByColumn(column: int, allowedValues: Option<seq<string>>)
      modifies this
      ensures source == old(source)
      ensures allowedValues.None? ==> filters == old(filters) - {column}
      ensures allowedValues.Some? ==> filters == old(filters)[column := set v | v in allowedValues.value]
    {
      if allowedValues.None? {
        if column in filters {
          filters := filters - {column};
        }
      } else {
        filters := filters[column := set v | v in allowedValues.value];
      }
    }

    /** `clearFilters`: every row is accepted afterwards. */
    method ClearFilters()
      modifies this
      ensures source == old(source) && filters == map[]
      ensures forall row :: Accepts(row)
    {
      filters := map[];
    }

    /** The loop of `filterAcceptsRow`, over the filtered columns in any order, leaving at the first mismatch. */
    method FilterAcceptsRow(row: int) returns (accepted: bool)
      ensures accepted <==> Accepts(row)
      ensures filters == map[] ==> accepted
    {
      if filters == map[] {
        return true;
      }
      var df := source.df;
      var pending := filters.Keys;
      while pending != {}
        invariant pending <= filters.Keys
        invariant forall k :: k in filters.Keys - pending ==> FilterText(df.columns, df.rows, row, k) in filters[k]
        decreases |pending|
      {
        HasElement(pending);
        var c :| c in pending;
        var data := DataOf(df.columns, df.rows, IndexAt(df.columns, df.rows, row, c), DisplayRole);
        var text := if data.Text? then data.s else "None";
        if text !in filters[c] {
          return false;
        }
        pending := pending - {c};
      }
      return true;
    }
  }
}
