/**
 * The tabular side: cell values, rows and the in-memory table (a pandas
 * DataFrame in the source) that the engine, the bulk adjuster and the table
 * model share and update in place.
 */
module Table {
  import opened Wrappers
  import opened Numbers

  /** A cell: a number (a Python float) or a text. */
  datatype Value = Num(x: real) | Str(s: string)

  /**
   * A row maps column codes to cells. A column of the table that is not a key
   * of the row stands for pandas' NaN (a missing cell).
   */
  type Row = map<string, Value>

  /** The source's `try: float(text) except: text` for a text read from the document. */
  function ParseValue(text: string): (v: Value)
    ensures v.Num? <==> ParseFloat(text).Some?
    ensures v.Num? ==> v.x == ParseFloat(text).value
    ensures v.Str? ==> v.s == text
  {
    match ParseFloat(text)
    case Some(x) => Num(x)
    case None => Str(text)
  }

  /**
   * pandas' `is_numeric_dtype` for a column, judged from its values: every
   * present cell is a number. The column's dtype itself is not modelled, so
   * a column of dtype `object` that holds only numbers counts as numeric.
   */
  predicate NumericColumn(rows: seq<Row>, column: string) {
    forall i :: 0 <= i < |rows| && column in rows[i] ==> rows[i][column].Num?
  }

  /** A DataFrame: the column codes in order and the rows in order (the index is 0..n-1). */
  class DataFrame {
    var columns: seq<string>
    var rows: seq<Row>

    constructor (columns: seq<string>, rows: seq<Row>)
      ensures this.columns == columns && this.rows == rows
    {
      this.columns := columns;
      this.rows := rows;
    }
  }
}
