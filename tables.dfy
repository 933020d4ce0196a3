/** The in-memory table (a pandas DataFrame) shared by the loader, the
    forecaster and the preview. */
module Tables {

  /** One cell. Numbers are reals (pandas stores them as floats or ints),
      `Day(n)` is a timestamp given by its day number (see module Calendar;
      the time of day is not kept),
      and `Missing` is NaN/None/NaT. */
  datatype Value = Missing | Num(x: real) | Text(s: string) | Day(n: int)

  /** A row maps column names to cells. */
  type Row = map<string, Value>

  /** Columns in their order, and the rows in theirs. */
  datatype Table = Table(columns: seq<string>, rows: seq<Row>)

  /** Column names the application gives meaning to. */
  const ARTICLE_COLUMN := "articulo"
  const DATE_COLUMN := "fecha"
  const DEMAND_COLUMN := "demanda"

  /** The roster entry, and the forecast filter, that stand for every article. */
  const ALL_ARTICLES := "Todos"

  /** The cell of `row` in `column`; a row that lacks the column reads as missing. */
  function Cell(row: Row, column: string): Value {
    if column in row then row[column] else Missing
  }

  /** The cells of one column, top to bottom (`df[column]`). */
  function Column(t: Table, column: string): seq<Value> {
    seq(|t.rows|, i requires 0 <= i < |t.rows| => Cell(t.rows[i], column))
  }

  /** pandas' `DataFrame.empty`: no rows, or no columns. */
  predicate IsEmpty(t: Table) {
    |t.rows| == 0 || |t.columns| == 0
  }
}
