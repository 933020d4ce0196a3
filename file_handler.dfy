/** The loader (backend/file_handler.py): format dispatch on the file name,
    the (table, error) pair it returns, the file summary, and the article
    roster offered for filtering. */
module FileHandler {
  import opened Wrappers
  import opened Seqs
  import opened Strings
  import opened Tables

  const UNSUPPORTED_FORMAT := "Formato de archivo no soportado"
  const LOAD_ERROR_PREFIX := "Error al cargar archivo: "

  /** The two readers: `pd.read_excel` and `pd.read_csv`. */
  datatype Format = Excel | Csv

  /** The reader a file name selects, by a case-sensitive suffix test. */
  function DetectFormat(name: string): (r: Option<Format>)
    ensures r == Some(Excel) <==> EndsWith(name, ".xlsx") || EndsWith(name, ".xls")
    ensures r == Some(Csv) <==> EndsWith(name, ".csv")
    ensures r.None? <==> !EndsWith(name, ".xlsx") && !EndsWith(name, ".xls") && !EndsWith(name, ".csv")
  {
    CsvSuffixIsNotExcel(name);
    if EndsWith(name, ".xlsx") || EndsWith(name, ".xls") then Some(Excel)
    else if EndsWith(name, ".csv") then Some(Csv)
    else None
  }

  /** A name ending in ".csv" ends in neither Excel suffix. */
  lemma CsvSuffixIsNotExcel(name: string)
    ensures EndsWith(name, ".csv") ==> !EndsWith(name, ".xlsx") && !EndsWith(name, ".xls")
  {
    if EndsWith(name, ".csv") {
      assert name[|name| - 1] == 'v';
    }
  }

  /** The suffix alone decides the format, and only in lower case. */
  lemma FormatBySuffix(stem: string)
    ensures DetectFormat(stem + ".xlsx") == Some(Excel)
    ensures DetectFormat(stem + ".xls") == Some(Excel)
    ensures DetectFormat(stem + ".csv") == Some(Csv)
    ensures DetectFormat(stem + ".CSV") == None
    ensures DetectFormat(stem + ".XLSX") == None
  {
    var csv, upper, upperX := stem + ".csv", stem + ".CSV", stem + ".XLSX";
    assert csv[|csv| - 1] == 'v';
    assert upper[|upper| - 1] == 'V';
    assert upperX[|upperX| - 1] == 'X';
  }

  /** `load_file`. Reading is input/output, so `read` gives, per format, the
      table the reader returns or the message of the exception it raises. The
      result is the pair (table, error) of the source. */
  function LoadFile(name: string, read: Format -> Result<Table, string>): (r: (Option<Table>, Option<string>))
    ensures r.0.Some? != r.1.Some?
    ensures DetectFormat(name).None? ==> r == (None, Some(UNSUPPORTED_FORMAT))
    ensures DetectFormat(name).Some? && read(DetectFormat(name).value).Success? ==>
      r.0 == Some(read(DetectFormat(name).value).value)
    ensures DetectFormat(name).Some? && read(DetectFormat(name).value).Failure? ==>
      r == (None, Some(LOAD_ERROR_PREFIX + read(DetectFormat(name).value).error))
  {
    match DetectFormat(name)
    case None => (None, Some(UNSUPPORTED_FORMAT))
    case Some(format) =>
      match read(format)
      case Success(t) => (Some(t), None)
      case Failure(message) => (None, Some(LOAD_ERROR_PREFIX + message))
  }

  /** The non-missing cells of the article column (`df['articulo'].dropna()`). */
  function PresentArticles(t: Table): seq<Value> {
    Filter(Column(t, ARTICLE_COLUMN), (v: Value) => !v.Missing?)
  }

  /** `df['articulo'].dropna().unique()`: each present value once, in the order
      it first appears. */
  function ArticleValues(t: Table): (r: seq<Value>)
    ensures NoDuplicates(r)
    ensures |r| <= |t.rows|
    ensures forall v :: v in r <==> v in Column(t, ARTICLE_COLUMN) && !v.Missing?
    ensures forall v :: v in r <==> v in PresentArticles(t)
    ensures forall i, j :: 0 <= i < j < |r| ==>
      FirstIndex(PresentArticles(t), r[i]) < FirstIndex(PresentArticles(t), r[j])
  {
    FilterContents(Column(t, ARTICLE_COLUMN), (v: Value) => !v.Missing?);
    DistinctFirstAppearance(PresentArticles(t));
    Distinct(PresentArticles(t))
  }

  /** Python's `str(x)` of a cell: a text is itself; how other kinds of value
      print is left to `show`. */
  function CellText(v: Value, show: Value -> string): string {
    if v.Text? then v.s else show(v)
  }

  /** `_detect_unique_articles_simple`: "Todos" followed by the article values
      as text, or only "Todos" when there is no `articulo` column. */
  function UniqueArticles(t: Table, show: Value -> string): (r: seq<string>)
    ensures |r| >= 1 && r[0] == ALL_ARTICLES
    ensures |r| <= |t.rows| + 1
    ensures ARTICLE_COLUMN !in t.columns ==> r == [ALL_ARTICLES]
    ensures ARTICLE_COLUMN in t.columns ==>
      |r| == |ArticleValues(t)| + 1 &&
      forall i :: 0 <= i < |ArticleValues(t)| ==> r[i + 1] == CellText(ArticleValues(t)[i], show)
  {
    if ARTICLE_COLUMN in t.columns then
      var values := ArticleValues(t);
      [ALL_ARTICLES] + seq(|values|, i requires 0 <= i < |values| => CellText(values[i], show))
    else [ALL_ARTICLES]
  }

  /** An article cell is a text, or missing (NaN, which `dropna()` removes). */
  predicate TextOrMissingArticles(t: Table) {
    forall i :: 0 <= i < |t.rows| ==> Cell(t.rows[i], ARTICLE_COLUMN).Text? || Cell(t.rows[i], ARTICLE_COLUMN).Missing?
  }

  /** When every article cell is a text or missing, the roster after "Todos"
      names each present article exactly once and names nothing else. */
  lemma TextArticlesListedOnce(t: Table, show: Value -> string)
    requires ARTICLE_COLUMN in t.columns
    requires TextOrMissingArticles(t)
    ensures NoDuplicates(UniqueArticles(t, show)[1..])
    ensures forall i :: 0 <= i < |t.rows| && Cell(t.rows[i], ARTICLE_COLUMN).Text? ==>
      Cell(t.rows[i], ARTICLE_COLUMN).s in UniqueArticles(t, show)[1..]
    ensures forall k :: 0 <= k < |UniqueArticles(t, show)[1..]| ==>
      exists i :: 0 <= i < |t.rows| && Cell(t.rows[i], ARTICLE_COLUMN) == Text(UniqueArticles(t, show)[1..][k])
  {
    TextArticlesNamed(t, show);
    TextsOfDistinctValues(ArticleValues(t), UniqueArticles(t, show)[1..]);
    TextArticlesPresent(t);
  }

  /** A text article cell of any row is one of the article values. */
  lemma TextArticlesPresent(t: Table)
    ensures forall i :: 0 <= i < |t.rows| && Cell(t.rows[i], ARTICLE_COLUMN).Text? ==>
      Cell(t.rows[i], ARTICLE_COLUMN) in ArticleValues(t)
  {
    forall i | 0 <= i < |t.rows| && Cell(t.rows[i], ARTICLE_COLUMN).Text?
      ensures Cell(t.rows[i], ARTICLE_COLUMN) in ArticleValues(t)
    {
      assert Column(t, ARTICLE_COLUMN)[i] == Cell(t.rows[i], ARTICLE_COLUMN);
    }
  }

  /** With text or missing article cells the roster after "Todos" holds each
      article value's own text, and each value is the cell of some row. */
  lemma TextArticlesNamed(t: Table, show: Value -> string)
    requires ARTICLE_COLUMN in t.columns
    requires TextOrMissingArticles(t)
    ensures |UniqueArticles(t, show)[1..]| == |ArticleValues(t)|
    ensures forall k :: 0 <= k < |ArticleValues(t)| ==>
      ArticleValues(t)[k].Text? && UniqueArticles(t, show)[1..][k] == ArticleValues(t)[k].s
    ensures forall k :: 0 <= k < |ArticleValues(t)| ==>
      exists i :: 0 <= i < |t.rows| && Cell(t.rows[i], ARTICLE_COLUMN) == ArticleValues(t)[k]
  {
    var values := ArticleValues(t);
    var r := UniqueArticles(t, show);
    var column := Column(t, ARTICLE_COLUMN);
    forall k | 0 <= k < |values|
      ensures values[k].Text? && r[1..][k] == values[k].s
      ensures exists i :: 0 <= i < |t.rows| && Cell(t.rows[i], ARTICLE_COLUMN) == values[k]
    {
      assert values[k] in column;
      var i :| 0 <= i < |column| && column[i] == values[k];
      assert Cell(t.rows[i], ARTICLE_COLUMN) == values[k];
      assert r[1..][k] == r[k + 1];
    }
  }

  /** Texts read off distinct text values are distinct, and each value's text
      is among them. */
  lemma TextsOfDistinctValues(values: seq<Value>, texts: seq<string>)
    requires NoDuplicates(values)
    requires |texts| == |values|
    requires forall k :: 0 <= k < |values| ==> values[k].Text? && texts[k] == values[k].s
    ensures NoDuplicates(texts)
    ensures forall v :: v in values ==> v.s in texts
  {
    forall i, j | 0 <= i < j < |texts| ensures texts[i] != texts[j] {
      assert values[i] != values[j];
    }
    forall v | v in values ensures v.s in texts {
      var k :| 0 <= k < |values| && values[k] == v;
      assert texts[k] == v.s;
    }
  }

  /** The part of `get_file_info` this model keeps (the dtype lists are left out). */
  datatype FileInfo = FileInfo(rows: nat, columns: nat, columnNames: seq<string>, uniqueArticles: seq<string>)

  /** `get_file_info`. */
  function GetFileInfo(t: Table, show: Value -> string): (info: FileInfo)
    ensures info.rows == |t.rows|
    ensures info.columns == |info.columnNames| && info.columnNames == t.columns
    ensures info.uniqueArticles == UniqueArticles(t, show)
    ensures info.uniqueArticles[0] == ALL_ARTICLES && |info.uniqueArticles| <= info.rows + 1
  {
    FileInfo(|t.rows|, |t.columns|, t.columns, UniqueArticles(t, show))
  }
}
