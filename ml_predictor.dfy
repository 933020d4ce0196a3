/** The forecaster (backend/ml_predictor.py). `predict_demand` checks its
    inputs, filters and sorts the rows, derives calendar features, fits a
    regressor and predicts one value per day of a run of future days;
    `export_to_excel` combines the historical and the predicted days into one
    chronological table with a summary. The regressor itself is a parameter. */
module MlPredictor {
  import opened Wrappers
  import opened Seqs
  import opened Tables
  import Calendar

  const ELAPSED_COLUMN := "dias_desde_inicio"
  const YEAR_COLUMN := "año"
  const MONTH_COLUMN := "mes"
  const DAY_COLUMN := "dia"
  const WEEKDAY_COLUMN := "dia_semana"

  /** Fewer rows than this after filtering is too little to train on. */
  const MIN_TRAINING_ROWS := 10
  const MODEL_INFO := "RandomForest (n_estimators=100)"

  /** One training or prediction input: (año, mes, dia, dia_semana). */
  datatype Features = Features(year: real, month: real, day: real, weekday: real)

  /** The regressor (a random forest with 100 trees, depth 10, seed 42): fitted
      on feature rows and their demands, it gives the function that predicts a
      demand from a feature row. */
  type Regressor = (seq<Features>, seq<real>) -> (Features -> real)

  /** Why `predict_demand` returns None. */
  datatype ForecastFailure =
    | EmptyTable
    | MissingDemandColumn
    | MissingDateColumn
    | MissingArticleColumn
    | InsufficientData(rows: nat)
    | InvalidDate  // a date cell `pd.to_datetime` cannot convert
    | FitError     // a feature or demand value the regressor cannot train on
    | NoFutureDays // `model.predict` on the empty frame of a zero-day horizon

  /** The dictionary `predict_demand` returns. */
  datatype Forecast = Forecast(
    historicalDates: seq<int>,
    historicalDemand: seq<real>,
    futureDates: seq<int>,
    predictions: seq<real>,
    article: string,
    horizon: nat,
    modelInfo: string)

  /** The four calendar features of day number `n` (`.dt.year`, `.dt.month`,
      `.dt.day`, `.dt.dayofweek`). */
  function DateFeatures(n: int): (f: Features)
    ensures 1.0 <= f.month <= 12.0 && 1.0 <= f.day <= 31.0 && 0.0 <= f.weekday <= 6.0
  {
    var d := Calendar.CivilDate(n);
    Features(d.year as real, d.month as real, d.day as real, Calendar.Weekday(n) as real)
  }

  /** The features of a day are a valid date naming that very day, and its
      weekday. */
  lemma DateFeaturesFacts(n: int)
    ensures 1.0 <= DateFeatures(n).month <= 12.0 && 1.0 <= DateFeatures(n).day <= 31.0
    ensures 0.0 <= DateFeatures(n).weekday <= 6.0
    ensures var f := DateFeatures(n);
      && Calendar.IsValid(Calendar.Date(f.year.Floor, f.month.Floor, f.day.Floor))
      && Calendar.DayNumber(Calendar.Date(f.year.Floor, f.month.Floor, f.day.Floor)) == n
    ensures DateFeatures(n).weekday == Calendar.Weekday(n) as real
  {
    Calendar.DayNumberOfCivilDate(n);
  }

  /** The day number in a row's date cell (0 when it holds none). */
  function DateOf(row: Row): int {
    match Cell(row, DATE_COLUMN)
    case Day(n) => n
    case _ => 0
  }

  /** The key `sort_values('fecha')` orders the rows by: the row's date. */
  function DateKey(row: Row): (n: int)
    ensures n == DateOf(row)
  {
    DateOf(row)
  }

  /** Every row holds a timestamp in its date cell. */
  predicate AllDated(rows: seq<Row>) {
    forall i :: 0 <= i < |rows| ==> Cell(rows[i], DATE_COLUMN).Day?
  }

  /** The day numbers of the rows' dates (`df_ml['fecha'].values`). */
  function DatesOf(rows: seq<Row>): (dates: seq<int>)
    ensures |dates| == |rows|
    ensures forall i {:trigger dates[i]} :: 0 <= i < |rows| ==> dates[i] == DateOf(rows[i])
  {
    seq(|rows|, i requires 0 <= i < |rows| => DateOf(rows[i]))
  }

  /** No day is later than the one that follows it. */
  predicate Ascending(s: seq<int>) {
    |s| <= 1 || (s[0] <= s[1] && Ascending(s[1..]))
  }

  /** In an ascending sequence every day is at most every later one. */
  lemma {:induction false} AscendingPairs(s: seq<int>)
    requires Ascending(s)
    ensures forall i, j :: 0 <= i < j < |s| ==> s[i] <= s[j]
  {
    if |s| > 1 {
      AscendingPairs(s[1..]);
      assert forall k :: 1 <= k < |s| ==> s[k] == s[1..][k - 1];
    }
  }

  /** A sequence whose every day is at most every later one is ascending. */
  lemma {:induction false} PairsAscending(s: seq<int>)
    requires forall i, j :: 0 <= i < j < |s| ==> s[i] <= s[j]
    ensures Ascending(s)
  {
    if |s| > 1 {
      forall i, j | 0 <= i < j < |s[1..]| ensures s[1..][i] <= s[1..][j] {
        assert s[1..][i] == s[i + 1] && s[1..][j] == s[j + 1];
      }
      PairsAscending(s[1..]);
    }
  }

  /** The rows are in ascending date order. */
  predicate DatesAscending(rows: seq<Row>) {
    Ascending(DatesOf(rows))
  }

  /** Rows in ascending date order are exactly the rows sorted by date. */
  lemma DatesAscendingPairs(rows: seq<Row>)
    ensures DatesAscending(rows) <==> forall i, j :: 0 <= i < j < |rows| ==> DateOf(rows[i]) <= DateOf(rows[j])
  {
    var d := DatesOf(rows);
    if DatesAscending(rows) {
      AscendingPairs(d);
      forall i, j | 0 <= i < j < |rows| ensures DateOf(rows[i]) <= DateOf(rows[j]) {
        assert d[i] <= d[j];
      }
    }
    if forall i, j :: 0 <= i < j < |rows| ==> DateOf(rows[i]) <= DateOf(rows[j]) {
      forall i, j | 0 <= i < j < |d| ensures d[i] <= d[j] {
      }
      PairsAscending(d);
    }
  }

  /** `df['articulo'] == articulo`: a text cell equal to `article`. */
  predicate IsArticle(article: string, row: Row) {
    Cell(row, ARTICLE_COLUMN) == Text(article)
  }

  /** The rows the forecast trains on: all of them for "Todos", otherwise
      those of the requested article. */
  function SelectArticle(rows: seq<Row>, article: string): (r: seq<Row>)
    ensures |r| <= |rows|
    ensures article == ALL_ARTICLES ==> r == rows
    ensures article != ALL_ARTICLES ==> forall i :: 0 <= i < |r| ==> IsArticle(article, r[i])
  {
    if article == ALL_ARTICLES then rows
    else
      var r := Filter(rows, (row: Row) => IsArticle(article, row));
      FilterContents(rows, (row: Row) => IsArticle(article, row));
      assert forall i :: 0 <= i < |r| ==> r[i] in r;
      r
  }

  lemma SelectArticleContents(rows: seq<Row>, article: string)
    ensures article == ALL_ARTICLES ==> SelectArticle(rows, article) == rows
    ensures article != ALL_ARTICLES ==> forall row :: row in SelectArticle(rows, article) ==> IsArticle(article, row)
    ensures article != ALL_ARTICLES ==> forall row ::
      multiset(SelectArticle(rows, article))[row] == if IsArticle(article, row) then multiset(rows)[row] else 0
    ensures article != ALL_ARTICLES ==> SubsequenceOf(SelectArticle(rows, article), rows)
  {
    if article != ALL_ARTICLES {
      FilterContents(rows, (row: Row) => IsArticle(article, row));
      FilterIsSubsequence(rows, (row: Row) => IsArticle(article, row));
    }
  }

  /** `df_ml['fecha'].min()`. */
  function EarliestDate(rows: seq<Row>): int
    requires |rows| > 0
  {
    if |rows| == 1 then DateOf(rows[0])
    else
      var rest := EarliestDate(rows[1..]);
      if DateOf(rows[0]) <= rest then DateOf(rows[0]) else rest
  }

  /** `df_ml['fecha'].max()`. */
  function LatestDate(rows: seq<Row>): int
    requires |rows| > 0
  {
    if |rows| == 1 then DateOf(rows[0])
    else
      var rest := LatestDate(rows[1..]);
      if DateOf(rows[0]) >= rest then DateOf(rows[0]) else rest
  }

  /** The earliest date is the date of some row and no row is earlier. */
  lemma {:induction false} EarliestDateIsMinimum(rows: seq<Row>)
    requires |rows| > 0
    ensures forall i :: 0 <= i < |rows| ==> EarliestDate(rows) <= DateOf(rows[i])
    ensures exists i :: 0 <= i < |rows| && DateOf(rows[i]) == EarliestDate(rows)
  {
    if |rows| > 1 {
      EarliestDateIsMinimum(rows[1..]);
      assert forall i :: 1 <= i < |rows| ==> rows[i] == rows[1..][i - 1];
      var k :| 0 <= k < |rows[1..]| && DateOf(rows[1..][k]) == EarliestDate(rows[1..]);
      if DateOf(rows[0]) <= EarliestDate(rows[1..]) {
        assert DateOf(rows[0]) == EarliestDate(rows);
      } else {
        assert DateOf(rows[k + 1]) == EarliestDate(rows);
      }
    } else {
      assert DateOf(rows[0]) == EarliestDate(rows);
    }
  }

  /** The latest date is the date of some row and no row is later. */
  lemma {:induction false} LatestDateIsMaximum(rows: seq<Row>)
    requires |rows| > 0
    ensures forall i :: 0 <= i < |rows| ==> DateOf(rows[i]) <= LatestDate(rows)
    ensures exists i :: 0 <= i < |rows| && DateOf(rows[i]) == LatestDate(rows)
  {
    if |rows| > 1 {
      LatestDateIsMaximum(rows[1..]);
      assert forall i :: 1 <= i < |rows| ==> rows[i] == rows[1..][i - 1];
      var k :| 0 <= k < |rows[1..]| && DateOf(rows[1..][k]) == LatestDate(rows[1..]);
      if DateOf(rows[0]) >= LatestDate(rows[1..]) {
        assert DateOf(rows[0]) == LatestDate(rows);
      } else {
        assert DateOf(rows[k + 1]) == LatestDate(rows);
      }
    } else {
      assert DateOf(rows[0]) == LatestDate(rows);
    }
  }

  /** The rows with `dias_desde_inicio` set to the days since `start`. */
  function ElapsedSince(rows: seq<Row>, start: int): (r: seq<Row>)
    ensures |r| == |rows|
    ensures forall i, c :: 0 <= i < |rows| && c != ELAPSED_COLUMN ==> Cell(r[i], c) == Cell(rows[i], c)
    ensures forall i :: 0 <= i < |rows| ==> Cell(r[i], ELAPSED_COLUMN) == Num((DateOf(rows[i]) - start) as real)
  {
    seq(|rows|, i requires 0 <= i < |rows| => rows[i][ELAPSED_COLUMN := Num((DateOf(rows[i]) - start) as real)])
  }

  /** `df_ml['dias_desde_inicio'] = (df_ml['fecha'] - df_ml['fecha'].min()).dt.days`. */
  function WithElapsedDays(rows: seq<Row>): (r: seq<Row>)
    ensures |r| == |rows|
    ensures rows != [] ==> forall i :: 0 <= i < |rows| ==>
      Cell(r[i], ELAPSED_COLUMN) == Num((DateOf(rows[i]) - EarliestDate(rows)) as real)
  {
    if rows == [] then [] else ElapsedSince(rows, EarliestDate(rows))
  }

  /** Adding `dias_desde_inicio` changes no other cell. */
  lemma ElapsedDaysKeepCells(rows: seq<Row>)
    ensures forall i, c :: 0 <= i < |rows| && c != ELAPSED_COLUMN ==>
      Cell(WithElapsedDays(rows)[i], c) == Cell(rows[i], c)
  {
    if rows != [] {
      assert WithElapsedDays(rows) == ElapsedSince(rows, EarliestDate(rows));
    }
  }

  /** `dias_desde_inicio` counts the days from the earliest date, so it is never
      negative. */
  lemma ElapsedDaysNonNegative(rows: seq<Row>)
    requires |rows| > 0
    ensures forall i :: 0 <= i < |rows| ==> Cell(WithElapsedDays(rows)[i], ELAPSED_COLUMN).x >= 0.0
  {
    EarliestDateIsMinimum(rows);
  }

  /** On date-sorted rows `dias_desde_inicio` counts from the first row's date. */
  lemma ElapsedDaysOfSorted(rows: seq<Row>)
    requires |rows| > 0 && DatesAscending(rows)
    ensures forall i :: 0 <= i < |rows| ==>
      Cell(WithElapsedDays(rows)[i], ELAPSED_COLUMN) == Num((DateOf(rows[i]) - DateOf(rows[0])) as real)
  {
    DatesAscendingPairs(rows);
    var m := EarliestDate(rows);
    EarliestDateIsMinimum(rows);
    var k :| 0 <= k < |rows| && DateOf(rows[k]) == m;
    assert DateOf(rows[0]) <= DateOf(rows[k]);
    assert m == DateOf(rows[0]);
    assert WithElapsedDays(rows) == ElapsedSince(rows, m);
  }

  predicate IsCalendarColumn(c: string) {
    c == YEAR_COLUMN || c == MONTH_COLUMN || c == DAY_COLUMN || c == WEEKDAY_COLUMN
  }

  /** The date, demand, elapsed-days and calendar column names are all different. */
  lemma ColumnNamesDistinct()
    ensures DATE_COLUMN != ELAPSED_COLUMN && !IsCalendarColumn(DATE_COLUMN)
    ensures DEMAND_COLUMN != ELAPSED_COLUMN && !IsCalendarColumn(DEMAND_COLUMN)
    ensures !IsCalendarColumn(ELAPSED_COLUMN)
  {
    assert |DATE_COLUMN| == 5 && |DEMAND_COLUMN| == 7 && |ELAPSED_COLUMN| == 17;
    assert |YEAR_COLUMN| == 3 && |MONTH_COLUMN| == 3 && |DAY_COLUMN| == 3 && |WEEKDAY_COLUMN| == 10;
  }

  /** `all(col in df_ml.columns for col in ['año', 'mes', 'dia', 'dia_semana'])`. */
  predicate HasCalendarColumns(columns: seq<string>) {
    YEAR_COLUMN in columns && MONTH_COLUMN in columns && DAY_COLUMN in columns && WEEKDAY_COLUMN in columns
  }

  /** The column list after `df[c] = ...`: an existing column keeps its
      place, a new one goes at the end. */
  function WithColumn(columns: seq<string>, c: string): (r: seq<string>)
    ensures forall x :: x in r <==> x in columns || x == c
    ensures |columns| <= |r| && r[..|columns|] == columns
    ensures NoDuplicates(columns) ==> NoDuplicates(r)
  {
    if c in columns then columns else columns + [c]
  }

  /** `df_ml.columns` after the feature step. */
  function PreparedColumns(columns: seq<string>): seq<string> {
    var e := WithColumn(columns, ELAPSED_COLUMN);
    if HasCalendarColumns(e) then e
    else WithColumn(WithColumn(WithColumn(WithColumn(e, YEAR_COLUMN), MONTH_COLUMN), DAY_COLUMN), WEEKDAY_COLUMN)
  }

  /** Adding `dias_desde_inicio` neither adds nor removes a calendar column, so
      the test of backend/ml_predictor.py:72 sees the same calendar columns as the input has. */
  lemma ElapsedColumnKeepsCalendarColumns(columns: seq<string>)
    ensures HasCalendarColumns(WithColumn(columns, ELAPSED_COLUMN)) == HasCalendarColumns(columns)
  {
    ColumnNamesDistinct();
  }

  /** The feature step keeps the input columns in place, in their order, and
      adds `dias_desde_inicio` and whichever calendar columns were missing;
      it adds no column twice. */
  lemma PreparedColumnsFacts(columns: seq<string>)
    ensures var r := PreparedColumns(columns);
      && |columns| <= |r| && r[..|columns|] == columns
      && (forall c :: c in r <==>
            c in columns || c == ELAPSED_COLUMN || (!HasCalendarColumns(columns) && IsCalendarColumn(c)))
      && HasCalendarColumns(r)
      && (NoDuplicates(columns) ==> NoDuplicates(r))
  {
    ElapsedColumnKeepsCalendarColumns(columns);
    var e := WithColumn(columns, ELAPSED_COLUMN);
    if !HasCalendarColumns(e) {
      var y := WithColumn(e, YEAR_COLUMN);
      var m := WithColumn(y, MONTH_COLUMN);
      var d := WithColumn(m, DAY_COLUMN);
      var w := WithColumn(d, WEEKDAY_COLUMN);
      assert w[..|columns|] == d[..|columns|] == m[..|columns|] == y[..|columns|] == e[..|columns|] by {
        assert w[..|d|] == d && d[..|m|] == m && m[..|y|] == y && y[..|e|] == e;
      }
    }
  }

  predicate HasNumericFeatures(row: Row) {
    Cell(row, YEAR_COLUMN).Num? && Cell(row, MONTH_COLUMN).Num? &&
    Cell(row, DAY_COLUMN).Num? && Cell(row, WEEKDAY_COLUMN).Num?
  }

  function RowFeatures(row: Row): Features
    requires HasNumericFeatures(row)
  {
    Features(Cell(row, YEAR_COLUMN).x, Cell(row, MONTH_COLUMN).x,
             Cell(row, DAY_COLUMN).x, Cell(row, WEEKDAY_COLUMN).x)
  }

  /** `X = df_ml[feature_columns]`, or None when a cell is not a number the
      regressor can train on. */
  function ReadFeatures(rows: seq<Row>): (r: Option<seq<Features>>)
    ensures r.None? <==> exists i :: 0 <= i < |rows| && !HasNumericFeatures(rows[i])
    ensures r.Some? ==> |r.value| == |rows| && forall i :: 0 <= i < |rows| ==>
      && Cell(rows[i], YEAR_COLUMN) == Num(r.value[i].year) && Cell(rows[i], MONTH_COLUMN) == Num(r.value[i].month)
      && Cell(rows[i], DAY_COLUMN) == Num(r.value[i].day) && Cell(rows[i], WEEKDAY_COLUMN) == Num(r.value[i].weekday)
  {
    if forall i :: 0 <= i < |rows| ==> HasNumericFeatures(rows[i]) then
      Some(seq(|rows|, i requires 0 <= i < |rows| => RowFeatures(rows[i])))
    else None
  }

  /** `y = df_ml['demanda']`, or None when a cell is not a number. */
  function ReadDemand(rows: seq<Row>): (r: Option<seq<real>>)
    ensures r.None? <==> exists i :: 0 <= i < |rows| && !Cell(rows[i], DEMAND_COLUMN).Num?
    ensures r.Some? ==> |r.value| == |rows| && forall i :: 0 <= i < |rows| ==> Cell(rows[i], DEMAND_COLUMN) == Num(r.value[i])
  {
    if forall i :: 0 <= i < |rows| ==> Cell(rows[i], DEMAND_COLUMN).Num? then
      Some(seq(|rows|, i requires 0 <= i < |rows| => Cell(rows[i], DEMAND_COLUMN).x))
    else None
  }

  /** The features derived from each row's own date. */
  function DerivedFeatures(rows: seq<Row>): seq<Features> {
    seq(|rows|, i requires 0 <= i < |rows| => DateFeatures(DateOf(rows[i])))
  }

  /** `row` with the four calendar cells set to `f`. */
  function WithFeatures(row: Row, f: Features): (r: Row)
    ensures HasNumericFeatures(r) && RowFeatures(r) == f
    ensures forall c :: !IsCalendarColumn(c) ==> Cell(r, c) == Cell(row, c)
  {
    row[YEAR_COLUMN := Num(f.year)][MONTH_COLUMN := Num(f.month)]
       [DAY_COLUMN := Num(f.day)][WEEKDAY_COLUMN := Num(f.weekday)]
  }

  /** The rows with `año`, `mes`, `dia` and `dia_semana` overwritten from the date. */
  function WithCalendarColumns(rows: seq<Row>): (r: seq<Row>)
    ensures |r| == |rows|
    ensures forall i :: 0 <= i < |rows| ==>
      HasNumericFeatures(r[i]) && RowFeatures(r[i]) == DateFeatures(DateOf(rows[i]))
  {
    seq(|rows|, i requires 0 <= i < |rows| => WithFeatures(rows[i], DateFeatures(DateOf(rows[i]))))
  }

  /** Reading the overwritten columns back gives the date-derived features;
      no other cell changes. */
  lemma CalendarColumnsContents(rows: seq<Row>)
    ensures forall i, c :: 0 <= i < |rows| && !IsCalendarColumn(c) ==>
      Cell(WithCalendarColumns(rows)[i], c) == Cell(rows[i], c)
    ensures ReadFeatures(WithCalendarColumns(rows)) == Some(DerivedFeatures(rows))
  {
    var r := WithCalendarColumns(rows);
    assert forall i :: 0 <= i < |r| ==> HasNumericFeatures(r[i]) && RowFeatures(r[i]) == DerivedFeatures(rows)[i];
    var read := seq(|r|, i requires 0 <= i < |r| => RowFeatures(r[i]));
    assert read == DerivedFeatures(rows);
    assert ReadFeatures(r) == Some(read);
  }

  /** What the regressor is fitted on: the existing calendar columns when all
      four are present, otherwise features derived from the dates. */
  function TrainingFeatures(columns: seq<string>, rows: seq<Row>): (r: Option<seq<Features>>)
    ensures HasCalendarColumns(columns) ==> r == ReadFeatures(rows)
    ensures !HasCalendarColumns(columns) ==>
      r.Some? && |r.value| == |rows| && forall i :: 0 <= i < |rows| ==> r.value[i] == DateFeatures(DateOf(rows[i]))
  {
    if HasCalendarColumns(columns) then ReadFeatures(rows) else Some(DerivedFeatures(rows))
  }

  /** `pd.date_range(start, periods=periods, freq='D')`. */
  function DateRange(start: int, periods: nat): (r: seq<int>)
    ensures |r| == periods
    ensures forall i :: 0 <= i < periods ==> r[i] == start + i
  {
    seq(periods, i requires 0 <= i < periods => start + i)
  }

  /** The days of a date range follow each other in the calendar. */
  lemma DateRangeIsCalendarRun(start: int, periods: nat)
    ensures forall i :: 0 <= i < periods - 1 ==>
      Calendar.CivilDate(DateRange(start, periods)[i + 1]) ==
      Calendar.NextDate(Calendar.CivilDate(DateRange(start, periods)[i]))
  {
    var r := DateRange(start, periods);
    forall i | 0 <= i < periods - 1
      ensures Calendar.CivilDate(r[i + 1]) == Calendar.NextDate(Calendar.CivilDate(r[i]))
    {
      var n := r[i];
      assert r[i + 1] == n + 1;
      Calendar.CivilDateSuccessor(n);
    }
  }

  /** The shape every forecast has: at least ten historical days, ascending,
      each with its demand, and `horizon` future days, each with its
      prediction, running on day by day from the day after the last historical one. */
  predicate WellShaped(f: Forecast) {
    && |f.historicalDates| == |f.historicalDemand| >= MIN_TRAINING_ROWS
    && |f.futureDates| == |f.predictions| == f.horizon
    && Ascending(f.historicalDates)
    && (forall i :: 0 <= i < f.horizon ==>
          f.futureDates[i] == f.historicalDates[|f.historicalDates| - 1] + 1 + i)
  }

  /** Every future day comes after every historical day. */
  lemma FutureAfterHistory(f: Forecast)
    requires WellShaped(f)
    ensures forall i, j :: 0 <= i < |f.historicalDates| && 0 <= j < |f.futureDates| ==>
      f.historicalDates[i] < f.futureDates[j]
  {
    AscendingPairs(f.historicalDates);
    var last := |f.historicalDates| - 1;
    forall i, j | 0 <= i < |f.historicalDates| && 0 <= j < |f.futureDates|
      ensures f.historicalDates[i] < f.futureDates[j]
    {
      assert i == last || f.historicalDates[i] <= f.historicalDates[last];
    }
  }

  /** Consecutive future days are consecutive calendar days. */
  lemma FutureDaysConsecutive(f: Forecast)
    requires WellShaped(f)
    ensures forall j :: 0 <= j < |f.futureDates| - 1 ==>
      Calendar.CivilDate(f.futureDates[j + 1]) == Calendar.NextDate(Calendar.CivilDate(f.futureDates[j]))
  {
    forall j | 0 <= j < |f.futureDates| - 1
      ensures Calendar.CivilDate(f.futureDates[j + 1]) == Calendar.NextDate(Calendar.CivilDate(f.futureDates[j]))
    {
      var n := f.futureDates[j];
      assert f.futureDates[j + 1] == n + 1;
      Calendar.CivilDateSuccessor(n);
    }
  }

  /** Sorting dated rows keeps them dated and puts them in date order. */
  lemma SortedRowsFacts(rows: seq<Row>)
    requires AllDated(rows)
    ensures AllDated(SortBy(rows, DateKey))
    ensures DatesAscending(SortBy(rows, DateKey))
  {
    var sorted := SortBy(rows, DateKey);
    assert SortedBy(sorted, DateKey);
    DatesAscendingPairs(sorted);
    forall i | 0 <= i < |sorted| ensures Cell(sorted[i], DATE_COLUMN).Day? {
      assert sorted[i] in multiset(rows);
    }
  }

  /** The rows after the feature step: `dias_desde_inicio` added, and the four
      calendar columns derived from the date unless all four were present. */
  function PreparedRows(rows: seq<Row>, hasCalendar: bool): seq<Row> {
    var e := WithElapsedDays(rows);
    if hasCalendar then e else WithCalendarColumns(e)
  }

  /** The feature step only writes `dias_desde_inicio` and the calendar columns. */
  lemma PreparedRowsKeepCells(rows: seq<Row>, hasCalendar: bool)
    ensures |PreparedRows(rows, hasCalendar)| == |rows|
    ensures forall i, c :: (0 <= i < |rows| && c != ELAPSED_COLUMN && (hasCalendar || !IsCalendarColumn(c))) ==>
      Cell(PreparedRows(rows, hasCalendar)[i], c) == Cell(rows[i], c)
  {
    ElapsedDaysKeepCells(rows);
    if !hasCalendar {
      CalendarColumnsContents(WithElapsedDays(rows));
    }
  }

  /** After the feature step `dias_desde_inicio` counts the days from the date
      of the first of the date-sorted rows. */
  lemma PreparedRowsElapsed(rows: seq<Row>, hasCalendar: bool)
    requires |rows| > 0 && DatesAscending(rows)
    ensures forall i :: 0 <= i < |rows| ==>
      Cell(PreparedRows(rows, hasCalendar)[i], ELAPSED_COLUMN) == Num((DateOf(rows[i]) - DateOf(rows[0])) as real)
  {
    ElapsedDaysOfSorted(rows);
    if !hasCalendar {
      ColumnNamesDistinct();
      CalendarColumnsContents(WithElapsedDays(rows));
    }
  }

  /** When they are derived, the calendar cells of each row are the features
      of its own date. */
  lemma PreparedRowsCalendar(rows: seq<Row>)
    ensures forall i :: 0 <= i < |rows| ==>
      HasNumericFeatures(PreparedRows(rows, false)[i]) &&
      RowFeatures(PreparedRows(rows, false)[i]) == DateFeatures(DateOf(rows[i]))
  {
    var e := WithElapsedDays(rows);
    ColumnNamesDistinct();
    ElapsedDaysKeepCells(rows);
    assert forall i :: 0 <= i < |rows| ==> DateOf(e[i]) == DateOf(rows[i]);
    assert forall i :: 0 <= i < |rows| ==>
      WithCalendarColumns(e)[i] == WithFeatures(e[i], DateFeatures(DateOf(e[i])));
  }

  /** Rows with the same demand cells read the same demand. */
  lemma ReadDemandOfSameCells(a: seq<Row>, b: seq<Row>)
    requires |a| == |b|
    requires forall i :: 0 <= i < |a| ==> Cell(a[i], DEMAND_COLUMN) == Cell(b[i], DEMAND_COLUMN)
    ensures ReadDemand(a) == ReadDemand(b)
  {
    if ReadDemand(b).Some? {
      assert ReadDemand(a).Some?;
      assert ReadDemand(a).value == ReadDemand(b).value;
    }
  }

  /** Two rows agree on the four calendar cells. */
  predicate SameCalendarCells(x: Row, y: Row) {
    && Cell(x, YEAR_COLUMN) == Cell(y, YEAR_COLUMN)
    && Cell(x, MONTH_COLUMN) == Cell(y, MONTH_COLUMN)
    && Cell(x, DAY_COLUMN) == Cell(y, DAY_COLUMN)
    && Cell(x, WEEKDAY_COLUMN) == Cell(y, WEEKDAY_COLUMN)
  }

  /** Rows with the same calendar cells read the same features. */
  lemma ReadFeaturesOfSameCells(a: seq<Row>, b: seq<Row>)
    requires |a| == |b|
    requires forall i :: 0 <= i < |a| ==> SameCalendarCells(a[i], b[i])
    ensures ReadFeatures(a) == ReadFeatures(b)
  {
    if ReadFeatures(b).Some? {
      assert ReadFeatures(a).Some?;
      assert ReadFeatures(a).value == ReadFeatures(b).value;
    }
  }

  /** Rows with the same dates derive the same features. */
  lemma DerivedFeaturesOfSameDates(a: seq<Row>, b: seq<Row>)
    requires |a| == |b|
    requires forall i :: 0 <= i < |a| ==> DateOf(a[i]) == DateOf(b[i])
    ensures DerivedFeatures(a) == DerivedFeatures(b)
  {
  }

  /** The latest date of date-sorted rows is the date of the last row. */
  lemma LatestOfSorted(rows: seq<Row>)
    requires |rows| > 0 && DatesAscending(rows)
    ensures LatestDate(rows) == DateOf(rows[|rows| - 1])
  {
    DatesAscendingPairs(rows);
    var m := LatestDate(rows);
    LatestDateIsMaximum(rows);
    var k :| 0 <= k < |rows| && DateOf(rows[k]) == m;
    assert k == |rows| - 1 || DateOf(rows[k]) <= DateOf(rows[|rows| - 1]);
  }

  /** `p` has the rows of `rows` with the same dates and demands. */
  predicate KeepsHistory(p: seq<Row>, rows: seq<Row>) {
    && |p| == |rows|
    && forall i :: 0 <= i < |rows| ==>
         Cell(p[i], DATE_COLUMN) == Cell(rows[i], DATE_COLUMN) &&
         Cell(p[i], DEMAND_COLUMN) == Cell(rows[i], DEMAND_COLUMN)
  }

  /** Rows that keep the dates of dated, date-sorted rows list those dates in
      ascending order and end on their latest date. */
  lemma DatesOfHistory(p: seq<Row>, rows: seq<Row>)
    requires KeepsHistory(p, rows) && AllDated(rows) && DatesAscending(rows)
    ensures |DatesOf(p)| == |rows|
    ensures forall i :: 0 <= i < |rows| ==> Cell(rows[i], DATE_COLUMN) == Day(DatesOf(p)[i])
    ensures Ascending(DatesOf(p))
    ensures |rows| > 0 ==> LatestDate(p) == DatesOf(p)[|DatesOf(p)| - 1]
  {
    assert DatesOf(p) == DatesOf(rows);
    if |rows| > 0 {
      LatestOfSorted(p);
    }
  }

  /** Rows that keep the demands of `rows` read the same demand, one value per row. */
  lemma DemandOfHistory(p: seq<Row>, rows: seq<Row>)
    requires KeepsHistory(p, rows)
    ensures ReadDemand(p) == ReadDemand(rows)
    ensures ReadDemand(p).Some? ==>
      && |ReadDemand(p).value| == |rows|
      && forall i :: 0 <= i < |rows| ==> Cell(rows[i], DEMAND_COLUMN) == Num(ReadDemand(p).value[i])
  {
    ReadDemandOfSameCells(p, rows);
  }

  /** The feature step keeps each row's date and demand. */
  lemma PreparedRowsKeepHistory(rows: seq<Row>, hasCalendar: bool)
    ensures KeepsHistory(PreparedRows(rows, hasCalendar), rows)
  {
    ColumnNamesDistinct();
    PreparedRowsKeepCells(rows, hasCalendar);
  }

  /** With all four calendar columns present, the features read are the
      rows' own calendar cells. */
  lemma PreparedFeaturesExisting(rows: seq<Row>)
    ensures ReadFeatures(PreparedRows(rows, true)) == ReadFeatures(rows)
  {
    var e := WithElapsedDays(rows);
    ElapsedDaysKeepCells(rows);
    assert forall i :: 0 <= i < |rows| ==> SameCalendarCells(e[i], rows[i]);
    ReadFeaturesOfSameCells(e, rows);
  }

  /** Otherwise the features read are the ones derived from the dates. */
  lemma PreparedFeaturesDerived(rows: seq<Row>)
    ensures ReadFeatures(PreparedRows(rows, false)) == Some(DerivedFeatures(rows))
  {
    var e := WithElapsedDays(rows);
    ElapsedDaysKeepCells(rows);
    CalendarColumnsContents(e);
    assert forall i :: 0 <= i < |rows| ==> DateOf(e[i]) == DateOf(rows[i]);
    DerivedFeaturesOfSameDates(e, rows);
  }

  /** The features read from the prepared rows are the training features of
      the rows. */
  lemma PreparedRowsFeatures(rows: seq<Row>, columns: seq<string>)
    ensures ReadFeatures(PreparedRows(rows, HasCalendarColumns(columns))) == TrainingFeatures(columns, rows)
  {
    if HasCalendarColumns(columns) {
      PreparedFeaturesExisting(rows);
    } else {
      PreparedFeaturesDerived(rows);
    }
  }

  /** What the feature step leaves in each row: the elapsed days since the
      first (earliest) date, the derived calendar features when they were
      missing, every other cell as it was, and the same history and
      training features. */
  lemma PreparedRowsFacts(rows: seq<Row>, columns: seq<string>)
    requires |rows| > 0 && DatesAscending(rows)
    ensures var p := PreparedRows(rows, HasCalendarColumns(columns));
      && |p| == |rows|
      && (forall i :: 0 <= i < |rows| ==>
           Cell(p[i], ELAPSED_COLUMN) == Num((DateOf(rows[i]) - DateOf(rows[0])) as real))
      && (!HasCalendarColumns(columns) ==> forall i :: 0 <= i < |rows| ==>
           HasNumericFeatures(p[i]) && RowFeatures(p[i]) == DateFeatures(DateOf(rows[i])))
      && (forall i, c :: (0 <= i < |rows| && c != ELAPSED_COLUMN &&
           (HasCalendarColumns(columns) || !IsCalendarColumn(c))) ==> Cell(p[i], c) == Cell(rows[i], c))
      && KeepsHistory(p, rows)
      && ReadFeatures(p) == TrainingFeatures(columns, rows)
  {
    var hasCalendar := HasCalendarColumns(columns);
    PreparedRowsKeepCells(rows, hasCalendar);
    PreparedRowsElapsed(rows, hasCalendar);
    if !hasCalendar {
      PreparedRowsCalendar(rows);
    }
    PreparedRowsKeepHistory(rows, hasCalendar);
    PreparedRowsFeatures(rows, columns);
  }

  /** The feature step of `predict_demand` on the selected, date-sorted rows:
      `dias_desde_inicio` is added, then the four calendar columns are derived
      from the date unless all four are already there. `mlColumns` is
      `df_ml.columns` as it changes along the way; the features the regressor
      reads are always the four calendar columns (`feature_columns`). */
  method PrepareFeatures(rows: seq<Row>, columns: seq<string>) returns (dfMl: seq<Row>, mlColumns: seq<string>)
    requires |rows| > 0 && DatesAscending(rows)
    ensures |dfMl| == |rows|
    ensures forall i :: 0 <= i < |rows| ==>
      Cell(dfMl[i], ELAPSED_COLUMN) == Num((DateOf(rows[i]) - DateOf(rows[0])) as real)
    ensures !HasCalendarColumns(columns) ==> forall i :: 0 <= i < |rows| ==>
      HasNumericFeatures(dfMl[i]) && RowFeatures(dfMl[i]) == DateFeatures(DateOf(rows[i]))
    ensures forall i, c :: (0 <= i < |rows| && c != ELAPSED_COLUMN &&
      (HasCalendarColumns(columns) || !IsCalendarColumn(c))) ==> Cell(dfMl[i], c) == Cell(rows[i], c)
    ensures |columns| <= |mlColumns| && mlColumns[..|columns|] == columns
    ensures forall c :: c in mlColumns <==>
      c in columns || c == ELAPSED_COLUMN || (!HasCalendarColumns(columns) && IsCalendarColumn(c))
    ensures HasCalendarColumns(mlColumns)
    ensures NoDuplicates(columns) ==> NoDuplicates(mlColumns)
    ensures KeepsHistory(dfMl, rows)
    ensures ReadFeatures(dfMl) == TrainingFeatures(columns, rows)
  {
    dfMl := WithElapsedDays(rows);
    mlColumns := WithColumn(columns, ELAPSED_COLUMN);
    ElapsedColumnKeepsCalendarColumns(columns);
    if !HasCalendarColumns(mlColumns) {
      dfMl := WithCalendarColumns(dfMl);
      mlColumns := WithColumn(WithColumn(WithColumn(WithColumn(mlColumns, YEAR_COLUMN), MONTH_COLUMN), DAY_COLUMN), WEEKDAY_COLUMN);
    }
    assert dfMl == PreparedRows(rows, HasCalendarColumns(columns));
    assert mlColumns == PreparedColumns(columns);
    PreparedRowsFacts(rows, columns);
    PreparedColumnsFacts(columns);
  }

  /** The dictionary `predict_demand` builds once the model is fitted: it
      carries the given history, runs `horizon` days on from the day after
      `lastDate`, and holds the model's prediction for each of those days. */
  function ForecastAfter(dates: seq<int>, demand: seq<real>, lastDate: int, model: Features -> real,
                         article: string, horizon: nat): (f: Forecast)
  {
    var futureDates := DateRange(lastDate + 1, horizon);
    var predictions := seq(horizon, j requires 0 <= j < horizon => model(DateFeatures(futureDates[j])));
    Forecast(dates, demand, futureDates, predictions, article, horizon, MODEL_INFO)
  }

  /** What the forecast after `lastDate` holds, field by field. */
  lemma ForecastAfterFacts(dates: seq<int>, demand: seq<real>, lastDate: int, model: Features -> real,
                           article: string, horizon: nat)
    ensures var f := ForecastAfter(dates, demand, lastDate, model, article, horizon);
      && f.historicalDates == dates && f.historicalDemand == demand
      && f.article == article && f.horizon == horizon && f.modelInfo == MODEL_INFO
      && |f.futureDates| == |f.predictions| == horizon
      && (forall i :: 0 <= i < horizon ==> f.futureDates[i] == lastDate + 1 + i)
      && forall j :: 0 <= j < horizon ==> f.predictions[j] == model(DateFeatures(f.futureDates[j]))
  {
  }

  /** A forecast after the last of at least ten ascending days with their
      demands is well shaped. */
  lemma ForecastAfterIsWellShaped(dates: seq<int>, demand: seq<real>, lastDate: int, model: Features -> real,
                                  article: string, horizon: nat)
    requires |dates| == |demand| >= MIN_TRAINING_ROWS && Ascending(dates)
    requires lastDate == dates[|dates| - 1]
    ensures WellShaped(ForecastAfter(dates, demand, lastDate, model, article, horizon))
  {
  }

  /** The forecast built from prepared rows that keep the dates and demands of
      at least ten dated, date-sorted rows is well shaped. */
  lemma PreparedForecastIsWellShaped(p: seq<Row>, rows: seq<Row>, model: Features -> real, article: string, horizon: nat)
    requires |rows| >= MIN_TRAINING_ROWS && AllDated(rows) && DatesAscending(rows)
    requires KeepsHistory(p, rows) && ReadDemand(p).Some?
    ensures WellShaped(ForecastAfter(DatesOf(p), ReadDemand(p).value, LatestDate(p), model, article, horizon))
  {
    DatesOfHistory(p, rows);
    DemandOfHistory(p, rows);
    ForecastAfterIsWellShaped(DatesOf(p), ReadDemand(p).value, LatestDate(p), model, article, horizon);
  }

  /** Prepared rows that keep the dates and demands of dated rows list, row by
      row, the date and the demand of each. */
  lemma PreparedHistory(p: seq<Row>, rows: seq<Row>)
    requires AllDated(rows) && KeepsHistory(p, rows) && ReadDemand(p).Some?
    ensures |DatesOf(p)| == |rows|
    ensures forall i :: 0 <= i < |rows| ==>
      Cell(rows[i], DATE_COLUMN) == Day(DatesOf(p)[i]) &&
      Cell(rows[i], DEMAND_COLUMN) == Num(ReadDemand(p).value[i])
  {
    DemandOfHistory(p, rows);
    forall i | 0 <= i < |rows| ensures Cell(rows[i], DATE_COLUMN) == Day(DatesOf(p)[i]) {
      assert Cell(p[i], DATE_COLUMN) == Cell(rows[i], DATE_COLUMN);
    }
  }

  /** The part of `predict_demand` after the rows are selected and sorted:
      the feature step, the fit and the forecast of `horizon` days. */
  method FitAndForecast(rows: seq<Row>, columns: seq<string>, article: string, horizon: nat, fit: Regressor)
    returns (r: Result<Forecast, ForecastFailure>)
    requires |rows| >= MIN_TRAINING_ROWS && AllDated(rows) && DatesAscending(rows)
    ensures r.Success? || r == Failure(FitError) || r == Failure(NoFutureDays)
    ensures r == Failure(FitError) <==>
      TrainingFeatures(columns, rows).None? || ReadDemand(rows).None?
    ensures r == Failure(NoFutureDays) <==>
      TrainingFeatures(columns, rows).Some? && ReadDemand(rows).Some? && horizon == 0
    ensures r.Success? ==>
      && WellShaped(r.value)
      && r.value.article == article && r.value.horizon == horizon && r.value.modelInfo == MODEL_INFO
    ensures r.Success? ==>
      && |rows| == |r.value.historicalDates|
      && (forall i :: 0 <= i < |rows| ==>
            Cell(rows[i], DATE_COLUMN) == Day(r.value.historicalDates[i]) &&
            Cell(rows[i], DEMAND_COLUMN) == Num(r.value.historicalDemand[i]))
    ensures r.Success? ==>
      var x := TrainingFeatures(columns, rows);
      && x.Some?
      && forall j :: 0 <= j < horizon ==>
           r.value.predictions[j] == fit(x.value, r.value.historicalDemand)(DateFeatures(r.value.futureDates[j]))
  {
    var dfMl, mlColumns := PrepareFeatures(rows, columns);
    DemandOfHistory(dfMl, rows);
    var x := ReadFeatures(dfMl);
    var y := ReadDemand(dfMl);
    if x.None? || y.None? {
      return Failure(FitError);
    }
    var model := fit(x.value, y.value);
    if horizon == 0 {
      return Failure(NoFutureDays);
    }
    PreparedForecastIsWellShaped(dfMl, rows, model, article, horizon);
    PreparedHistory(dfMl, rows);
    ForecastAfterFacts(DatesOf(dfMl), y.value, LatestDate(dfMl), model, article, horizon);
    r := Success(ForecastAfter(DatesOf(dfMl), y.value, LatestDate(dfMl), model, article, horizon));
  }

  /** `pd.to_datetime` of one date cell: a timestamp is kept as it is; any
      other cell (a text such as "2024-03-01", a number, a missing cell) goes
      to `parse`, which gives its day number, or None where pandas raises. */
  function ToDate(v: Value, parse: Value -> Option<int>): Option<int> {
    if v.Day? then Some(v.n) else parse(v)
  }

  /** Every row's date cell converts to a timestamp. */
  predicate AllConvert(rows: seq<Row>, parse: Value -> Option<int>) {
    forall i :: 0 <= i < |rows| ==> ToDate(Cell(rows[i], DATE_COLUMN), parse).Some?
  }

  /** `df_ml['fecha'] = pd.to_datetime(df_ml['fecha'])`: the rows with their
      date cells converted, or None when some cell does not convert (the
      exception the source catches). */
  function ConvertDates(rows: seq<Row>, parse: Value -> Option<int>): (r: Option<seq<Row>>)
    ensures r.Some? <==> AllConvert(rows, parse)
    ensures r.Some? ==> |r.value| == |rows| && AllDated(r.value)
    ensures r.Some? ==> forall i :: 0 <= i < |rows| ==>
      ToDate(Cell(rows[i], DATE_COLUMN), parse) == Some(DateOf(r.value[i]))
    ensures r.Some? ==> forall i, c :: 0 <= i < |rows| && c != DATE_COLUMN ==> Cell(r.value[i], c) == Cell(rows[i], c)
  {
    if AllConvert(rows, parse) then
      Some(seq(|rows|, i requires 0 <= i < |rows| =>
        rows[i][DATE_COLUMN := Day(ToDate(Cell(rows[i], DATE_COLUMN), parse).value)]))
    else None
  }

  /** Timestamps convert to themselves: rows whose dates are already
      timestamps come out of the conversion unchanged, whatever `parse` is. */
  lemma ConvertDatedRows(rows: seq<Row>, parse: Value -> Option<int>)
    requires AllDated(rows)
    ensures ConvertDates(rows, parse) == Some(rows)
  {
    var r := ConvertDates(rows, parse).value;
    forall i | 0 <= i < |rows| ensures r[i] == rows[i] {
      assert DATE_COLUMN in rows[i];
      assert r[i] == rows[i][DATE_COLUMN := rows[i][DATE_COLUMN]];
    }
    assert r == rows;
  }

  /** The table is non-empty and has the demand and date columns. */
  predicate HasRequiredColumns(t: Table) {
    !IsEmpty(t) && DEMAND_COLUMN in t.columns && DATE_COLUMN in t.columns
  }

  /** The checks before filtering pass. */
  predicate Admissible(t: Table, article: string) {
    HasRequiredColumns(t) && (article != ALL_ARTICLES ==> ARTICLE_COLUMN in t.columns)
  }

  /** The selected rows with their dates converted. */
  function ConvertedSelection(t: Table, article: string, parse: Value -> Option<int>): Option<seq<Row>> {
    ConvertDates(SelectArticle(t.rows, article), parse)
  }

  /** The selected, converted rows in date order. */
  function TrainingRows(t: Table, article: string, parse: Value -> Option<int>): seq<Row>
    requires ConvertedSelection(t, article, parse).Some?
  {
    SortBy(ConvertedSelection(t, article, parse).value, DateKey)
  }

  /** The horizon `predict_demand` uses when none is given. */
  const DEFAULT_HORIZON: nat := 30

  /** `predict_demand`. Besides the table, the filter and the horizon (with
      the source's defaults "Todos" and 30), it takes the regressor and the
      date parser. */
  method PredictDemand(t: Table, fit: Regressor, parse: Value -> Option<int>,
                       article: string := ALL_ARTICLES, horizon: nat := DEFAULT_HORIZON)
    returns (r: Result<Forecast, ForecastFailure>)
    ensures IsEmpty(t) ==> r == Failure(EmptyTable)
    ensures !IsEmpty(t) && DEMAND_COLUMN !in t.columns ==> r == Failure(MissingDemandColumn)
    ensures !IsEmpty(t) && DEMAND_COLUMN in t.columns && DATE_COLUMN !in t.columns ==>
      r == Failure(MissingDateColumn)
    ensures HasRequiredColumns(t) && article != ALL_ARTICLES && ARTICLE_COLUMN !in t.columns ==>
      r == Failure(MissingArticleColumn)
    ensures Admissible(t, article) && |SelectArticle(t.rows, article)| < MIN_TRAINING_ROWS ==>
      r == Failure(InsufficientData(|SelectArticle(t.rows, article)|))
    ensures (Admissible(t, article) && |SelectArticle(t.rows, article)| >= MIN_TRAINING_ROWS &&
             ConvertedSelection(t, article, parse).None?) ==>
      r == Failure(InvalidDate)
    ensures (Admissible(t, article) && |SelectArticle(t.rows, article)| >= MIN_TRAINING_ROWS &&
             ConvertedSelection(t, article, parse).Some? &&
             (TrainingFeatures(t.columns, TrainingRows(t, article, parse)).None? ||
              ReadDemand(TrainingRows(t, article, parse)).None?)) ==>
      r == Failure(FitError)
    ensures (Admissible(t, article) && |SelectArticle(t.rows, article)| >= MIN_TRAINING_ROWS &&
             ConvertedSelection(t, article, parse).Some? &&
             TrainingFeatures(t.columns, TrainingRows(t, article, parse)).Some? &&
             ReadDemand(TrainingRows(t, article, parse)).Some? && horizon == 0) ==>
      r == Failure(NoFutureDays)
    ensures r.Success? <==>
      && Admissible(t, article)
      && |SelectArticle(t.rows, article)| >= MIN_TRAINING_ROWS
      && ConvertedSelection(t, article, parse).Some?
      && TrainingFeatures(t.columns, TrainingRows(t, article, parse)).Some?
      && ReadDemand(TrainingRows(t, article, parse)).Some?
      && horizon > 0
    ensures r.Success? ==>
      && WellShaped(r.value)
      && r.value.article == article && r.value.horizon == horizon && r.value.modelInfo == MODEL_INFO
    ensures r.Success? ==>
      && ConvertedSelection(t, article, parse).Some?
      && var rows := TrainingRows(t, article, parse);
      && |rows| == |r.value.historicalDates|
      && (forall i :: 0 <= i < |rows| ==>
            Cell(rows[i], DATE_COLUMN) == Day(r.value.historicalDates[i]) &&
            Cell(rows[i], DEMAND_COLUMN) == Num(r.value.historicalDemand[i]))
    ensures r.Success? ==>
      && ConvertedSelection(t, article, parse).Some?
      && var x := TrainingFeatures(t.columns, TrainingRows(t, article, parse));
      && x.Some?
      && forall j :: 0 <= j < horizon ==>
           r.value.predictions[j] == fit(x.value, r.value.historicalDemand)(DateFeatures(r.value.futureDates[j]))
  {
    if IsEmpty(t) {
      return Failure(EmptyTable);
    }
    if DEMAND_COLUMN !in t.columns {
      return Failure(MissingDemandColumn);
    }
    if DATE_COLUMN !in t.columns {
      return Failure(MissingDateColumn);
    }
    var dfMl := t.rows;
    if article != ALL_ARTICLES {
      if ARTICLE_COLUMN !in t.columns {
        return Failure(MissingArticleColumn);
      }
      dfMl := Filter(dfMl, (row: Row) => IsArticle(article, row));
    }
    assert dfMl == SelectArticle(t.rows, article);
    if |dfMl| < MIN_TRAINING_ROWS {
      return Failure(InsufficientData(|dfMl|));
    }
    var converted := ConvertDates(dfMl, parse);
    if converted.None? {
      return Failure(InvalidDate);
    }
    dfMl := converted.value;
    SortedRowsFacts(dfMl);
    dfMl := SortBy(dfMl, DateKey);
    assert dfMl == TrainingRows(t, article, parse);
    r := FitAndForecast(dfMl, t.columns, article, horizon, fit);
  }

  // ---- export_to_excel: the combined table and the summary ----

  datatype RowKind = Historical | Prediction

  /** The 'Tipo' column. */
  function KindLabel(k: RowKind): string {
    match k
    case Historical => "Histórico"
    case Prediction => "Predicción"
  }

  /** The 'Tipo' label tells the two frames apart. */
  lemma KindLabelInjective(a: RowKind, b: RowKind)
    ensures KindLabel(a) == KindLabel(b) <==> a == b
  {
    assert KindLabel(Historical)[0] == 'H' && KindLabel(Prediction)[0] == 'P';
  }

  /** One row of the sheet 'Predicción Completa': Fecha, Demanda, Tipo. */
  datatype ReportRow = ReportRow(date: int, demand: real, tipo: string)

  /** The sheet 'Resumen': Artículo, Días Predicción, Modelo, Total Registros. */
  datatype Summary = Summary(article: string, horizon: nat, modelInfo: string, totalRecords: nat)

  datatype Report = Report(rows: seq<ReportRow>, summary: Summary)

  function RowDate(row: ReportRow): int {
    row.date
  }

  /** One frame of the export: the dates and values side by side, each row
      labelled with the frame's 'Tipo'. */
  function Tagged(dates: seq<int>, values: seq<real>, kind: RowKind): (r: seq<ReportRow>)
    requires |dates| == |values|
    ensures |r| == |dates|
    ensures forall i :: 0 <= i < |r| ==> r[i] == ReportRow(dates[i], values[i], KindLabel(kind))
  {
    seq(|dates|, i requires 0 <= i < |dates| => ReportRow(dates[i], values[i], KindLabel(kind)))
  }

  /** How many rows carry the 'Tipo' label of `k`. */
  function CountKind(rows: seq<ReportRow>, k: RowKind): nat {
    |Filter(rows, (row: ReportRow) => row.tipo == KindLabel(k))|
  }

  /** The contents of `export_to_excel`'s workbook, or None where building a
      frame from columns of unequal length raises. */
  function ExportReport(f: Forecast): (r: Option<Report>)
    ensures r.Some? <==> |f.historicalDates| == |f.historicalDemand| && |f.futureDates| == |f.predictions|
    ensures r.Some? ==>
      && |r.value.rows| == |f.historicalDates| + |f.futureDates|
      && SortedBy(r.value.rows, RowDate)
      && multiset(r.value.rows) ==
           multiset(Tagged(f.historicalDates, f.historicalDemand, Historical) +
                    Tagged(f.futureDates, f.predictions, Prediction))
      && r.value.summary == Summary(f.article, f.horizon, f.modelInfo, |r.value.rows|)
  {
    if |f.historicalDates| != |f.historicalDemand| || |f.futureDates| != |f.predictions| then None
    else
      var combined := Tagged(f.historicalDates, f.historicalDemand, Historical) +
                      Tagged(f.futureDates, f.predictions, Prediction);
      var rows := SortBy(combined, RowDate);
      Some(Report(rows, Summary(f.article, f.horizon, f.modelInfo, |rows|)))
  }

  /** The workbook has one 'Histórico' row per historical day and one
      'Predicción' row per predicted day. */
  lemma ExportTagCounts(f: Forecast)
    requires ExportReport(f).Some?
    ensures CountKind(ExportReport(f).value.rows, Historical) == |f.historicalDates|
    ensures CountKind(ExportReport(f).value.rows, Prediction) == |f.futureDates|
    ensures ExportReport(f).value.summary.totalRecords ==
      CountKind(ExportReport(f).value.rows, Historical) + CountKind(ExportReport(f).value.rows, Prediction)
  {
    var h := Tagged(f.historicalDates, f.historicalDemand, Historical);
    var p := Tagged(f.futureDates, f.predictions, Prediction);
    var rows := ExportReport(f).value.rows;
    var isH := (row: ReportRow) => row.tipo == KindLabel(Historical);
    var isP := (row: ReportRow) => row.tipo == KindLabel(Prediction);
    KindLabelInjective(Historical, Prediction);
    FilterPermutation(rows, h + p, isH);
    FilterPermutation(rows, h + p, isP);
    FilterConcat(h, p, isH);
    FilterConcat(h, p, isP);
    FilterAll(h, isH);
    FilterNone(p, isH);
    FilterNone(h, isP);
    FilterAll(p, isP);
  }

  /** For a forecast as `PredictDemand` makes it, the workbook lists the
      historical days in their order, then the predicted days. */
  lemma ExportOfWellShapedForecast(f: Forecast)
    requires WellShaped(f)
    ensures ExportReport(f) == Some(Report(
      Tagged(f.historicalDates, f.historicalDemand, Historical) + Tagged(f.futureDates, f.predictions, Prediction),
      Summary(f.article, f.horizon, f.modelInfo, |f.historicalDates| + f.horizon)))
  {
    var combined := Tagged(f.historicalDates, f.historicalDemand, Historical) +
                    Tagged(f.futureDates, f.predictions, Prediction);
    HistoryThenFutureSorted(f);
    SortByOfSorted(combined, RowDate);
  }

  /** The historical rows followed by the future rows are already in date order. */
  lemma HistoryThenFutureSorted(f: Forecast)
    requires WellShaped(f)
    ensures SortedBy(Tagged(f.historicalDates, f.historicalDemand, Historical) +
                     Tagged(f.futureDates, f.predictions, Prediction), RowDate)
  {
    var h := Tagged(f.historicalDates, f.historicalDemand, Historical);
    var p := Tagged(f.futureDates, f.predictions, Prediction);
    var combined := h + p;
    FutureAfterHistory(f);
    AscendingPairs(f.historicalDates);
    forall i, j | 0 <= i < j < |combined| ensures RowDate(combined[i]) <= RowDate(combined[j]) {
      if j < |h| {
        assert combined[i] == h[i] && combined[j] == h[j];
      } else if i < |h| {
        assert combined[i] == h[i] && combined[j] == p[j - |h|];
      } else {
        assert combined[i] == p[i - |h|] && combined[j] == p[j - |h|];
      }
    }
  }
}

