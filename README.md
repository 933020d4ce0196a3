# Demand forecaster: a verified model of its core

This project models the computational core of a Streamlit application. The
application loads a spreadsheet of daily demand, lists the articles it holds,
previews the data, forecasts future demand per article with a random forest,
and exports the history and the forecast to a workbook. The model is written
in Dafny and proved against its contracts. It has three parts:

- **the loader** (`backend/file_handler.py`, module `FileHandler`):
  - choosing a reader from the file-name suffix;
  - the `(table, error)` pair `load_file` returns;
  - the shape fields of `get_file_info`;
  - the article roster `["Todos"] + unique articles`.
- **the forecaster** (`backend/ml_predictor.py`, module `MlPredictor`):
  - `predict_demand`'s validation gate, in its order;
  - the article filter and the sort by date;
  - the `dias_desde_inicio` column;
  - deriving or reusing the calendar features `año`, `mes`, `dia` and `dia_semana`;
  - the fit, the run of future days and one prediction per future day;
  - the result dictionary;
  - `export_to_excel`'s combined, tagged, date-sorted table and its summary.
- **the preview** (`frontend/components/data_display.py`, module `DataDisplay`):
  - which expected calendar features the table has;
  - the split of the columns into original and system ones;
  - the "Artículos detectados" text.

Supporting modules:

- `Tables`: cells, rows and tables. A row maps column names to cells, and a missing column reads as a missing cell.
- `Calendar`: the proleptic Gregorian calendar over day numbers. Day 0 is 0001-01-01, a Monday.
- `Seqs`: filtering, first-appearance de-duplication and a sort by key.
- `Strings`: join, suffix test and decimal numerals.
- `Wrappers`: `Option` and `Result`.

`predict_demand` is a method over a sequence of rows. It reassigns `df_ml`
through the filter, the sort and the feature step, as the source does. The
pure steps are functions: the date range, the feature rows and the export
combine. Each method is specified by the functions it computes, and the
properties the source promises are proved about those functions.

Points where the model follows the code closely:

- The preview's expected features (frontend/components/data_display.py:11) and its welcome text (:121-126) name `semana_año`, `nombre_dia` and `es_fin_semana`. No code of the application creates them: the forecaster derives only `año`, `mes`, `dia` and `dia_semana` (backend/ml_predictor.py:77-80).
- The loader returns the table as the reader gives it, with no imputation or other processing (backend/file_handler.py:18-38). The roster comes only from a column named exactly `articulo` (:59).
- The ten-row minimum applies whatever the filter is, "Todos" included (backend/ml_predictor.py:56).
- `pd.to_datetime` (backend/ml_predictor.py:64) on cells that are not already timestamps is the `parse` parameter of `PredictDemand`: it gives the day number of such a cell, or none where pandas raises. Date formats, locales and time zones are left to it.
- The export tags rows 'Histórico' and 'Predicción' (backend/ml_predictor.py:157, :163).

## Model

| member | source | states |
|---|---|---|
| FileHandler.DetectFormat | backend/file_handler.py:18-23 | the Excel reader is chosen exactly when the name ends in `.xlsx` or `.xls`, the CSV reader exactly when it ends in `.csv` (the two tests never both hold), and none exactly when it has no supported suffix |
| FileHandler.FormatBySuffix | backend/file_handler.py:18-23 | `.xlsx` and `.xls` select the Excel reader and `.csv` the CSV reader, whatever comes before the suffix; the test is case-sensitive (`.CSV` and `.XLSX` are unsupported) |
| FileHandler.LoadFile | backend/file_handler.py:11-38 | exactly one of table and error is present; an unsupported suffix gives "Formato de archivo no soportado"; a successful read returns the table unmodified; a failed read gives "Error al cargar archivo: " followed by the reader's message |
| FileHandler.ArticleValues | backend/file_handler.py:61 | `dropna().unique()`: no value twice, exactly the present (non-missing) article cells, in the order of their first appearance, at most one per row |
| FileHandler.UniqueArticles | backend/file_handler.py:57-66 | the roster starts with "Todos"; without an `articulo` column it is exactly ["Todos"]; otherwise it is "Todos" followed by each unique value as text, in order; it never has more entries than rows + 1 |
| FileHandler.TextArticlesListedOnce | backend/file_handler.py:60-63 | when every article cell is a text or missing, the roster after "Todos" names the article of every row that has one, names none twice, and names only texts that are some row's article |
| FileHandler.TextArticlesNamed | backend/file_handler.py:60-63 | when every article cell is a text or missing, the roster after "Todos" has one entry per unique article value, that value's own text, and each value is some row's cell |
| FileHandler.TextArticlesPresent | backend/file_handler.py:60 | every row whose article cell is a text has that cell among the unique article values, whatever the other cells hold |
| FileHandler.GetFileInfo | backend/file_handler.py:41-54 | `rows` and `columns` are the table's row and column counts, `column_names` keeps the column order, and `unique_articles` is the roster |
| Seqs.Distinct | backend/file_handler.py:61 | `unique()` keeps each value of the input once and adds none |
| Seqs.DistinctFirstAppearance | backend/file_handler.py:61 | `unique()` lists values in the order of their first appearance |
| Seqs.SortBy | backend/ml_predictor.py:65 | `sort_values` returns a permutation of its input that is ascending by the key |
| Seqs.SortByOfSorted | backend/ml_predictor.py:168 | sorting rows that are already in key order leaves them as they are |
| Calendar.CivilDate | backend/ml_predictor.py:77-79 | every day number has a valid civil date (month 1-12, a day within the month's length) |
| Calendar.DayNumberOfCivilDate | backend/ml_predictor.py:77-79 | the civil date of day `n` is day `n` again: `.dt.year/.month/.day` lose nothing |
| Calendar.CivilDateOfDayNumber | backend/ml_predictor.py:77-79 | numbering a valid date and converting back gives the same date |
| Calendar.DayNumberInjective | backend/ml_predictor.py:77-79 | distinct valid dates have distinct day numbers |
| Calendar.YearOfDay | backend/ml_predictor.py:77-79 | a day number falls in one year only |
| Calendar.DaysBeforeMonthMonotone | backend/ml_predictor.py:77-79 | a month ends on or before the start of every later month of the same year |
| Calendar.CivilDateSuccessor | backend/ml_predictor.py:108-112 | day number `n + 1` is the calendar day after day `n` (month and year roll-over included) |
| Calendar.NextDateNumber | backend/ml_predictor.py:108-112 | the day after a valid date is valid and numbered one higher |
| Calendar.Weekday | backend/ml_predictor.py:80 | `dayofweek` lies in 0..6 |
| Calendar.UnixEpochIsThursday | backend/ml_predictor.py:80 | the day numbering agrees with the calendar: 1970-01-01 is day 719162 and a Thursday (3 with Monday = 0) |
| MlPredictor.DateFeatures | backend/ml_predictor.py:115-120 | the features of any day (of the history at :77-80 and of the future days here) have `mes` in 1..12, `dia` in 1..31 and `dia_semana` in 0..6 |
| MlPredictor.DateFeaturesFacts | backend/ml_predictor.py:77-80 | the four features of a day are a valid date that numbers back to that day, with `mes` in 1..12, `dia` in 1..31 and `dia_semana` in 0..6 |
| MlPredictor.SelectArticle | backend/ml_predictor.py:46-52 | the rows the forecast trains on are never more than the table's; "Todos" keeps them all; for any other filter every kept row has that text as its `articulo` |
| MlPredictor.SelectArticleContents | backend/ml_predictor.py:46-52 | "Todos" keeps every row; any other filter keeps exactly the rows whose `articulo` is that text, each as often as it occurs, in table order |
| MlPredictor.ConvertDates | backend/ml_predictor.py:64 | `pd.to_datetime` on the date column succeeds exactly when every date cell converts; then every row holds a timestamp, the one its cell converts to, and every other cell is kept |
| MlPredictor.ConvertDatedRows | backend/ml_predictor.py:64 | rows whose dates are already timestamps come out of the conversion unchanged |
| MlPredictor.SortedRowsFacts | backend/ml_predictor.py:64-65 | sorting dated rows keeps them dated and puts their dates in ascending order |
| MlPredictor.DatesAscendingPairs | backend/ml_predictor.py:65 | the rows' dates in ascending order means no row's date is later than a later row's date, and conversely |
| MlPredictor.EarliestDateIsMinimum | backend/ml_predictor.py:68 | `EarliestDate` (`fecha.min()`) is some row's date and no row's date is earlier |
| MlPredictor.LatestDateIsMaximum | backend/ml_predictor.py:104 | `LatestDate` (`fecha.max()`) is some row's date and no row's date is later |
| MlPredictor.LatestOfSorted | backend/ml_predictor.py:104 | on date-sorted rows the latest date is the last row's |
| MlPredictor.ElapsedSince | backend/ml_predictor.py:68 | setting `dias_desde_inicio` writes that one cell of each row, with the days since the start, and leaves every other cell of every row as it was |
| MlPredictor.WithElapsedDays | backend/ml_predictor.py:68 | one row per input row, and each row's `dias_desde_inicio` is its date minus the earliest date |
| MlPredictor.ElapsedDaysKeepCells | backend/ml_predictor.py:68 | adding `dias_desde_inicio` changes no other cell |
| MlPredictor.ElapsedDaysNonNegative | backend/ml_predictor.py:68 | `dias_desde_inicio` is never negative |
| MlPredictor.ElapsedDaysOfSorted | backend/ml_predictor.py:65-68 | on date-sorted rows `dias_desde_inicio` counts from the first row's date, so it is 0 on the first row |
| MlPredictor.WithColumn | backend/ml_predictor.py:68 | assigning a column adds it if it is new and keeps every existing column in its place, with no name twice |
| MlPredictor.ElapsedColumnKeepsCalendarColumns | backend/ml_predictor.py:68-72 | the test for all four calendar columns gives the same answer after `dias_desde_inicio` is added |
| MlPredictor.PreparedColumnsFacts | backend/ml_predictor.py:68-80 | after the feature step `df_ml.columns` starts with the input columns in their order, adds `dias_desde_inicio` and the missing calendar columns and nothing else, holds all four calendar columns, and has no name twice |
| MlPredictor.WithFeatures | backend/ml_predictor.py:77-80 | writing the four calendar cells makes them numbers that read back as the given features and leaves every other cell unchanged |
| MlPredictor.WithCalendarColumns | backend/ml_predictor.py:76-80 | one row per input row, each holding the four calendar cells as numbers that read back as the features of that row's own date |
| MlPredictor.CalendarColumnsContents | backend/ml_predictor.py:76-80 | deriving the calendar columns changes no other cell, and reading them gives each row's date features |
| MlPredictor.PreparedRowsKeepCells | backend/ml_predictor.py:68-81 | the feature step writes only `dias_desde_inicio`, plus the calendar columns when they were missing |
| MlPredictor.PreparedRowsElapsed | backend/ml_predictor.py:65-68 | after the feature step `dias_desde_inicio` counts the days from the first date-sorted row |
| MlPredictor.PreparedRowsCalendar | backend/ml_predictor.py:76-80 | derived calendar cells of each row are the features of that row's own date |
| MlPredictor.PreparedRowsFeatures | backend/ml_predictor.py:72-85 | the regressor's input `X` is the existing calendar cells when all four columns exist, otherwise the date-derived features |
| MlPredictor.PreparedRowsKeepHistory | backend/ml_predictor.py:68-81 | the feature step keeps every row's date and demand |
| MlPredictor.PreparedRowsFacts | backend/ml_predictor.py:68-85 | the combined facts of the feature step: as many rows, elapsed days, derived features when missing, all other cells kept, history kept, the training features |
| MlPredictor.PrepareFeatures | backend/ml_predictor.py:64-85 | the imperative feature step on `df_ml` and its column list: exactly the facts above about rows and columns |
| MlPredictor.ReadFeatures | backend/ml_predictor.py:85 | `X` is missing exactly when some row has a non-number calendar cell; otherwise it has one feature row per row, whose four values are that row's `año`, `mes`, `dia` and `dia_semana` cells |
| MlPredictor.ReadDemand | backend/ml_predictor.py:86 | `y` is missing exactly when some row's demand is not a number; otherwise it has one value per row, that row's `demanda` |
| MlPredictor.TrainingFeatures | backend/ml_predictor.py:72-85 | with all four calendar columns present `X` is the existing cells read as above; otherwise it always exists, with one feature row per row, the features of that row's date |
| MlPredictor.ReadDemandOfSameCells | backend/ml_predictor.py:86 | `y` depends only on the demand cells |
| MlPredictor.ReadFeaturesOfSameCells | backend/ml_predictor.py:85 | `X` depends only on the four calendar cells |
| MlPredictor.DerivedFeaturesOfSameDates | backend/ml_predictor.py:77-80 | derived features depend only on the dates |
| MlPredictor.DatesOf | backend/ml_predictor.py:129 | `fechas_historicas` has one day number per row, the row's date |
| MlPredictor.DatesOfHistory | backend/ml_predictor.py:129 | rows that keep the dates of date-sorted rows list those dates in ascending order and end on their latest date |
| MlPredictor.DemandOfHistory | backend/ml_predictor.py:130 | rows that keep the demands read the same `demanda_historica`, one value per row |
| MlPredictor.PreparedHistory | backend/ml_predictor.py:129-130 | historical date and demand at index `i` are row `i`'s date and demand cells |
| MlPredictor.DateRange | backend/ml_predictor.py:108-112 | `date_range(start, periods)` has exactly `periods` days, the `i`-th being `start + i` |
| MlPredictor.DateRangeIsCalendarRun | backend/ml_predictor.py:108-112 | consecutive days of the range are consecutive calendar days |
| MlPredictor.FutureAfterHistory | backend/ml_predictor.py:104-112 | in a well-shaped forecast every future day is strictly later than every historical day |
| MlPredictor.FutureDaysConsecutive | backend/ml_predictor.py:108-112 | in a well-shaped forecast consecutive future days are consecutive calendar days |
| MlPredictor.ForecastAfterFacts | backend/ml_predictor.py:104-136 | `ForecastAfter`, the dictionary built once the model is fitted, carries the history, the article, the horizon and "RandomForest (n_estimators=100)"; it has `horizon` future days from the day after the last date, and for each one the model's prediction on that day's four features |
| MlPredictor.ForecastAfterIsWellShaped | backend/ml_predictor.py:104-136 | a forecast after the last of at least ten ascending days is well shaped |
| MlPredictor.PreparedForecastIsWellShaped | backend/ml_predictor.py:64-136 | the forecast built from the prepared rows of at least ten dated, sorted rows is well shaped |
| MlPredictor.FitAndForecast | backend/ml_predictor.py:64-138 | after selection and sort there is a forecast unless `X` or `y` holds a cell that is not a number (`Num`; then `FitError`, the caught exception) or the horizon is zero (then `NoFutureDays`, the exception `predict` raises on the empty frame); the forecast is well shaped, echoes article, horizon and model descriptor, pairs each history index with the sorted row's date and demand, and predicts each future day with the regressor fitted on `X` and `y` |
| MlPredictor.PredictDemand | backend/ml_predictor.py:15-144 | the failures in the source's order: empty table, no `demanda`, no `fecha`, a specific article without an `articulo` column, fewer than ten selected rows (also for "Todos"), a date cell `pd.to_datetime` cannot convert, a feature or demand cell that is not a number (`Num`), a zero horizon; a forecast exactly when every check passes; the forecast is well shaped and is that of the selected, converted rows in date order, with the guarantees of `FitAndForecast`; `article` and `horizon` default to "Todos" and 30 |
| MlPredictor.Tagged | backend/ml_predictor.py:154-164 | one frame of the export row by row: the `i`-th date and value with the frame's 'Tipo' label |
| MlPredictor.KindLabelInjective | backend/ml_predictor.py:157-163 | the 'Tipo' labels 'Histórico' and 'Predicción' tell the two frames apart |
| MlPredictor.ExportReport | backend/ml_predictor.py:154-183 | the combined table has len(history) + len(predictions) rows, is sorted by `Fecha`, is a permutation of the two tagged frames, and the summary echoes article, horizon and descriptor with 'Total Registros' equal to the row count; frames of unequal length give none |
| MlPredictor.ExportTagCounts | backend/ml_predictor.py:154-183 | exactly len(history) rows are tagged 'Histórico' and len(predictions) 'Predicción', and their sum is 'Total Registros' |
| MlPredictor.HistoryThenFutureSorted | backend/ml_predictor.py:167-168 | for a well-shaped forecast the history followed by the predictions is already in date order |
| MlPredictor.ExportOfWellShapedForecast | backend/ml_predictor.py:154-183 | for a forecast as `predict_demand` makes it, the workbook lists the history in order, then the predictions, and counts all of them |
| DataDisplay.ExpectedFeaturesDistinct | frontend/components/data_display.py:11 | the seven expected feature names are all different |
| DataDisplay.FeaturesFound | frontend/components/data_display.py:11-12 | `features_encontradas` holds exactly the expected names that are columns, each once, in the expected order, and at most seven |
| DataDisplay.FeatureNoticeFor | frontend/components/data_display.py:14-18 | the success banner appears iff some expected feature is a column; it reports the number found (1 to 7) and their names joined by ", "; otherwise the warning |
| DataDisplay.SplitColumns | frontend/components/data_display.py:62-64 | `columnas_originales` is the table's columns without the system features, in table order; it is disjoint from `columnas_sistema`, and the two together cover every column; no entry means no system features |
| DataDisplay.SplitWithoutSystemFeatures | frontend/components/data_display.py:62-63 | without system features every column is original, in order |
| DataDisplay.ShownArticles | frontend/components/data_display.py:52 | the named articles are roster entries 1 to 3 (never the leading "Todos"), at most three |
| DataDisplay.ArticlesText | frontend/components/data_display.py:51 | the articles line appears iff the roster has more than one entry |
| DataDisplay.ArticlesTextAccountsForRoster | frontend/components/data_display.py:52-54 | up to four entries the text is the shown articles joined by ", " and names every article; beyond that it ends with "... (+N más)", where N reads back as the number of articles left out |
| Strings.Join | frontend/components/data_display.py:52 | `", ".join` of no parts is empty, and of any parts starts with the first one |
| Strings.JoinSnoc | frontend/components/data_display.py:52 | appending a part to a non-empty join adds exactly one separator and that part |
| Strings.JoinLength | frontend/components/data_display.py:52 | the join is as long as the parts together plus one separator fewer than there are parts |
| Strings.NatToDecimal | frontend/components/data_display.py:54 | the f-string numeral is a non-empty string of digits without a leading zero |
| Strings.DecimalRoundTrip | frontend/components/data_display.py:54 | reading the numeral back gives the number |

## Left out

- The random forest (backend/ml_predictor.py:92-98, 123) is the `fit` parameter. The model proves how its inputs are built and how its outputs are used, not what it predicts.
- MlPredictor.ConvertDates: a timestamp cell is kept and every other date cell, text included, goes through the `parse` parameter, so text dates that `parse` accepts reach the forecast. How pandas parses date formats, locales and time zones is left to `parse`, not modelled.
- MlPredictor.PredictDemand: pandas turns a missing date cell into NaT instead of raising. NaT then reaches the sort, `fecha.min()`, the features and the fit, and what those do with it is not modelled. The model has no NaT value, so such a cell converts only as `parse` decides, and `Failure(InvalidDate)` otherwise.
- Tables.Value: a timestamp is its day number; the time of day is not modelled, so `dias_desde_inicio` (backend/ml_predictor.py:68, which rounds down whole days), the order of rows on the same day (:65) and the time carried into `ultima_fecha + 1 day` (:109) can differ from pandas.
- Reading files (`pd.read_excel`, `pd.read_csv`) is input/output. `LoadFile` takes the reader's outcome as a parameter.
- Writing the workbook and reading it back as bytes (backend/ml_predictor.py:171-193) is input/output. `ExportReport` models the two sheets' contents.
- The export's error path (backend/ml_predictor.py:195-197) is modelled only where the frames cannot be built (unequal lengths). Serialization failures are input/output.
- All Streamlit calls are user interface and are not modelled: the messages, the metrics, the data frames shown, and the module-load banners of backend/ml_predictor.py:9 and :200. The banners of the preview are modelled by the data they show (`FeatureNotice`, `ArticlesText`), not by their text and emoji.
- The preview's metrics, data-frame heads and loops (frontend/components/data_display.py:21-48, 66-99) and its statistics and trend chart (:134-169) are user interface or floating-point aggregation.
- The `system_features` banner (frontend/components/data_display.py:58-59) is user interface. `get_file_info` never sets `system_features`, so in this application the split always treats every column as original (`SplitWithoutSystemFeatures`).
- The dtype lists of `get_file_info` (backend/file_handler.py:47-49) depend on pandas dtype inference. `FileInfo` leaves them out.
- `str(x)` of a non-text article cell is the `show` parameter of `UniqueArticles`. Python's formatting of floats and timestamps is not modelled.
- Imputation, ISO week, weekday names, the weekend flag and heuristic article detection are not implemented in the modelled code, so they are not modelled.
- frontend/components/sidebar.py, frontend/app.py and backend/utils/config.py are not part of this model: widgets, session state and environment variables.
- Seqs.SortBy: pandas' `sort_values` uses an unstable quicksort. The model uses a stable insertion sort, which is one of the orders pandas may produce. Rows with equal dates may come out in a different order in pandas.
- MlPredictor.PredictDemand: `dias_futuro` is a `nat`, so a negative horizon is not modelled. A zero horizon is: `model.predict` (backend/ml_predictor.py:123) rejects the empty future frame, so the model gives `Failure(NoFutureDays)` where the source returns None. The application's slider (frontend/components/sidebar.py:68-75) offers only 7 to 90 days.
- MlPredictor.FitAndForecast: any exception other than a non-numeric training value (numeric overflow, memory) is not modelled. Such exceptions are caught and return None in the source. Whether the forest accepts missing (NaN) feature values depends on the scikit-learn version (1.4 and later accept them); the model always treats a non-numeric feature cell as `FitError`.
- MlPredictor.FitAndForecast: scikit-learn converts `X` and `y` with numpy's `float()`, which accepts a text cell holding a numeral (a `demanda` of "5" stored as text, an `año` of "2024"). The model treats every text cell in `X` or `y` as `FitError` (`ReadFeatures`, `ReadDemand`), so for such tables it gives `Failure(FitError)`, and so does `PredictDemand`, where the source trains and forecasts.
- Duplicate column names: a row is a map from column names, so such tables are not modelled.
- Numbers are Dafny reals, and pandas' float and int64 widths are not modelled. The day numbers and day counts the model computes are exact.
- MlPredictor.ForecastAfter: pandas timestamps are 64-bit nanosecond counts and end on 2262-04-11. `ultima_fecha + pd.Timedelta(days=1)` (backend/ml_predictor.py:109) or a `date_range` running past that day raises, and the source returns None (:140-144). The model's day numbers are unbounded, so it forecasts there.
