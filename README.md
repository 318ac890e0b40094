# python-weather: a Dafny model of its feature rules, date window, connection table and name parser

This project models the parts of the python-weather repository that carry
their own logic:

- **Weather features** (`src/weather/weather.py`). `get_season` maps a
  (month, day) pair to a season code. `remove_col_white_space_all` and
  `convert_string_to_set` turn a comma-separated label string into a set of
  labels. The builder steps `drop_columns`, `remove_col_white_space_all`,
  `convert_string_to_set` and `add_season_feat` change the held table in
  place. The table is modelled as the class `WeatherFrame`: an ordered list
  of column names and a map from each name to its cells.
- **Weather request window** (`src/api/weather.py`). `Weather.__init__` reads
  `date_start` as `YYYY-MM-DD` with `split('-')` and `int`. When `date_end`
  is empty, it becomes the start date plus one calendar month
  (`relativedelta(months=1)`), rendered with `str(date)`. That rendering is
  the extended calendar-date format of section 4.1.2.2 of ISO 8601:2004.
  `fetch_weather_data` builds its request path with `os.path.join`.
- **Connection parameters** (`src/database/sqlconn.py`). `Database.conn_params`
  is a class attribute: one dictionary shared by every `PostgreSqlDB` and
  `MySqlDB` instance. `Database.__init__` writes `host`, `user`, `password` and
  `database` into it in that order. A None value leaves the old entry alone.
  A missing keyword raises `KeyError` after the earlier writes were made. In
  the model the dictionary is one `ConnParams` object that every `Database`
  holds by reference. The pure function `Merge` states the same writes, and
  the properties are proved about it.
- **Name parsing** (`src/helpers.py`). `parse_name` splits on runs of
  whitespace and shapes the tokens as (first, middle, last).

Modules: `Wrappers` (Option, Result), `Text` (Python string primitives),
`Dates` (`int`, calendar, month step, `str(date)`), `WeatherApi`,
`WeatherFeatures`, `SqlConn`, `Helpers`.

`Weather.mysql_weather_insert_data` (src/api/weather.py:42-53) passes the
fetched JSON to `WeatherDataToMysql.insert_weather_data`. That class is
imported at src/api/weather.py:7, but src/database/mysql_crud.py does not
define it, so the insert it performs is not part of this model.

## Model

| member | source | states |
|---|---|---|
| `WeatherFeatures.GetSeason` | src/weather/weather.py:368-381 | The result is a code from 0 to 3. It is 0 exactly on June 20, because the spring test compares against `spring_e` on both sides. It is 1 exactly from June 21 to September 21 and 2 exactly from September 22 to December 20, using lexicographic (month, day) order. Every other pair gives 3. |
| `WeatherFeatures.GetSeasonIntended` | src/weather/weather.py:363-366 | The season the declared bounds describe: 0 exactly from March 20 to June 20, with summer and fall as above and winter otherwise. |
| `WeatherFeatures.SpringTestDiffers` | src/weather/weather.py:363-373 | The code and the bounds disagree exactly on the spring days other than June 20. On those days the code gives 3 where the bounds give 0. |
| `WeatherFeatures.SpringTestWitness` | src/weather/weather.py:372-373 | April 15 gets code 3 from the code, but code 0 from the bounds. |
| `WeatherFeatures.SeasonOf` | src/weather/weather.py:368-371 | The season of a timestamp is read from its month and day only, and it is always a code from 0 to 3. |
| `WeatherFeatures.SeasonIgnoresYear` | src/weather/weather.py:370-371 | Two timestamps with the same month and day get the same season, whatever their years. |
| `WeatherFeatures.SplitToSet` | src/weather/weather.py:351 | `set(x.split(','))` is never empty, and no label in it contains `','`. |
| `WeatherFeatures.StripColumn` | src/weather/weather.py:292 | `.str.replace(' ', '')` keeps the column's length. Each string cell becomes `RemoveSpaces` of its old text, so it holds no space. Every other cell becomes NaN. |
| `WeatherFeatures.SplitColumn` | src/weather/weather.py:351 | `apply(lambda x: set(x.split(',')))` on a column of strings gives one non-empty set of comma-free labels per row. |
| `WeatherFeatures.RemoveSpaces` | src/weather/weather.py:292 | The result contains no `' '`. Every other character occurs in it exactly as often as in the input. |
| `WeatherFeatures.RemoveSpacesIdempotent` | src/weather/weather.py:283-292 | Removing spaces twice gives the same string as removing them once. |
| `WeatherFeatures.RemoveSpacesIgnoresSpace` | src/weather/weather.py:292 | A space inserted anywhere does not change the result. |
| `WeatherFeatures.LabelSet` | src/weather/weather.py:341-351 | The set of labels from a cell is never empty, and no label in it contains `' '` or `','`. |
| `WeatherFeatures.LabelSetOfJoin` | src/weather/weather.py:350-351 | Space-free, comma-free labels joined by `','` give back exactly the set of those labels. |
| `WeatherFeatures.LabelSetIgnoresSpace` | src/weather/weather.py:350 | A space inserted anywhere leaves the label set unchanged. |
| `WeatherFeatures.LabelSetOfPair` | src/weather/weather.py:350-351 | `"a, b"` (for example `"Rain, Overcast"`) gives the set {a, b}. |
| `WeatherFeatures.LabelSetOfRepeat` | src/weather/weather.py:351 | `"a,a"` gives the set {a}: a repeated label collapses to one. |
| `WeatherFeatures.Without` | src/weather/weather.py:180 | A column survives the drop exactly when it was a column and is not among the names to drop. The result is never longer than the input. |
| `WeatherFeatures.WithoutAppend` | src/weather/weather.py:180 | Dropping works column by column over a concatenation, so the surviving columns keep their order. |
| `WeatherFeatures.WithoutIdempotent` | src/weather/weather.py:180 | Dropping the same names a second time changes nothing. |
| `WeatherFeatures.WithoutDistinct` | src/weather/weather.py:180 | Dropping keeps the column names distinct. |
| `WeatherFeatures.SplitStrippedColumn` | src/weather/weather.py:350-351 | After cleaning, a column is all strings exactly when it was all strings before. Splitting the cleaned column gives each cell's `LabelSet`. |
| `WeatherFeatures.StripColumnIdempotent` | src/weather/weather.py:283-292 | Cleaning a whole column twice gives the same column as cleaning it once. |
| `WeatherFeatures.SeasonColumn` | src/weather/weather.py:368-385 | The added column has one cell per row, each a code from 0 to 3. A timestamp's cell is `get_season` of its month and day. A NaT row gets 3, because NaT's month and day are NaN and every range test at lines 372-377 is then false. |
| `WeatherFeatures.WeatherFrame.constructor` | src/weather/weather.py:123-128 | The builder holds exactly the table it was given. |
| `WeatherFeatures.WeatherFrame.DropColumns` | src/weather/weather.py:170-180 | When `cols` is None, an empty list or not a list, nothing changes. For a non-empty list, a name that is not a column raises KeyError and nothing is removed. Otherwise exactly the listed columns are removed, in place, and the rest keep their order and cells. |
| `WeatherFeatures.WeatherFrame.RemoveWhiteSpaceAll` | src/weather/weather.py:283-292 | A missing column raises KeyError. A non-empty column of only numbers and NaN, or only timestamps and NaN, is refused `.str` with AttributeError, and nothing is written. Otherwise only that column changes: string cells lose their spaces and other cells become NaN. |
| `WeatherFeatures.WeatherFrame.ConvertStringToSet` | src/weather/weather.py:341-351 | For a column of strings, each cell becomes `LabelSet` of its old value. A column refused `.str` raises AttributeError before anything is written. If some other cell is not a string, AttributeError for `split` is raised after the space removal has already been written. |
| `WeatherFeatures.WeatherFrame.AddSeasonFeat` | src/weather/weather.py:353-385 | Checks run in the code's order: the `datetime` attribute, its datetime64 dtype (timestamps and NaT), a KeyError for `col`, then AttributeError for `month` when `col` is not such a column. On success the `season` column holds `SeasonColumn` of `col`: `get_season` of each timestamp, and 3 for NaT. It replaces an existing `season` column in place, or is appended at the end. |
| `Text.Remove` | src/weather/weather.py:292 | `replace(c, '')` leaves no `c`, is never longer than the input, and keeps every other character as often as it occurred. |
| `Text.SplitOn` | src/weather/weather.py:351 | `split(sep)` yields at least one piece, and no piece contains the separator. |
| `Text.SplitCount` | src/weather/weather.py:351 | `split(sep)` yields one more piece than there are separators. |
| `Text.JoinSplit` | src/weather/weather.py:351 | Joining the pieces of a split with the separator gives the original string. |
| `Text.SplitJoin` | src/api/weather.py:20 | Separator-free pieces, once joined, split back into exactly those pieces. |
| `Text.Tokens` | src/helpers.py:3 | `split()` yields non-empty tokens that contain no whitespace. |
| `Text.TokensEmpty` | src/helpers.py:3-6 | `split()` is empty exactly when the string is all whitespace. |
| `Text.TokensSkipSpace` | src/helpers.py:3 | Leading whitespace produces no token. |
| `Text.TokensJoin` | src/helpers.py:3 | Words joined by single spaces split back into exactly those words. |
| `Helpers.ParseName` | src/helpers.py:2-14 | The empty tuple comes back exactly for empty or all-whitespace input. Any other input gives three components: the first is the first token, and no component contains whitespace. |
| `Helpers.ParseNameTokens` | src/helpers.py:3-14 | Only the tokens matter. Any whitespace layout parses like its tokens joined by single spaces, which the one, two, three and many-word rows cover. |
| `Helpers.ParseNameTwoSpaced` | src/helpers.py:3-10 | Two words separated by any run of whitespace, with any whitespace after them, give (first, '', last). |
| `Helpers.ParseNameLeadingSpace` | src/helpers.py:3 | Whitespace before the name does not change the result. |
| `Helpers.ParseNameOne` | src/helpers.py:7-8 | One word w gives (w, '', ''). |
| `Helpers.ParseNameTwo` | src/helpers.py:9-10 | Two words give (first, '', last). |
| `Helpers.ParseNameThree` | src/helpers.py:11-12 | Three words come back in order. |
| `Helpers.ParseNameMany` | src/helpers.py:13-14 | Four or more words give (first, '', ''), and every later word is discarded. |
| `Dates.StripSplit` | src/api/weather.py:20 | `int` trims its argument. It cuts only its own whitespace (tab, line feed, vertical tab, form feed, carriage return, space, and every non-ASCII `isspace()` character) and leaves text that neither starts nor ends with it. |
| `Dates.StripAround` | src/api/weather.py:20 | The trimming removes exactly the whitespace around a text whose ends are not whitespace. |
| `Dates.ParseInt` | src/api/weather.py:20 | `int(piece)` fails on an all-whitespace piece. A non-empty string of digits reads as its decimal value when it has at most 4300 digits, CPython's default `int` digit limit. A longer one raises ValueError. |
| `Dates.ParseIntForeign` | src/api/weather.py:20 | A character that is not a digit, `int`'s whitespace, a sign or `_` makes `int` fail. U+001C to U+001F are `isspace()` but make it fail too. |
| `Dates.ParseIntText` | src/api/weather.py:20 | `int`'s whitespace, an optional sign and digit groups with single underscores read as the signed value of the digits, so `" -0_1 "` gives -1. More than 4300 digits, with underscores not counted, raise ValueError. |
| `Dates.ParseIntShape` | src/api/weather.py:20 | Conversely, every text `int` accepts has that shape with at most 4300 digits, so `"1_"`, `"++1"` and `"1+"` fail. |
| `Dates.ParseIntRejectsDoubleUnderscore` | src/api/weather.py:20 | `int("1__0")` fails. |
| `Dates.ParseIntRejectsBareSign` | src/api/weather.py:20 | `int("+")` fails. |
| `Dates.ParseIntRejectsLeadingUnderscore` | src/api/weather.py:20 | `int("_1")` fails. |
| `Dates.ParseIntRejectsInnerSpace` | src/api/weather.py:20 | `int("1 2")` fails: only the ends are stripped. |
| `Dates.ParseInts` | src/api/weather.py:20 | `map(int, ...)` succeeds with one value per piece, each what `int` gives. Otherwise it fails on the first piece `int` rejects. |
| `Dates.ZeroPadValue` | src/api/weather.py:22 | A zero-padded number reads back as that number. |
| `Dates.AddOneMonth` | src/api/weather.py:22 | `relativedelta(months=1)` gives a valid, strictly later date exactly one month on. December rolls into January of the next year. The day is kept if it fits and is otherwise clamped to the month's last day. Only December 9999 fails. |
| `Dates.FormatIso` | src/api/weather.py:22 | `str(date)` has 10 characters: four digits, `-`, two digits, `-`, two digits. |
| `Dates.FormatThenParse` | src/api/weather.py:20-22 | Splitting a rendered date on `-` and reading each piece with `int` gives back its year, month and day. |
| `Dates.ClampToLeapFebruary` | src/api/weather.py:22 | 2024-01-31 steps to 2024-02-29, and 2023-01-31 steps to 2023-02-28. |
| `Dates.DecemberRollsOver` | src/api/weather.py:22 | 2023-12-01 steps to 2024-01-01. 9999-12-01 fails with year 10000. |
| `WeatherApi.NewWeather` | src/api/weather.py:11-22 | `loc` and `date_start` are stored verbatim. A non-integer piece of `date_start` is an error whatever `date_end` is. A non-empty `date_end` is stored unchanged. With an empty `date_end`, the constructor succeeds exactly when there are at least three fields forming a date that can be stepped. The stored end is then `str` of the start date plus one month, and it reads back as that date. |
| `WeatherApi.StartFields` | src/api/weather.py:20 | `list(map(int, date_start.split('-')))` has one more value than `date_start` has `-`. A failure names a dash-free piece that `int` rejects. |
| `WeatherApi.DefaultEndIsNextMonth` | src/api/weather.py:20-22 | For a start written as `YYYY-MM-DD`, the default end is the rendering of the date one month later. |
| `WeatherApi.DefaultWindow` | src/api/weather.py:11-22 | With the default arguments, the window is `2023-12-01` to `2024-01-01`. |
| `WeatherApi.JoinStep` | src/api/weather.py:26 | One `os.path.join` step always ends with the joined piece. |
| `WeatherApi.JoinSlash` | src/api/weather.py:26 | Onto an empty path or a path ending in `/`, a relative piece is appended with no `/` added. An example is a base URL configured with a trailing `/`. |
| `WeatherApi.PathJoin` | src/api/weather.py:26 | An absolute last piece is the whole result of `os.path.join`. |
| `WeatherApi.RequestPath` | src/api/weather.py:26 | The request path ends with `date_end`. An absolute `date_end` is the whole path. |
| `WeatherApi.PathJoinEndsWithLast` | src/api/weather.py:26 | `os.path.join` always ends with its last piece. |
| `WeatherApi.RequestPathSegments` | src/api/weather.py:26 | For plain pieces, the request path is base, location, start and end, in that order, separated by single `/`. |
| `WeatherApi.RequestPathAbsoluteStart` | src/api/weather.py:26 | A start date beginning with `/` discards the base and the location. The path is then the start date joined with the end date. |
| `SqlConn.MergeFields` | src/database/sqlconn.py:9-16 | The lookups end without error exactly when every looked-up name was passed. A reported missing key was not passed and is one of the looked-up names. |
| `SqlConn.Merge` | src/database/sqlconn.py:8-16 | `Database.__init__` raises no KeyError exactly when `host`, `user`, `password` and `database` were all passed. Otherwise the missing key is one of those four and was not passed. |
| `SqlConn.FieldsLeaveOthers` | src/database/sqlconn.py:8-16 | A key outside the looked-up names is never written, even when the merge stops early. |
| `SqlConn.FieldsAllPassed` | src/database/sqlconn.py:9-16 | When every name was passed, each non-None value is written and each None keeps the old entry. |
| `SqlConn.FieldsStopAt` | src/database/sqlconn.py:9-16 | The first name not passed raises KeyError naming it. The table then holds exactly the writes for the names before it. |
| `SqlConn.MergeLeavesOthers` | src/database/sqlconn.py:8-16 | Only `host`, `user`, `password` and `database` are ever written. `port` and any other keyword is ignored. |
| `SqlConn.MergeAllPassed` | src/database/sqlconn.py:9-16 | With all four names passed there is no error. Each non-None value is written and each None leaves its entry alone. |
| `SqlConn.MergeMissingPassword` | src/database/sqlconn.py:13-14 | A missing `password` raises after `host` and `user` were written. `password` and `database` stay as they were. |
| `SqlConn.MergeMissingHost` | src/database/sqlconn.py:9 | A missing `host` raises before anything is written. |
| `SqlConn.MergeLaterWins` | src/database/sqlconn.py:6-16 | Across two constructions, the later non-None value wins. Otherwise the earlier value survives, and otherwise the original entry. |
| `SqlConn.MergeIdempotent` | src/database/sqlconn.py:9-16 | Constructing again with the same arguments changes nothing. |
| `SqlConn.ConnParams.constructor` | src/database/sqlconn.py:6 | The shared table starts empty. |
| `SqlConn.ConnParams.Update` | src/database/sqlconn.py:8-16 | The four guarded writes, in place, leave the table and the KeyError that `Merge` describes. |
| `SqlConn.Database.New` | src/database/sqlconn.py:8-16 | Constructing a database merges into the shared table, and a KeyError keeps the writes made so far. On success the new instance holds that same shared table. |
| `SqlConn.Database.Connection` | src/database/sqlconn.py:23-31 | `connection()` passes the shared table as it is at call time. |
| `SqlConn.GetDatabaseConnection` | src/database/sqlconn.py:40-41 | The factory passes what the database's `connection()` passes. |
| `SqlConn.ConstructBoth` | src/database/sqlconn.py:6-31 | After a PostgreSQL database and then a MySQL database are built, both connections see the table as the second construction left it. |

## Findings

| source | as written | input that shows it | evidently intended | confidence | as-written member | corrected member |
|---|---|---|---|---|---|---|
| src/weather/weather.py:372 | `spring_e <= curr_day <= spring_e`: only June 20 is spring | (4, 15) gets 3 (winter), as does every day from March 20 to June 19 | `spring_s <= curr_day <= spring_e`: spring from March 20 to June 20 (line 363) | high (not executed) | `WeatherFeatures.SpringTestWitness` | `WeatherFeatures.GetSeasonIntended` |

`WeatherFrame.AddSeasonFeat` fills the `season` column with `GetSeason`, the
code as written, because that is what the column receives. `GetSeasonIntended`
gives the corrected rule, and `SpringTestDiffers` proves exactly where the two
differ.

## Left out

- The weather ingestion pipeline (`WeatherDataToMysql`) is not part of this model, because its source is not in the repository files.
- `Weather.fetch_weather_data`'s HTTP request, response handling and `Weather.mysql_weather_insert_data` are left out because they are network and database I/O. Only the request path is modelled.
- TOML configuration loading is left out. The API server and key are parameters of `WeatherApi.NewWeather`.
- The database drivers (`psycopg.connect`, `MySQLdb.connect`) are foreign code. `connection()` is modelled as the keyword arguments it passes to them.
- `conn_params` is a class attribute. Dafny has no mutable globals, so the one shared table is an object that the caller passes to every construction.
- `SqlConn.Database.New`: keyword values are modelled as strings or None. The source accepts any Python object.
- `unit_price` is left out because it uses floating-point division and `round`. The debug `print` in `parse_name` is also left out.
- pandas, scikit-learn and plotting steps are left out: `change_dtypes`, `remove_duplicated`, `convert_multilabel_encoding`, `convert_categorical_ohe`, `convert_categorical_le`, `check_missing_values`, `remove_col_white_space_l`/`_r`, `convert_to_datetime`, the year/month/day, hour and day-of-week features, `display_corr` and the `Director` sequence. They are library calls or plotting with no logic of their own.
- `WeatherFeatures.WeatherFrame.AddSeasonFeat`: when the `datetime` column is not datetime64, the source first converts `col` with `pd.to_datetime`. The model reports `NotDatetime` instead. A column is read as datetime64 from its cells (timestamps, with NaN as NaT). A non-empty column of nothing but NaN counts as a float column.
- `WeatherFeatures.WeatherFrame.RemoveWhiteSpaceAll`: pandas decides whether `.str` is allowed by inferring the column's dtype. The model reads that decision off the cell kinds (`StrRefused`), not off the dtype. An all-NaN column counts as numeric, which is the case when pandas stores it as floats.
- `WeatherFeatures.WeatherFrame.ConvertStringToSet`: it inherits the same reading of pandas' `.str` check from `RemoveWhiteSpaceAll`.
- `WeatherFeatures.WeatherFrame.DropColumns`: the table's column names are kept distinct. pandas allows duplicate column names, and that case is not modelled.
- `WeatherFeatures.WeatherFrame.DropColumns`: every `cols` that is not None or a list is `OtherArg` and changes nothing. Any pandas Index or Series, whatever its length, and a NumPy array of two or more elements instead raise ValueError at the truth test `if cols` (src/weather/weather.py:179). A one-element NumPy array takes its element's truth value. The model raises neither.
- `Dates.ParseInt`: only ASCII digits are read. Python's `int` also accepts other Unicode decimal digits.
- `Dates.ParseIntForeign`: a non-ASCII Unicode decimal digit counts as foreign. Python's `int` accepts it.
- `Dates.ParseIntShape`: the shape uses ASCII digits only. A text with other Unicode decimal digits that `int` accepts is not covered.
- `Dates.ParseInt`: the digit limit is fixed at CPython's default of 4300 (`Dates.MaxStrDigits`). `PYTHONINTMAXSTRDIGITS`, `-X int_max_str_digits` and `sys.set_int_max_str_digits` can change it or turn it off. Python releases before 3.9.14, 3.10.7 and 3.11 have no limit.
- `WeatherApi.PathJoin`: `os.path.join` is modelled as `posixpath.join`, with `/` as the only separator and absolute pieces starting with `/`. On Windows, `ntpath.join` also treats `\` as a separator and handles drive letters, and that is not modelled.
- Python's `str.split()` whitespace is modelled as the characters for which `str.isspace()` holds. `int` trims those characters too, except U+001C to U+001F (`Dates.IntSpace`).
