/**
 * The feature-building rules of `ConcreteBuilderWeather`
 * (src/weather/weather.py): the season of a (month, day), the label-string
 * clean-up of one cell, and the builder steps that change the held table in
 * place, over a table of named columns.
 */
module WeatherFeatures {
  import opened Wrappers
  import opened Text
  import Dates

  /* ---------- seasons ---------- */

  /** Python's ordering of `(month, day)` tuples: lexicographic. */
  predicate TupleLe(a: (int, int), b: (int, int))
  {
    a.0 < b.0 || (a.0 == b.0 && a.1 <= b.1)
  }

  predicate Between(lo: (int, int), cur: (int, int), hi: (int, int))
  {
    TupleLe(lo, cur) && TupleLe(cur, hi)
  }

  /** Toronto season bounds, (month, day) to (month, day). */
  const SpringStart := (3, 20)
  const SpringEnd := (6, 20)
  const SummerStart := (6, 21)
  const SummerEnd := (9, 21)
  const FallStart := (9, 22)
  const FallEnd := (12, 20)

  const Spring := 0
  const Summer := 1
  const Fall := 2
  const Winter := 3

  /**
   * `get_season` as the code has it: the spring test reads
   * `spring_e <= curr_day <= spring_e`, so only June 20 is spring, and
   * every other day outside summer and fall is winter.
   */
  function GetSeason(month: int, day: int): (r: int)
    ensures Spring <= r <= Winter
    ensures r == Spring <==> month == 6 && day == 20
    ensures r == Summer <==> (month == 6 && day >= 21) || month == 7 || month == 8 || (month == 9 && day <= 21)
    ensures r == Fall <==> (month == 9 && day >= 22) || month == 10 || month == 11 || (month == 12 && day <= 20)
    ensures r == Winter <==> month < 6 || (month == 6 && day < 20) || (month == 12 && day >= 21) || month > 12
  {
    var cur := (month, day);
    if Between(SpringEnd, cur, SpringEnd) then Spring
    else if Between(SummerStart, cur, SummerEnd) then Summer
    else if Between(FallStart, cur, FallEnd) then Fall
    else Winter
  }

  /** The season the bounds describe: spring runs from March 20 to June 20. */
  function GetSeasonIntended(month: int, day: int): (r: int)
    ensures Spring <= r <= Winter
    ensures r == Spring <==> (month == 3 && day >= 20) || month == 4 || month == 5 || (month == 6 && day <= 20)
    ensures r == Summer <==> (month == 6 && day >= 21) || month == 7 || month == 8 || (month == 9 && day <= 21)
    ensures r == Fall <==> (month == 9 && day >= 22) || month == 10 || month == 11 || (month == 12 && day <= 20)
    ensures r == Winter <==> month < 3 || (month == 3 && day < 20) || (month == 12 && day >= 21) || month > 12
  {
    var cur := (month, day);
    if Between(SpringStart, cur, SpringEnd) then Spring
    else if Between(SummerStart, cur, SummerEnd) then Summer
    else if Between(FallStart, cur, FallEnd) then Fall
    else Winter
  }

  /** The code and the bounds disagree exactly on spring days other than June 20, which the code calls winter. */
  lemma SpringTestDiffers(month: int, day: int)
    ensures GetSeason(month, day) != GetSeasonIntended(month, day)
       <==> Between(SpringStart, (month, day), SpringEnd) && (month, day) != (6, 20)
    ensures GetSeason(month, day) != GetSeasonIntended(month, day)
        ==> GetSeason(month, day) == Winter && GetSeasonIntended(month, day) == Spring
  {
  }

  /** April 15 is spring by the bounds, but the code gives it the winter code. */
  lemma SpringTestWitness()
    ensures GetSeason(4, 15) == Winter
    ensures GetSeasonIntended(4, 15) == Spring
  {
  }

  /** `get_season` applied to a timestamp: only its month and day are read. */
  function SeasonOf(d: Dates.Date): (r: int)
    ensures Spring <= r <= Winter
  {
    GetSeason(d.month, d.day)
  }

  /** Two timestamps on the same month and day get the same season, whatever their years. */
  lemma SeasonIgnoresYear(a: Dates.Date, b: Dates.Date)
    requires a.month == b.month && a.day == b.day
    ensures SeasonOf(a) == SeasonOf(b)
  {
  }

  /* ---------- label strings ---------- */

  /** `str.replace(' ', '')` on one cell. */
  function RemoveSpaces(s: string): (r: string)
    ensures ' ' !in r
    ensures forall c | c != ' ' :: multiset(r)[c] == multiset(s)[c]
  {
    Remove(s, ' ')
  }

  /** Removing spaces a second time changes nothing. */
  lemma RemoveSpacesIdempotent(s: string)
    ensures RemoveSpaces(RemoveSpaces(s)) == RemoveSpaces(s)
  {
    RemoveAbsent(RemoveSpaces(s), ' ');
  }

  /** Spaces anywhere in the cell do not matter. */
  lemma RemoveSpacesIgnoresSpace(a: string, b: string)
    ensures RemoveSpaces(a + " " + b) == RemoveSpaces(a + b)
  {
    RemoveAppend(a + " ", b, ' ');
    RemoveAppend(a, " ", ' ');
    RemoveAppend(a, b, ' ');
  }

  /** `set(x.split(','))` on a cell whose spaces are already removed. */
  function SplitToSet(s: string): (r: set<string>)
    ensures r != {}
    ensures forall p | p in r :: ',' !in p
  {
    SplitPiecesWithin(s, ',');
    var ps := set p | p in SplitOn(s, ',');
    assert SplitOn(s, ',')[0] in ps;
    ps
  }

  /** What `convert_string_to_set` makes of one string cell. */
  function LabelSet(s: string): (r: set<string>)
    ensures r != {}
    ensures forall x | x in r :: ' ' !in x && ',' !in x
  {
    var stripped := RemoveSpaces(s);
    SplitPiecesWithin(stripped, ',');
    assert SplitOn(stripped, ',')[0] in SplitToSet(stripped);
    SplitToSet(stripped)
  }

  predicate IsLabel(l: string)
  {
    ' ' !in l && ',' !in l
  }

  /** Labels joined by ',' come back as the set of those labels; a repeated label appears once. */
  lemma LabelSetOfJoin(labels: seq<string>)
    requires |labels| > 0
    requires forall l | l in labels :: IsLabel(l)
    ensures LabelSet(Join(labels, ',')) == set l | l in labels
  {
    JoinWithin(labels, ',', ' ');
    RemoveAbsent(Join(labels, ','), ' ');
    SplitJoin(labels, ',');
  }

  /** A space inserted anywhere leaves the label set as it was. */
  lemma LabelSetIgnoresSpace(a: string, b: string)
    ensures LabelSet(a + " " + b) == LabelSet(a + b)
  {
    RemoveSpacesIgnoresSpace(a, b);
  }

  lemma JoinPair(a: string, b: string)
    ensures Join([a, b], ',') == a + "," + b
  {
    assert [a, b][1..] == [b];
  }

  lemma StripPair(a: string, b: string)
    requires IsLabel(a) && IsLabel(b)
    ensures RemoveSpaces(a + ", " + b) == a + "," + b
    ensures RemoveSpaces(a + "," + b) == a + "," + b
  {
    assert a + ", " + b == a + "," + " " + b;
    RemoveSpacesIgnoresSpace(a + ",", b);
    assert ' ' !in a + "," + b;
    RemoveAbsent(a + "," + b, ' ');
  }

  lemma LabelSetOfJoinedPair(a: string, b: string)
    requires IsLabel(a) && IsLabel(b)
    ensures LabelSet(a + "," + b) == {a, b}
  {
    JoinPair(a, b);
    LabelSetOfJoin([a, b]);
    var expected := set l | l in [a, b];
    assert expected == {a, b};
  }

  lemma LabelSetOfSpacedPair(a: string, b: string)
    requires IsLabel(a) && IsLabel(b)
    ensures LabelSet(a + ", " + b) == LabelSet(a + "," + b)
  {
    var spaced, joined := a + ", " + b, a + "," + b;
    StripPair(a, b);
    assert LabelSet(spaced) == SplitToSet(joined);
    assert LabelSet(joined) == SplitToSet(joined);
  }

  /** "a, b" (as in "Rain, Overcast") is the two labels a and b. */
  lemma LabelSetOfPair(a: string, b: string)
    requires IsLabel(a) && IsLabel(b)
    ensures LabelSet(a + ", " + b) == {a, b}
  {
    LabelSetOfSpacedPair(a, b);
    LabelSetOfJoinedPair(a, b);
  }

  /** A label given twice is one label. */
  lemma LabelSetOfRepeat(a: string)
    requires IsLabel(a)
    ensures LabelSet(a + "," + a) == {a}
  {
    var labels := [a, a];
    assert labels[1..] == [a];
    assert Join(labels, ',') == a + "," + a;
    LabelSetOfJoin(labels);
    var expected := set l | l in labels;
    assert expected == {a};
  }

  /* ---------- column lists ---------- */

  /** `columns` with every name in `names` removed, order kept. */
  function Without(columns: seq<string>, names: seq<string>): (r: seq<string>)
    ensures forall c :: c in r <==> c in columns && c !in names
    ensures |r| <= |columns|
  {
    if columns == [] then []
    else (if columns[0] in names then [] else [columns[0]]) + Without(columns[1..], names)
  }

  /** Removing names works column by column, so the kept columns stay in their order. */
  lemma {:induction false} WithoutAppend(a: seq<string>, b: seq<string>, names: seq<string>)
    ensures Without(a + b, names) == Without(a, names) + Without(b, names)
  {
    if a == [] {
      assert a + b == b;
    } else {
      assert (a + b)[1..] == a[1..] + b;
      WithoutAppend(a[1..], b, names);
    }
  }

  /** Removing the same names again changes nothing. */
  lemma {:induction false} WithoutIdempotent(columns: seq<string>, names: seq<string>)
    ensures Without(Without(columns, names), names) == Without(columns, names)
  {
    if columns != [] {
      WithoutIdempotent(columns[1..], names);
      var head := if columns[0] in names then [] else [columns[0]];
      WithoutAppend(head, Without(columns[1..], names), names);
      assert Without(head, names) == head by {
        if head != [] { assert head[1..] == []; }
      }
    }
  }

  predicate Distinct(s: seq<string>)
  {
    forall i, j | 0 <= i < j < |s| :: s[i] != s[j]
  }

  lemma {:induction false} WithoutDistinct(columns: seq<string>, names: seq<string>)
    requires Distinct(columns)
    ensures Distinct(Without(columns, names))
  {
    if columns != [] {
      WithoutDistinct(columns[1..], names);
      var rest := Without(columns[1..], names);
      assert columns[0] !in columns[1..];
      assert columns[0] !in rest;
    }
  }

  /* ---------- the held table ---------- */

  /** One cell of the table, with NaN as `Missing`. */
  datatype Cell = Str(text: string) | Missing | Labels(labels: set<string>) | Number(n: int) | Stamp(date: Dates.Date)

  /** The `cols` argument of `drop_columns`: None, a list, or some other object. */
  datatype ColsArg = NoneArg | ListArg(names: seq<string>) | OtherArg

  datatype FrameError =
    | KeyError(names: seq<string>)   // a named column does not exist
    | AttributeError(name: string)   // `.str`, `.split`, `.month` or `df.datetime` is not available
    | NotDatetime(column: string)    // the column would first need `pd.to_datetime`

  /** `.str.replace(' ', '')` on one cell: non-strings become NaN. */
  function StripCell(c: Cell): Cell
  {
    if c.Str? then Str(RemoveSpaces(c.text)) else Missing
  }

  /** `.str.replace(' ', '')` on a column: string cells stay strings, without spaces; the rest become NaN. */
  function StripColumn(cells: seq<Cell>): (r: seq<Cell>)
    ensures |r| == |cells|
    ensures forall i | 0 <= i < |r| :: (r[i].Str? <==> cells[i].Str?) && (!r[i].Str? ==> r[i].Missing?)
    ensures forall i | 0 <= i < |r| && cells[i].Str? :: r[i] == Str(RemoveSpaces(cells[i].text))
    ensures forall i | 0 <= i < |r| && r[i].Str? :: ' ' !in r[i].text
  {
    seq(|cells|, i requires 0 <= i < |cells| => StripCell(cells[i]))
  }

  /** Cleaning a column twice is cleaning it once. */
  lemma StripColumnIdempotent(cells: seq<Cell>)
    ensures StripColumn(StripColumn(cells)) == StripColumn(cells)
  {
    forall i | 0 <= i < |cells| ensures StripCell(StripCell(cells[i])) == StripCell(cells[i]) {
      if cells[i].Str? {
        RemoveSpacesIdempotent(cells[i].text);
      }
    }
  }

  predicate AllStr(cells: seq<Cell>)
  {
    forall i | 0 <= i < |cells| :: cells[i].Str?
  }

  /**
   * pandas refuses the `.str` accessor (AttributeError) on a non-empty
   * column it infers as numeric or as timestamps: every cell a number or
   * NaN, or every cell a timestamp or NaN.
   */
  predicate StrRefused(cells: seq<Cell>)
  {
    |cells| > 0
    && ((forall i | 0 <= i < |cells| :: cells[i].Missing? || cells[i].Number?)
        || (forall i | 0 <= i < |cells| :: cells[i].Missing? || cells[i].Stamp?))
  }

  /** A column of strings is never refused the accessor. */
  lemma StrNotRefused(cells: seq<Cell>)
    requires AllStr(cells)
    ensures !StrRefused(cells)
  {
    if |cells| > 0 {
      assert cells[0].Str?;
    }
  }

  /**
   * A column pandas stores as datetime64: timestamps, with `Missing` read
   * as NaT. A non-empty column of nothing but NaN is a float column.
   */
  predicate DatetimeColumn(cells: seq<Cell>)
  {
    (forall i | 0 <= i < |cells| :: cells[i].Stamp? || cells[i].Missing?)
    && (|cells| > 0 ==> exists i | 0 <= i < |cells| :: cells[i].Stamp?)
  }

  /** The column `convert_string_to_set` produces from a column of strings. */
  function LabelColumn(cells: seq<Cell>): (r: seq<Cell>)
    requires AllStr(cells)
    ensures |r| == |cells|
  {
    seq(|cells|, i requires 0 <= i < |cells| => Labels(LabelSet(cells[i].text)))
  }

  /** `apply(lambda x: set(x.split(',')))` on a column of strings. */
  function SplitColumn(cells: seq<Cell>): (r: seq<Cell>)
    requires AllStr(cells)
    ensures |r| == |cells|
    ensures forall i | 0 <= i < |r| :: r[i].Labels? && r[i].labels != {} && forall p | p in r[i].labels :: ',' !in p
  {
    seq(|cells|, i requires 0 <= i < |cells| => Labels(SplitToSet(cells[i].text)))
  }

  /** Cleaning keeps exactly the string cells strings, and splitting the cleaned column gives the label column. */
  lemma SplitStrippedColumn(cells: seq<Cell>)
    ensures AllStr(StripColumn(cells)) <==> AllStr(cells)
    ensures AllStr(cells) ==> SplitColumn(StripColumn(cells)) == LabelColumn(cells)
  {
    var stripped := StripColumn(cells);
    assert forall i | 0 <= i < |cells| :: stripped[i] == StripCell(cells[i]);
  }

  /**
   * The column `add_season_feat` adds: `get_season` of each timestamp. NaT
   * has NaN for its month and day, so every range test of `get_season` is
   * false and the row gets winter.
   */
  function SeasonColumn(cells: seq<Cell>): (r: seq<Cell>)
    requires DatetimeColumn(cells)
    ensures |r| == |cells|
    ensures forall i | 0 <= i < |r| :: r[i].Number? && Spring <= r[i].n <= Winter
    ensures forall i | 0 <= i < |r| && cells[i].Stamp? :: r[i] == Number(GetSeason(cells[i].date.month, cells[i].date.day))
    ensures forall i | 0 <= i < |r| && cells[i].Missing? :: r[i] == Number(Winter)
  {
    seq(|cells|, i requires 0 <= i < |cells| => if cells[i].Stamp? then Number(SeasonOf(cells[i].date)) else Number(Winter))
  }

  /** The `WeatherData` a `ConcreteBuilderWeather` holds: named columns of equal length. */
  class WeatherFrame {
    var columns: seq<string>
    var data: map<string, seq<Cell>>
    var rows: nat

    ghost predicate Valid()
      reads this
    {
      Distinct(columns)
      && (forall c :: c in data <==> c in columns)
      && (forall c | c in data :: |data[c]| == rows)
    }

    constructor (columns: seq<string>, data: map<string, seq<Cell>>, rows: nat)
      requires Distinct(columns)
      requires forall c :: c in data <==> c in columns
      requires forall c | c in data :: |data[c]| == rows
      ensures Valid()
      ensures this.columns == columns && this.data == data && this.rows == rows
    {
      this.columns := columns;
      this.data := data;
      this.rows := rows;
    }

    /**
     * `drop_columns(cols)`: only a non-empty list removes anything; a name
     * that is not a column raises KeyError before anything is removed.
     */
    method DropColumns(cols: ColsArg) returns (err: Option<FrameError>)
      requires Valid()
      modifies this
      ensures Valid() && rows == old(rows)
      ensures !(cols.ListArg? && cols.names != []) ==> err == None && columns == old(columns) && data == old(data)
      ensures cols.ListArg? && cols.names != [] && Without(cols.names, old(columns)) != [] ==>
        err == Some(KeyError(Without(cols.names, old(columns)))) && columns == old(columns) && data == old(data)
      ensures cols.ListArg? && cols.names != [] && Without(cols.names, old(columns)) == [] ==>
        err == None && columns == Without(old(columns), cols.names)
        && data == map c | c in old(data) && c !in cols.names :: old(data)[c]
    {
      if cols.ListArg? && cols.names != [] {
        var absent := Without(cols.names, columns);
        if absent != [] {
          return Some(KeyError(absent));
        }
        WithoutDistinct(columns, cols.names);
        columns := Without(columns, cols.names);
        data := map c | c in data && c !in cols.names :: data[c];
      }
      err := None;
    }

    /**
     * `remove_col_white_space_all(col)`: every space of every string cell of
     * `col` is removed. A column pandas will not treat as text raises at
     * `.str`, before anything is written.
     */
    method RemoveWhiteSpaceAll(col: string) returns (err: Option<FrameError>)
      requires Valid()
      modifies this
      ensures Valid() && columns == old(columns) && rows == old(rows)
      ensures col !in old(data) ==> err == Some(KeyError([col])) && data == old(data)
      ensures col in old(data) && StrRefused(old(data)[col]) ==> err == Some(AttributeError("str")) && data == old(data)
      ensures col in old(data) && !StrRefused(old(data)[col]) ==>
        err == None && data == old(data)[col := StripColumn(old(data)[col])]
    {
      if col !in data {
        return Some(KeyError([col]));
      }
      if StrRefused(data[col]) {
        return Some(AttributeError("str"));
      }
      data := data[col := StripColumn(data[col])];
      err := None;
    }

    /**
     * `convert_string_to_set(col)`: spaces are removed first, then every cell
     * becomes the set of its ','-separated pieces. A column refused the
     * `.str` accessor raises before anything is written. Otherwise a cell
     * that is not a string has no `split` (AttributeError), and the space
     * removal stays.
     */
    method ConvertStringToSet(col: string) returns (err: Option<FrameError>)
      requires Valid()
      modifies this
      ensures Valid() && columns == old(columns) && rows == old(rows)
      ensures col !in old(data) ==> err == Some(KeyError([col])) && data == old(data)
      ensures col in old(data) && StrRefused(old(data)[col]) ==> err == Some(AttributeError("str")) && data == old(data)
      ensures col in old(data) && AllStr(old(data)[col]) ==>
        err == None && data == old(data)[col := LabelColumn(old(data)[col])]
      ensures col in old(data) && !AllStr(old(data)[col]) && !StrRefused(old(data)[col]) ==>
        err == Some(AttributeError("split")) && data == old(data)[col := StripColumn(old(data)[col])]
    {
      ghost var before := data;
      if col in data && AllStr(data[col]) {
        StrNotRefused(data[col]);
      }
      err := RemoveWhiteSpaceAll(col);
      if err.Some? {
        return;
      }
      SplitStrippedColumn(before[col]);
      if AllStr(data[col]) {
        data := data[col := SplitColumn(data[col])];
      } else {
        err := Some(AttributeError("split"));
      }
    }

    /**
     * `add_season_feat(col)`: a `season` column holding `get_season` of each
     * timestamp of `col`, replacing an existing `season` column in place or
     * appended at the end.
     */
    method AddSeasonFeat(col: string) returns (err: Option<FrameError>)
      requires Valid()
      modifies this
      ensures Valid() && rows == old(rows)
      ensures err.Some? ==> columns == old(columns) && data == old(data)
      ensures "datetime" !in old(data) ==> err == Some(AttributeError("datetime"))
      ensures "datetime" in old(data) && !DatetimeColumn(old(data)["datetime"]) ==> err == Some(NotDatetime("datetime"))
      ensures "datetime" in old(data) && DatetimeColumn(old(data)["datetime"]) && col !in old(data) ==>
        err == Some(KeyError([col]))
      ensures ("datetime" in old(data) && DatetimeColumn(old(data)["datetime"]) && col in old(data)
               && !DatetimeColumn(old(data)[col])) ==> err == Some(AttributeError("month"))
      ensures ("datetime" in old(data) && DatetimeColumn(old(data)["datetime"]) && col in old(data)
               && DatetimeColumn(old(data)[col])) ==>
        err == None && data == old(data)["season" := SeasonColumn(old(data)[col])]
        && columns == (if "season" in old(columns) then old(columns) else old(columns) + ["season"])
    {
      if "datetime" !in data {
        return Some(AttributeError("datetime"));
      }
      if !DatetimeColumn(data["datetime"]) {
        return Some(NotDatetime("datetime"));
      }
      if col !in data {
        return Some(KeyError([col]));
      }
      if !DatetimeColumn(data[col]) {
        return Some(AttributeError("month"));
      }
      var seasons := SeasonColumn(data[col]);
      if "season" !in columns {
        columns := columns + ["season"];
      }
      data := data["season" := seasons];
      err := None;
    }
  }
}
