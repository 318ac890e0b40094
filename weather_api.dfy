/**
 * `Weather.__init__` and the request path of `Weather.fetch_weather_data`
 * (src/api/weather.py). The API server and key read from the TOML
 * configuration are parameters here.
 */
module WeatherApi {
  import opened Wrappers
  import opened Text
  import opened Dates

  /** The fields `Weather.__init__` assigns. */
  datatype Weather = Weather(weatherApi: string, keyApi: string, loc: string, dateStart: string, dateEnd: string)

  /** The exceptions `Weather.__init__` can raise while reading `date_start`. */
  datatype InitError =
    | NotAnInteger(piece: string)  // `int(piece)` raised ValueError
    | TooFewFields(count: nat)     // `date_tmp[2]` raised IndexError
    | InvalidDate(date: Date)      // `date(y, m, d)` raised ValueError
    | YearOutOfRange(year: int)    // adding the month passed year 9999

  const DefaultLoc := "Toronto,CA"
  const DefaultStart := "2023-12-01"
  const DefaultEnd := ""

  /** `list(map(int, date_start.split('-')))`. */
  function StartFields(dateStart: string): (r: Result<seq<int>, string>)
    ensures r.Ok? ==> |r.value| == multiset(dateStart)['-'] + 1
    ensures r.Err? ==> ParseInt(r.error).None? && '-' !in r.error
  {
    SplitCount(dateStart, '-');
    SplitPiecesWithin(dateStart, '-');
    ParseInts(SplitOn(dateStart, '-'))
  }

  /** The date the first three fields name, when the start is read for the default end. */
  function FieldsDate(fields: seq<int>): Date
    requires |fields| >= 3
  {
    Date(fields[0], fields[1], fields[2])
  }

  /** The month step can be taken from `d`: it is a date and its month is not December 9999. */
  predicate CanStep(d: Date)
  {
    Valid(d) && !(d.year == MaxYear && d.month == 12)
  }

  /**
   * `Weather(loc, date_start, date_end)`. Every '-'-separated piece of
   * `date_start` goes through `int`, whatever `date_end` is. A non-empty
   * `date_end` is kept; an empty one becomes the start date plus one
   * calendar month, rendered as `YYYY-MM-DD`.
   */
  function NewWeather(weatherApi: string, keyApi: string, loc: string, dateStart: string, dateEnd: string)
    : (r: Result<Weather, InitError>)
    ensures r.Ok? ==> r.value.weatherApi == weatherApi && r.value.keyApi == keyApi
    ensures r.Ok? ==> r.value.loc == loc && r.value.dateStart == dateStart
    ensures StartFields(dateStart).Err? ==> r == Err(NotAnInteger(StartFields(dateStart).error))
    ensures dateEnd != "" ==> (r.Ok? <==> StartFields(dateStart).Ok?)
    ensures dateEnd != "" && r.Ok? ==> r.value.dateEnd == dateEnd
    ensures dateEnd == "" ==>
      (r.Ok? <==> StartFields(dateStart).Ok? && |StartFields(dateStart).value| >= 3
                  && CanStep(FieldsDate(StartFields(dateStart).value)))
    ensures dateEnd == "" && r.Ok? ==>
      var start := FieldsDate(StartFields(dateStart).value);
      StartFields(r.value.dateEnd) == Ok([AddOneMonth(start).value.year, AddOneMonth(start).value.month, AddOneMonth(start).value.day])
    ensures dateEnd == "" && r.Ok? ==>
      r.value.dateEnd == FormatIso(AddOneMonth(FieldsDate(StartFields(dateStart).value)).value)
  {
    match StartFields(dateStart)
    case Err(piece) => Err(NotAnInteger(piece))
    case Ok(fields) =>
      if dateEnd != "" then Ok(Weather(weatherApi, keyApi, loc, dateStart, dateEnd))
      else if |fields| < 3 then Err(TooFewFields(|fields|))
      else
        var start := FieldsDate(fields);
        if !Valid(start) then Err(InvalidDate(start))
        else match AddOneMonth(start)
          case Err(year) => Err(YearOutOfRange(year))
          case Ok(next) =>
            FormatThenParse(next);
            Ok(Weather(weatherApi, keyApi, loc, dateStart, FormatIso(next)))
  }

  /** Starting from a rendered date, the default end is the rendering of the date one month later. */
  lemma DefaultEndIsNextMonth(weatherApi: string, keyApi: string, loc: string, start: Date)
    requires CanStep(start)
    ensures NewWeather(weatherApi, keyApi, loc, FormatIso(start), "")
         == Ok(Weather(weatherApi, keyApi, loc, FormatIso(start), FormatIso(AddOneMonth(start).value)))
  {
    FormatThenParse(start);
  }

  lemma RenderDefaultStart()
    ensures FormatIso(Date(2023, 12, 1)) == DefaultStart
  {
    FormatIsoFields(Date(2023, 12, 1));
    assert ZeroPad(20, 2) == "20";
    assert ZeroPad(202, 3) == "202";
    assert ZeroPad(2023, 4) == "2023";
    assert ZeroPad(12, 2) == "12";
    assert ZeroPad(1, 2) == "01";
  }

  lemma RenderNextMonth()
    ensures AddOneMonth(Date(2023, 12, 1)) == Ok(Date(2024, 1, 1))
    ensures FormatIso(Date(2024, 1, 1)) == "2024-01-01"
  {
    FormatIsoFields(Date(2024, 1, 1));
    assert ZeroPad(20, 2) == "20";
    assert ZeroPad(202, 3) == "202";
    assert ZeroPad(2024, 4) == "2024";
    assert ZeroPad(1, 2) == "01";
  }

  /** With the default arguments the window is December 2023: it ends on 2024-01-01. */
  lemma DefaultWindow(weatherApi: string, keyApi: string)
    ensures NewWeather(weatherApi, keyApi, DefaultLoc, DefaultStart, DefaultEnd)
         == Ok(Weather(weatherApi, keyApi, "Toronto,CA", "2023-12-01", "2024-01-01"))
  {
    RenderDefaultStart();
    RenderNextMonth();
    DefaultEndIsNextMonth(weatherApi, keyApi, DefaultLoc, Date(2023, 12, 1));
  }

  predicate EndsWith(s: string, suffix: string)
  {
    |suffix| <= |s| && s[|s| - |suffix|..] == suffix
  }

  /** One leg of `os.path.join`: an absolute piece restarts the path, otherwise one '/' separates. */
  function JoinStep(path: string, piece: string): (r: string)
    ensures EndsWith(r, piece)
  {
    if |piece| > 0 && piece[0] == '/' then piece
    else if path == [] || path[|path| - 1] == '/' then path + piece
    else path + "/" + piece
  }

  /** `os.path.join(base, *pieces)` with the POSIX separator. */
  function PathJoin(base: string, pieces: seq<string>): (r: string)
    ensures pieces != [] && pieces[|pieces| - 1] != [] && pieces[|pieces| - 1][0] == '/' ==> r == pieces[|pieces| - 1]
    decreases |pieces|
  {
    if pieces == [] then base
    else
      var next := JoinStep(base, pieces[0]);
      if |pieces| == 1 then
        assert PathJoin(next, pieces[1..]) == next;
        PathJoin(next, pieces[1..])
      else
        assert pieces[1..][|pieces| - 2] == pieces[|pieces| - 1];
        PathJoin(next, pieces[1..])
  }

  /** The joined path always ends with the last piece. */
  lemma {:induction false} PathJoinEndsWithLast(base: string, pieces: seq<string>)
    requires pieces != []
    ensures EndsWith(PathJoin(base, pieces), pieces[|pieces| - 1])
    decreases |pieces|
  {
    var next := JoinStep(base, pieces[0]);
    if |pieces| > 1 {
      PathJoinEndsWithLast(next, pieces[1..]);
      assert pieces[1..][|pieces| - 2] == pieces[|pieces| - 1];
    } else {
      assert PathJoin(next, pieces[1..]) == next;
    }
  }

  /** The URL `fetch_weather_data` requests: base, location, start and end, in that order. */
  function RequestPath(w: Weather): (r: string)
    ensures EndsWith(r, w.dateEnd)
    ensures w.dateEnd != [] && w.dateEnd[0] == '/' ==> r == w.dateEnd
  {
    PathJoinEndsWithLast(w.weatherApi, [w.loc, w.dateStart, w.dateEnd]);
    PathJoin(w.weatherApi, [w.loc, w.dateStart, w.dateEnd])
  }

  /** A piece that is not empty and has no '/' at either end. */
  predicate PlainPiece(s: string)
  {
    s != [] && s[0] != '/' && s[|s| - 1] != '/'
  }

  /** Joining a plain piece onto a path without a trailing '/' inserts exactly one '/'. */
  lemma JoinPlain(path: string, piece: string)
    requires path != [] && path[|path| - 1] != '/'
    requires PlainPiece(piece)
    ensures JoinStep(path, piece) == path + "/" + piece
    ensures JoinStep(path, piece) != [] && JoinStep(path, piece)[|JoinStep(path, piece)| - 1] != '/'
  {
    var r := path + "/" + piece;
    assert r[|r| - 1] == piece[|piece| - 1];
  }

  /** Onto an empty path or one ending in '/', a relative piece is appended with no '/' added. */
  lemma JoinSlash(path: string, piece: string)
    requires path == [] || path[|path| - 1] == '/'
    requires piece == [] || piece[0] != '/'
    ensures JoinStep(path, piece) == path + piece
  {
  }

  /** Joining three pieces is three join steps. */
  lemma PathJoinThree(base: string, a: string, b: string, c: string)
    ensures PathJoin(base, [a, b, c]) == JoinStep(JoinStep(JoinStep(base, a), b), c)
  {
    assert [a, b, c][1..] == [b, c];
    assert [b, c][1..] == [c];
    assert [c][1..] == [];
    var p1 := JoinStep(base, a);
    var p2 := JoinStep(p1, b);
    assert PathJoin(base, [a, b, c]) == PathJoin(p1, [b, c]);
    assert PathJoin(p1, [b, c]) == PathJoin(p2, [c]);
    assert PathJoin(p2, [c]) == PathJoin(JoinStep(p2, c), []);
  }

  /** With plain pieces and a base without a trailing '/', the path is the pieces separated by single '/'. */
  lemma RequestPathSegments(w: Weather)
    requires w.weatherApi != [] && w.weatherApi[|w.weatherApi| - 1] != '/'
    requires PlainPiece(w.loc) && PlainPiece(w.dateStart) && PlainPiece(w.dateEnd)
    ensures RequestPath(w) == w.weatherApi + "/" + w.loc + "/" + w.dateStart + "/" + w.dateEnd
  {
    PathJoinThree(w.weatherApi, w.loc, w.dateStart, w.dateEnd);
    JoinPlain(w.weatherApi, w.loc);
    var p1 := w.weatherApi + "/" + w.loc;
    JoinPlain(p1, w.dateStart);
    var p2 := p1 + "/" + w.dateStart;
    JoinPlain(p2, w.dateEnd);
  }

  /** A start date beginning with '/' discards the base and the location. */
  lemma RequestPathAbsoluteStart(w: Weather)
    requires w.dateStart != [] && w.dateStart[0] == '/'
    ensures RequestPath(w) == JoinStep(w.dateStart, w.dateEnd)
  {
    PathJoinThree(w.weatherApi, w.loc, w.dateStart, w.dateEnd);
  }
}
