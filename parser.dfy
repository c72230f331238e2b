/**
 * The weather.com parser of weather_terminal/parsers/weather_com_parser.py: which page it asks for,
 * what the today strategy reads off it and in which order it gives up, and the table that sends each
 * forecast kind to its strategy.
 */
module WeatherCom {
  import opened Wrappers
  import opened Soup
  import opened Errors
  import opened Extraction
  import opened Patterns
  import opened HiLoScanner
  import opened ForecastTypes
  import opened Units
  import opened Dates
  import opened Forecasts

  /** `'http://weather.com/weather/{forecast}/l/{area}'` as `Request.fetch_data` fills it in. */
  function Url(forecast: string, area: string): string
  {
    "http://weather.com/weather/" + forecast + "/l/" + area
  }

  const TempKey := "today_nowcard-temp"
  const PhraseKey := "today_nowcard-phrase"
  const HiLoKey := "today_nowcard-hilo"
  const ContainerClass := "today_nowcard-container"
  const SidecarClass := "today_nowcard-sidecar"

  /** The criteria of lines 47-51: three `div` classes. */
  const TodayCriteria: Criteria := map[TempKey := "div", PhraseKey := "div", HiLoKey := "div"]

  /** `bs.find('section', class_='today_nowcard-container')`. */
  function TodayContainer(page: Node): Option<Node>
  {
    Find(page, Selector("section", Some(ContainerClass)))
  }

  /** `weather_conditions`: the field sets of the container's children. */
  function Conditions(page: Node): Result<seq<FieldSet>, Error>
  {
    Parse(TodayContainer(page), TodayCriteria)
  }

  /** `container.find('div', class_='today_nowcard-sidecar')`. */
  function Sidecar(container: Node): Option<Node>
  {
    Find(container, Selector("div", Some(SidecarClass)))
  }

  /** What the today strategy reads off a page, before any unit conversion. */
  datatype TodayReading = TodayReading(
    currentTemp: string, high: string, low: string, humidity: string, wind: string, phrase: Option<string>)

  /** A current temperature as `_clear_str_number` leaves it: "--" or a non-empty run of digits. */
  predicate IsCleanNumber(t: string)
  {
    t == "--" || (|t| > 0 && AllIn(t, 0, |t|, Digit))
  }

  /** The guarantees every reading gives its caller. */
  predicate WellRead(reading: TodayReading)
  {
    IsToken(reading.high) && IsToken(reading.low) && IsCleanNumber(reading.currentTemp)
  }

  /**
   * Lines 65-67, once the hi/lo groups are known: unpack the sidecar rows `sideRows` (what
   * `_get_additional_info` gives, or the error it raises), then clean the temperature.
   */
  function ReadRest(info: FieldSet, high: string, low: string, sideRows: Result<seq<string>, Error>): (r: Result<TodayReading, Error>)
    requires IsToken(high) && IsToken(low)
    requires sideRows.Err? ==> sideRows.error != NoForecastForToday && sideRows.error != AreaNotFound
    ensures r.Ok? ==> WellRead(r.value)
    ensures r.Err? ==> r.error != NoForecastForToday && r.error != AreaNotFound
  {
    match sideRows
    case Err(e) => Err(e)
    case Ok(rows) =>
      if |rows| != 2 then Err(UnpackMismatch(|rows|))
      else if TempKey !in info then Err(MissingKey(TempKey))
      else
        var phrase := if PhraseKey in info then Some(info[PhraseKey]) else None;
        Ok(TodayReading(ClearStrNumber(info[TempKey]), high, low, rows[0], rows[1], phrase))
  }

  /** Lines 58-67 on the first field set: the hi/lo groups first, then the rest. */
  function ReadFieldSet(info: FieldSet, sideRows: Result<seq<string>, Error>): (r: Result<TodayReading, Error>)
    requires sideRows.Err? ==> sideRows.error != NoForecastForToday && sideRows.error != AreaNotFound
    ensures r.Ok? ==> WellRead(r.value)
    ensures r.Err? ==> r.error != NoForecastForToday && r.error != AreaNotFound
  {
    if HiLoKey !in info then Err(MissingKey(HiLoKey))
    else
      HiLoLeftmost(info[HiLoKey]);
      match HiLo(info[HiLoKey])
      case None => Err(NoAttribute("groups"))
      case Some((high, low)) => ReadRest(info, high, low, sideRows)
  }

  /**
   * Lines 54-67 on a fetched page, failing where the code raises and in the same order. The phrase is
   * looked up only when the forecast is built, after the converter's unit is set, so its absence is
   * left for the caller to report.
   */
  function ReadToday(page: Node): (r: Result<TodayReading, Error>)
    ensures r == Err(NoForecastForToday) <==> Conditions(page) == Ok([])
    ensures r != Err(AreaNotFound)
    ensures r.Ok? ==> WellRead(r.value)
  {
    match Conditions(page)
    case Err(e) => Err(e)
    case Ok(conditions) =>
      if |conditions| < 1 then Err(NoForecastForToday)
      else ReadFieldSet(conditions[0], AdditionalInfo(Sidecar(TodayContainer(page).value)))
  }

  /** Everything the strategy reads comes from the first field set and the sidecar: later field sets never matter. */
  lemma OnlyFirstFieldSetCounts(p1: Node, p2: Node)
    requires Conditions(p1).Ok? && Conditions(p2).Ok?
    requires |Conditions(p1).value| >= 1 && |Conditions(p2).value| >= 1
    requires Conditions(p1).value[0] == Conditions(p2).value[0]
    requires AdditionalInfo(Sidecar(TodayContainer(p1).value)) == AdditionalInfo(Sidecar(TodayContainer(p2).value))
    ensures ReadToday(p1) == ReadToday(p2)
  {
    assert ReadToday(p1) == ReadFieldSet(Conditions(p1).value[0], AdditionalInfo(Sidecar(TodayContainer(p1).value)));
  }

  /**
   * A reading's temperatures are the groups of the leftmost match of the hi/lo pattern in the first
   * field set's hi/lo text, and its current temperature is that set's temperature text cleaned.
   */
  lemma ReadingFromFirstFieldSet(page: Node)
    requires ReadToday(page).Ok?
    ensures Conditions(page).Ok? && |Conditions(page).value| >= 1
    ensures var info := Conditions(page).value[0];
            var reading := ReadToday(page).value;
            && HiLoKey in info && TempKey in info
            && reading.currentTemp == ClearStrNumber(info[TempKey])
            && (reading.phrase.Some? <==> PhraseKey in info)
            && (reading.phrase.Some? ==> reading.phrase.value == info[PhraseKey])
            && (exists m :: IsReportedMatch(info[HiLoKey], m))
            && forall m :: IsReportedMatch(info[HiLoKey], m) ==> m.high == reading.high && m.tail.low == reading.low
  {
    var info := Conditions(page).value[0];
    HiLoGroups(info[HiLoKey]);
  }

  /** Humidity is the first sidecar row and wind the second; the table has at least those two rows. */
  lemma SidecarRows(page: Node)
    requires ReadToday(page).Ok?
    ensures TodayContainer(page).Some?
    ensures var rows := TableRows(Sidecar(TodayContainer(page).value));
            var reading := ReadToday(page).value;
            && rows.Ok? && |rows.value| >= 2
            && RowText(rows.value[0]) == Ok(reading.humidity)
            && RowText(rows.value[1]) == Ok(reading.wind)
  {
    var sideRows := AdditionalInfo(Sidecar(TodayContainer(page).value));
    assert ReadToday(page) == ReadFieldSet(Conditions(page).value[0], sideRows);
    FieldSetRows(Conditions(page).value[0], sideRows);
  }

  /** A reading unpacks exactly two sidecar rows: humidity, then wind. */
  lemma FieldSetRows(info: FieldSet, sideRows: Result<seq<string>, Error>)
    requires sideRows.Err? ==> sideRows.error != NoForecastForToday && sideRows.error != AreaNotFound
    requires ReadFieldSet(info, sideRows).Ok?
    ensures sideRows.Ok? && |sideRows.value| == 2
    ensures sideRows.value[0] == ReadFieldSet(info, sideRows).value.humidity
    ensures sideRows.value[1] == ReadFieldSet(info, sideRows).value.wind
  {
    var (high, low) := HiLo(info[HiLoKey]).value;
    HiLoLeftmost(info[HiLoKey]);
    assert ReadFieldSet(info, sideRows) == ReadRest(info, high, low, sideRows);
  }

  /** A sidecar table with fewer than two rows cannot be unpacked into humidity and wind. */
  lemma FewRowsFail(page: Node)
    requires Conditions(page).Ok? && |Conditions(page).value| >= 1
    requires var info := Conditions(page).value[0]; HiLoKey in info && HiLo(info[HiLoKey]).Some?
    requires var side := Sidecar(TodayContainer(page).value);
             TableRows(side).Ok? && RowTexts(TableRows(side).value).Ok? && |TableRows(side).value| < 2
    ensures ReadToday(page) == Err(UnpackMismatch(|TableRows(Sidecar(TodayContainer(page).value)).value|))
  {
  }

  /** A hi/lo text in which the pattern occurs nowhere fails the strategy: `None.groups()`. */
  lemma NoHiLoMatchFails(page: Node)
    requires Conditions(page).Ok? && |Conditions(page).value| >= 1
    requires var info := Conditions(page).value[0]; HiLoKey in info && !exists m :: IsHiLoMatch(info[HiLoKey], m)
    ensures ReadToday(page) == Err(NoAttribute("groups"))
  {
    HiLoLeftmost(Conditions(page).value[0][HiLoKey]);
  }

  /** The command line as the strategies read it: the forecast kind, the area code and an optional unit. */
  datatype Args = Args(forecastOption: ForecastType, areaCode: string, unit: Option<Unit>)

  /** The three strategies of lines 46, 80 and 83. */
  datatype Handler = TodayHandler | FiveAndTenDaysHandler | WeekendHandler

  /** `self._forecast`. */
  const ForecastTable: map<ForecastType, Handler> :=
    map[Today := TodayHandler, FiveDays := FiveAndTenDaysHandler, TenDays := FiveAndTenDaysHandler, Weekend := WeekendHandler]

  /** Every kind has a strategy; five and ten days share one, and only today's is the today strategy. */
  lemma ForecastTableCovers()
    ensures forall t: ForecastType :: t in ForecastTable
    ensures ForecastTable[FiveDays] == ForecastTable[TenDays]
    ensures forall t: ForecastType :: ForecastTable[t] == TodayHandler <==> t == Today
  {
    forall t: ForecastType ensures t in ForecastTable {
      match t
      case Today =>
      case FiveDays =>
      case TenDays =>
      case Weekend =>
    }
  }

  /** The fetched page, or the 404 failure of `Request.fetch_data`, followed by the reading of it. */
  function Outcome(page: Option<Node>): (r: Result<TodayReading, Error>)
    ensures page.None? <==> r == Err(AreaNotFound)
  {
    match page
    case None => Err(AreaNotFound)
    case Some(p) => ReadToday(p)
  }

  /**
   * The scraper. `fetch` stands for the browser: the page at a URL, or None where its title is
   * '404 Not Found'. `convert` stands for `UnitConverter.convert` under a destination unit.
   */
  class WeatherComParser {
    const fetch: string -> Option<Node>
    const convert: (Option<Unit>, string) -> string
    /** `self._forecast_type`: None until `run` first sets it. */
    var forecastType: Option<ForecastType>
    /** `self._unit_converter.dest_unit`. */
    var destUnit: Option<Unit>

    constructor (fetch: string -> Option<Node>, convert: (Option<Unit>, string) -> string, destUnit: Option<Unit>)
      ensures this.fetch == fetch && this.convert == convert
      ensures forecastType == None && this.destUnit == destUnit
    {
      this.fetch := fetch;
      this.convert := convert;
      forecastType := None;
      this.destUnit := destUnit;
    }

    /** `f` is the forecast lines 70-76 build from `reading` under `unit`, dated `today`. */
    ghost predicate Describes(f: Forecast, reading: TodayReading, unit: Option<Unit>, today: Date)
      requires today.Valid()
      reads f
    {
      && f.currentTemp == convert(unit, reading.currentTemp)
      && f.wind == reading.wind && f.humidity == reading.humidity
      && f.highTemp == Some(convert(unit, reading.high)) && f.lowTemp == Some(convert(unit, reading.low))
      && reading.phrase.Some? && f.description == reading.phrase.value
      && f.dewPoint == None && f.pressure == None && f.visibility == None
      && f.forecastType == Today && f.forecastDate == Strftime(today)
    }

    /**
     * What the today strategy leaves behind for `args`: on any failure before line 68 the converter is
     * untouched; after it, the converter holds the requested unit, and either the phrase is missing or
     * the result is exactly one forecast built from the reading.
     */
    ghost predicate TodayDone(args: Args, today: Date, oldUnit: Option<Unit>, r: Result<seq<Forecast>, Error>)
      requires today.Valid()
      reads this, if r.Ok? && |r.value| == 1 then {r.value[0]} else {}
    {
      match Outcome(fetch(Url(args.forecastOption.Value(), args.areaCode)))
      case Err(e) => r == Err(e) && destUnit == oldUnit
      case Ok(reading) =>
        && destUnit == args.unit
        && if reading.phrase.None? then r == Err(MissingKey(PhraseKey))
           else r.Ok? && |r.value| == 1 && Describes(r.value[0], reading, args.unit, today)
    }

    /** `_today_forecast`; `today` stands for `date.today()`. */
    method TodayForecast(args: Args, today: Date) returns (r: Result<seq<Forecast>, Error>)
      requires today.Valid()
      modifies this
      ensures forecastType == old(forecastType)
      ensures TodayDone(args, today, old(destUnit), r)
      ensures r.Ok? ==> forall f :: f in r.value ==> fresh(f)
    {
      var page := fetch(Url(args.forecastOption.Value(), args.areaCode));
      if page.None? {
        return Err(AreaNotFound);
      }
      var reading := ReadToday(page.value);
      if reading.Err? {
        return Err(reading.error);
      }
      var rd := reading.value;
      destUnit := args.unit;
      if rd.phrase.None? {
        return Err(MissingKey(PhraseKey));
      }
      var f := new Forecast(today, convert(destUnit, rd.currentTemp), rd.wind, rd.humidity,
                            highTemp := Some(convert(destUnit, rd.high)), lowTemp := Some(convert(destUnit, rd.low)),
                            description := rd.phrase.value);
      r := Ok([f]);
    }

    /** `_five_and_ten_days_forecast`: not implemented. */
    method FiveAndTenDaysForecast(args: Args) returns (r: Result<seq<Forecast>, Error>)
      ensures r == Err(NotImplemented)
    {
      r := Err(NotImplemented);
    }

    /** `_weekend_forecast`: not implemented. */
    method WeekendForecast(args: Args) returns (r: Result<seq<Forecast>, Error>)
      ensures r == Err(NotImplemented)
    {
      r := Err(NotImplemented);
    }

    /** `run`: remembers the requested kind, then hands the arguments to that kind's strategy. */
    method Run(args: Args, today: Date) returns (r: Result<seq<Forecast>, Error>)
      requires today.Valid()
      modifies this
      ensures forecastType == Some(args.forecastOption)
      ensures args.forecastOption == Today ==> TodayDone(args, today, old(destUnit), r)
      ensures args.forecastOption != Today ==> r == Err(NotImplemented) && destUnit == old(destUnit)
      ensures r.Ok? ==> forall f :: f in r.value ==> fresh(f)
    {
      forecastType := Some(args.forecastOption);
      ForecastTableCovers();
      match ForecastTable[args.forecastOption]
      case TodayHandler =>
        r := TodayForecast(args, today);
      case FiveAndTenDaysHandler =>
        r := FiveAndTenDaysForecast(args);
      case WeekendHandler =>
        r := WeekendForecast(args);
    }
  }
}
