/**
 * The forecast record of weather_terminal/core/forecast.py: the values a strategy scraped, the date
 * they are for, and the text block `print` shows for them.
 */
module Forecasts {
  import opened Wrappers
  import opened ForecastTypes
  import opened Dates

  // ---------------------------------------------------------------- lines of text

  predicate NoNewline(s: string)
  {
    '\n' !in s
  }

  /** `s.split('\n')`: the pieces between newlines; there is always at least one. */
  function SplitLines(s: string): (r: seq<string>)
    ensures |r| >= 1
    ensures forall k :: 0 <= k < |r| ==> NoNewline(r[k])
    decreases |s|
  {
    if s == [] then [""]
    else
      var rest := SplitLines(s[1..]);
      if s[0] == '\n' then [""] + rest else [[s[0]] + rest[0]] + rest[1..]
  }

  /** `'\n'.join(lines)`. */
  function JoinLines(lines: seq<string>): (r: string)
    requires |lines| >= 1
    decreases |lines|
  {
    if |lines| == 1 then lines[0] else lines[0] + "\n" + JoinLines(lines[1..])
  }

  /** Splitting a text at its first newline: the line before it, then the lines of the rest. */
  lemma {:induction false} SplitAfterLine(a: string, b: string)
    requires NoNewline(a)
    ensures SplitLines(a + "\n" + b) == [a] + SplitLines(b)
    decreases |a|
  {
    if a == [] {
      assert a + "\n" + b == ['\n'] + b;
      assert (['\n'] + b)[1..] == b;
    } else {
      var s := a + "\n" + b;
      assert s[0] == a[0];
      assert s[1..] == a[1..] + "\n" + b;
      SplitAfterLine(a[1..], b);
      assert [a[0]] + a[1..] == a;
    }
  }

  /** A text without newlines is one line. */
  lemma {:induction false} SplitOneLine(a: string)
    requires NoNewline(a)
    ensures SplitLines(a) == [a]
    decreases |a|
  {
    if a != [] {
      SplitOneLine(a[1..]);
      assert [a[0]] + a[1..] == a;
    }
  }

  /** Joining newline-free lines and splitting the result gives the lines back. */
  lemma {:induction false} SplitJoin(lines: seq<string>)
    requires |lines| >= 1 && forall k :: 0 <= k < |lines| ==> NoNewline(lines[k])
    ensures SplitLines(JoinLines(lines)) == lines
    decreases |lines|
  {
    if |lines| == 1 {
      SplitOneLine(lines[0]);
    } else {
      SplitJoin(lines[1..]);
      SplitAfterLine(lines[0], JoinLines(lines[1..]));
      assert [lines[0]] + lines[1..] == lines;
    }
  }

  /** Splitting a text into lines and joining them again gives the text back. */
  lemma {:induction false} JoinSplit(s: string)
    ensures JoinLines(SplitLines(s)) == s
    decreases |s|
  {
    if s != [] {
      JoinSplit(s[1..]);
      var rest := SplitLines(s[1..]);
      if s[0] == '\n' {
        assert ([""] + rest)[1..] == rest;
        assert s == "" + "\n" + s[1..];
      } else if |rest| == 1 {
        assert s == [s[0]] + s[1..];
      } else {
        var r := [[s[0]] + rest[0]] + rest[1..];
        assert r[1..] == rest[1..];
        assert JoinLines(rest) == rest[0] + "\n" + JoinLines(rest[1..]);
        assert s == [s[0]] + s[1..];
      }
    }
  }

  /** Every line followed by a newline, as `print` would write them one by one. */
  function Terminated(lines: seq<string>): (r: string)
    decreases |lines|
  {
    if lines == [] then "" else lines[0] + "\n" + Terminated(lines[1..])
  }

  lemma {:induction false} TerminatedAppend(a: seq<string>, b: seq<string>)
    ensures Terminated(a + b) == Terminated(a) + Terminated(b)
    decreases |a|
  {
    if a != [] {
      assert (a + b)[1..] == a[1..] + b;
      TerminatedAppend(a[1..], b);
      var head := a[0] + "\n";
      assert Terminated(a + b) == head + (Terminated(a[1..]) + Terminated(b));
      assert head + (Terminated(a[1..]) + Terminated(b)) == (head + Terminated(a[1..])) + Terminated(b);
    } else {
      assert a + b == b;
    }
  }

  lemma TerminatedOne(a: string)
    ensures Terminated([a]) == a + "\n"
  {
    assert [a][1..] == [];
  }

  lemma TerminatedTwo(a: string, b: string)
    ensures Terminated([a, b]) == a + "\n" + b + "\n"
  {
    assert [a, b][1..] == [b];
    TerminatedOne(b);
  }

  lemma TerminatedThree(a: string, b: string, c: string)
    ensures Terminated([a, b, c]) == a + "\n" + b + "\n" + c + "\n"
  {
    assert [a, b, c][1..] == [b, c];
    TerminatedTwo(b, c);
  }

  /** Joining is terminating all lines but the last and then writing the last one. */
  lemma {:induction false} JoinTerminated(lines: seq<string>)
    requires |lines| >= 1
    ensures JoinLines(lines) == Terminated(lines[..|lines| - 1]) + lines[|lines| - 1]
    decreases |lines|
  {
    if |lines| > 1 {
      JoinTerminated(lines[1..]);
      assert lines[..|lines| - 1] == [lines[0]] + lines[1..][..|lines| - 2];
      assert Terminated([lines[0]] + lines[1..][..|lines| - 2]) == lines[0] + "\n" + Terminated(lines[1..][..|lines| - 2]);
    }
  }

  // ---------------------------------------------------------------- the record

  /** The indent `' ' * 4` every body line starts with. */
  const Offset := "    "

  /** `'\xb0'`, the degree sign. */
  const Degree := "\U{B0}"

  /** Line 76, the note on units (written in pieces only to keep the literals short). */
  const NbLine := Offset + "NB: Dew Point, Pressure, " + "and Visibility will be " + "displayed as though " + "temperature values were " + "in Fahrenheit"

  /** Line 84. */
  const NotAvailableLine := Offset + "Dew Point: Not available" + " / Pressure: Not available" + " / Visibility: Not available"

  /** How an f-string shows an optional value: `None` when it is absent. */
  function Show(v: Option<string>): (r: string)
    ensures v.Some? ==> r == v.value
    ensures v.None? ==> r == "None"
  {
    match v
    case None => "None"
    case Some(x) => x
  }

  /**
   * One forecast. Every value is fixed at construction except the date, which the `forecast_date`
   * setter may replace; the getters of lines 27-57 are the fields themselves.
   */
  class Forecast {
    const currentTemp: string
    const wind: string
    const humidity: string
    const dewPoint: Option<string>
    const pressure: Option<string>
    const visibility: Option<string>
    const highTemp: Option<string>
    const lowTemp: Option<string>
    const description: string
    const forecastType: ForecastType
    var forecastDate: string

    /**
     * `Forecast(current_temp, wind, humidity, ...)`. Without a date the record is stamped with
     * `today` through the setter; a given date is kept as it is. `today` stands for `date.today()`.
     */
    constructor (today: Date, currentTemp: string, wind: string, humidity: string,
                 dewPoint: Option<string> := None, pressure: Option<string> := None,
                 visibility: Option<string> := None, highTemp: Option<string> := None,
                 lowTemp: Option<string> := None, description: string := "",
                 forecastDate: Option<string> := None, forecastType: ForecastType := Today)
      requires today.Valid()
      ensures this.currentTemp == currentTemp && this.wind == wind && this.humidity == humidity
      ensures this.dewPoint == dewPoint && this.pressure == pressure && this.visibility == visibility
      ensures this.highTemp == highTemp && this.lowTemp == lowTemp
      ensures this.description == description && this.forecastType == forecastType
      ensures forecastDate.None? ==> this.forecastDate == Strftime(today)
      ensures forecastDate.Some? ==> this.forecastDate == forecastDate.value
    {
      this.currentTemp := currentTemp;
      this.wind := wind;
      this.humidity := humidity;
      this.dewPoint := dewPoint;
      this.pressure := pressure;
      this.visibility := visibility;
      this.highTemp := highTemp;
      this.lowTemp := lowTemp;
      this.description := description;
      this.forecastType := forecastType;
      this.forecastDate := "";
      new;
      if forecastDate.None? {
        SetForecastDate(today);
      } else {
        this.forecastDate := forecastDate.value;
      }
    }

    /** The `forecast_date` setter: the date is stored as its `"%a %b %d"` stamp. */
    method SetForecastDate(d: Date)
      requires d.Valid()
      modifies this
      ensures forecastDate == Strftime(d)
      ensures ReadStamp(forecastDate) == Some(Stamp(Weekday(d), d.month, d.day))
    {
      forecastDate := Strftime(d);
      ReadStrftime(d);
    }

    /** Line 88: the heading with the date. */
    function Heading(): string
      reads this
    {
      "\n>> " + forecastDate + "\n"
    }

    /** Line 70: the current temperature, shown for today only. */
    function CurrentLine(): string
    {
      Offset + "Current temperature: " + currentTemp + Degree
    }

    /** Lines 71-72 and 80-81: high and low, left open with a blank instead of a newline. */
    function HighLow(): string
    {
      Offset + "High " + Show(highTemp) + Degree + " / " + "Low " + Show(lowTemp) + Degree + " "
    }

    /** The temperature part: for today the current-temperature line comes first. */
    function Temperature(): string
    {
      if forecastType == Today then CurrentLine() + "\n" + HighLow() else HighLow()
    }

    /** Line 90: the description in parentheses. */
    function Description(): string
    {
      "(" + description + ")\n"
    }

    function WindLine(): string
    {
      Offset + "Wind: " + wind + " / Humidity: " + humidity
    }

    /** Line 91: wind and humidity. */
    function WindHumidity(): string
    {
      WindLine() + "\n"
    }

    /** Line 75: today's dew point, pressure and visibility. */
    function ValuesLine(): string
    {
      Offset + "Dew Point: " + Show(dewPoint) + " / Pressure: " + Show(pressure) + " / Visibility: " + Show(visibility)
    }

    /** The closing part: today's measured values and the note on their unit, or "Not available" three times. */
    function DewPressureVisibility(): string
    {
      if forecastType == Today then ValuesLine() + "\n\n" + NbLine + "\n" else NotAvailableLine + "\n"
    }

    /** `__str__`: the heading, the temperatures, the description, wind and humidity, then the rest. */
    function ToString(): (r: string)
      reads this
      ensures |r| > 0 && r[|r| - 1] == '\n'
      ensures Heading() <= r
    {
      Heading() + Temperature() + Description() + WindHumidity() + DewPressureVisibility()
    }

    /** No value of the record holds a line break. */
    predicate SingleLineFields()
      reads this
    {
      && NoNewline(currentTemp) && NoNewline(wind) && NoNewline(humidity) && NoNewline(Show(dewPoint))
      && NoNewline(Show(pressure)) && NoNewline(Show(visibility)) && NoNewline(Show(highTemp))
      && NoNewline(Show(lowTemp)) && NoNewline(description) && NoNewline(forecastDate)
    }

    /**
     * The block as the terminal shows it, line by line. The description closes the high/low line,
     * because that part of the temperature text ends in a blank rather than a newline.
     */
    function Lines(): (r: seq<string>)
      reads this
    {
      var heading := ">> " + forecastDate;
      var highLow := HighLow() + "(" + description + ")";
      if forecastType == Today then
        ["", heading, CurrentLine(), highLow, WindLine(), ValuesLine(), "", NbLine, ""]
      else
        ["", heading, highLow, WindLine(), NotAvailableLine, ""]
    }
  }

  lemma Assoc(a: string, b: string, c: string)
    ensures a + b + c == a + (b + c)
  {
  }

  /** Line 88 holds an empty line and the heading line. */
  lemma HeadingSplits(date: string)
    ensures "\n>> " + date + "\n" == "" + "\n" + (">> " + date) + "\n"
  {
    assert "\n>> " == "" + "\n" + ">> ";
  }

  /** The description closes the open high/low line. */
  lemma DescriptionCloses(highLow: string, description: string)
    ensures highLow + ("(" + description + ")\n") == highLow + "(" + description + ")" + "\n"
  {
    assert ")\n" == ")" + "\n";
  }

  /** Line 75's double newline leaves an empty line before the note. */
  lemma BlankBeforeNote(values: string, note: string)
    ensures values + "\n\n" + note + "\n" == values + "\n" + "" + "\n" + note + "\n"
  {
    assert "\n\n" == "\n" + "" + "\n";
  }

  /** The rendered text is the lines of `Lines()` joined by newlines, whatever the values hold. */
  lemma ToStringJoinsLines(f: Forecast)
    ensures f.ToString() == JoinLines(f.Lines())
  {
    var ls := f.Lines();
    var n := |ls|;
    var h, t, d, w, p := f.Heading(), f.Temperature(), f.Description(), f.WindHumidity(), f.DewPressureVisibility();
    JoinTerminated(ls);
    assert ls[n - 1] == "";
    assert JoinLines(ls) == Terminated(ls[..n - 1]);
    Assoc(h, t, d);
    var head := ["", ls[1]];
    TerminatedTwo("", ls[1]);
    HeadingSplits(f.forecastDate);
    DescriptionCloses(f.HighLow(), f.description);
    if f.forecastType == Today {
      var temp, wind, rest := [ls[2], ls[3]], [ls[4]], [ls[5], ls[6], ls[7]];
      TerminatedTwo(ls[2], ls[3]);
      Assoc(ls[2] + "\n", f.HighLow(), d);
      Assoc(ls[2] + "\n", ls[3], "\n");
      TerminatedOne(ls[4]);
      TerminatedThree(ls[5], ls[6], ls[7]);
      BlankBeforeNote(ls[5], NbLine);
      assert ls[..n - 1] == head + temp + wind + rest;
      TerminatedAppend(head, temp);
      TerminatedAppend(head + temp, wind);
      TerminatedAppend(head + temp + wind, rest);
    } else {
      var temp, wind, rest := [ls[2]], [ls[3]], [ls[4]];
      TerminatedOne(ls[2]);
      TerminatedOne(ls[3]);
      TerminatedOne(ls[4]);
      assert ls[..n - 1] == head + temp + wind + rest;
      TerminatedAppend(head, temp);
      TerminatedAppend(head + temp, wind);
      TerminatedAppend(head + temp + wind, rest);
    }
  }

  lemma NbLineSingle()
    ensures NoNewline(NbLine)
  {
  }

  lemma NotAvailableLineSingle()
    ensures NoNewline(NotAvailableLine)
  {
  }

  /** The fixed text of lines 66-93 holds no line break of its own besides the ones `Lines()` splits at. */
  lemma FixedTextSingle()
    ensures NoNewline(Offset) && NoNewline(Degree) && NoNewline(NbLine) && NoNewline(NotAvailableLine)
  {
    NbLineSingle();
    NotAvailableLineSingle();
  }

  /** A value without line breaks stays on its line. */
  lemma LinesAreSingle(f: Forecast)
    requires f.SingleLineFields()
    ensures forall k :: 0 <= k < |f.Lines()| ==> NoNewline(f.Lines()[k])
  {
    FixedTextSingle();
    assert NoNewline(f.CurrentLine());
    assert NoNewline(f.HighLow());
    assert NoNewline(f.HighLow() + "(" + f.description + ")");
    assert NoNewline(f.WindLine());
    assert NoNewline(f.ValuesLine());
    assert NoNewline(">> " + f.forecastDate);
  }

  /**
   * When no value holds a line break, the lines of the rendered text are exactly `Lines()`: for today
   * the current-temperature line, the values of dew point, pressure and visibility and the note; for
   * the other kinds "Not available" in their place.
   */
  lemma ToStringLines(f: Forecast)
    requires f.SingleLineFields()
    ensures SplitLines(f.ToString()) == f.Lines()
    ensures |f.Lines()| == (if f.forecastType == Today then 9 else 6)
  {
    ToStringJoinsLines(f);
    LinesAreSingle(f);
    SplitJoin(f.Lines());
  }
}
