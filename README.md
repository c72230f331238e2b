# weather_terminal: the weather.com scraper, modelled in Dafny

weather_terminal prints a weather forecast for an area code in the terminal. Its weather.com parser
works in five steps:

1. It fetches the page for a forecast kind and an area.
2. It finds the "today_nowcard" section and reads one field set (CSS class to text) from each child of that section.
3. From the first field set it reads the current temperature, the phrase and the combined "H … L …" string.
4. From the sidecar table it reads humidity and wind.
5. It converts the temperatures to the requested unit and returns a single `Forecast` record.

A `Forecast` stamps itself with today's date when no date is given, and renders as a fixed block of
text. The other forecast kinds are dispatched to strategies that raise "not implemented".

The model has these modules:

- `Soup` (soup.dfy) is the document tree BeautifulSoup builds. It keeps elements with their class sets, text leaves, `find` (the first matching descendant in document order) and `get_text`.
- `Extraction` (extraction.dfy) holds `_get_data`, `_parse` and `_get_additional_info`. `GetData` keeps the source's loop, which fills the dict one criterion at a time. It is proved equal to the function `FieldSetOf`.
- `Patterns` (patterns.dfy) holds the two regular expressions:
  - `[0-9]+`, anchored, for `_clear_str_number`, written out as a scanner;
  - what a match of the hi/lo pattern `H\s+(\d+|\-{,2}).+L\s+(\d+|\-{,2})` is, as a declarative description (`IsHiLoMatch`);
  - which of the matches `search` reports (`IsReportedMatch`): the leftmost one, read with greedy quantifiers and with the digit alternative tried before the dash alternative.
- `HiLoScanner` (hilo.dfy) is the scanner for the hi/lo pattern under `search`. It follows the engine's leftmost-first, greedy-then-backtrack order. It is proved sound and complete against `IsHiLoMatch`, and to report exactly the match `IsReportedMatch` describes.
- `Dates` (dates.dfy) is the part of `datetime.date` that `strftime("%a %b %d")` uses: the proleptic Gregorian ordinal, the weekday, and the C-locale names.
- `Forecasts` (forecast.dfy) holds the `Forecast` class. The constructor and the `forecast_date` setter are methods. `__str__` is the function `ToString`, which is characterised line by line.
- `WeatherCom` (parser.dfy) holds:
  - the today strategy: a pure reading of the page followed by the method that builds the forecast and sets the converter's unit;
  - the dispatch table and `run`.
- `ForecastTypes`, `Units`, `Errors` and `Wrappers` hold the enums, the exceptions the code raises, and `Option`/`Result`.

Inputs from outside the model are parameters:

- The browser fetch is a function from URL to document; no document means the page title was "404 Not Found".
- The unit converter is a function from destination unit and text to text.
- `date.today()` is a `Date` argument.

The model follows the code in these details, which are easy to misread:

- `get_text()` is taken verbatim, not whitespace-normalised.
- The H and L markers are case-sensitive.
- The sidecar supplies exactly two values, humidity first and then wind. The code does not read five values, and it does not put wind first.
- A failed hi/lo match is `AttributeError` on `None.groups()`. It is not a dedicated parse error.
- `args.unit` may be absent: `--unit` has no default.
- A text child of the container makes `_get_data` fail, because `find` with `class_=` on a string raises.
- The five-day, ten-day and weekend strategies raise `NotImplementedError`.

## Model

| member | source | states |
|---|---|---|
| Soup.Find | weather_terminal/parsers/weather_com_parser.py:28 | `find` gives None exactly when no descendant has the tag and class; otherwise it gives the first such descendant in document order |
| Extraction.FieldText | weather_terminal/parsers/weather_com_parser.py:28-29 | a criterion yields text exactly when a matching descendant exists (even empty text), and the text is that of the first match |
| Extraction.FieldSetOf | weather_terminal/parsers/weather_com_parser.py:25-32 | `_get_data` fails only on a text node with non-empty criteria; its keys are a subset of the criteria keys; a key is present exactly when a matching descendant exists |
| Extraction.FieldSetFirstMatch | weather_terminal/parsers/weather_com_parser.py:28-31 | each present key maps to the text of the first descendant, in document order, with that tag and class |
| Extraction.GetData | weather_terminal/parsers/weather_com_parser.py:25-32 | the loop that fills the dict one criterion at a time returns exactly `FieldSetOf`, including the failure on a text node |
| Extraction.FieldSets | weather_terminal/parsers/weather_com_parser.py:35 | the comprehension gives one field set per child, and its only failure is the text-node error |
| Extraction.FieldSetsPerChild | weather_terminal/parsers/weather_com_parser.py:35 | the field set at each position is that child's `_get_data` result, so the children's order is kept |
| Extraction.FieldSetsFail | weather_terminal/parsers/weather_com_parser.py:35 | the comprehension fails exactly when `_get_data` fails on some child |
| Extraction.NonEmpty | weather_terminal/parsers/weather_com_parser.py:36 | the filter keeps only non-empty field sets and never lengthens the list |
| Extraction.NonEmptySelects | weather_terminal/parsers/weather_com_parser.py:36 | the filter's result lists the input at strictly increasing positions, and those positions are exactly those of the non-empty field sets |
| Extraction.Parse | weather_terminal/parsers/weather_com_parser.py:34-36 | a missing container fails on `.children`; a result exists only for an element; every returned field set is non-empty; the only failures are the missing container and a text child |
| Extraction.NonEmptyIffAnyMatch | weather_terminal/parsers/weather_com_parser.py:36 | a child's field set is kept exactly when at least one criterion matches under it |
| Extraction.ParseSelectsMatchingChildren | weather_terminal/parsers/weather_com_parser.py:34-36 | `_parse` returns, in document order, the field set of every child with a matching criterion and of no other child, so its length is the number of such children |
| Extraction.TableRows | weather_terminal/parsers/weather_com_parser.py:43 | `content.table.tbody.children`; a missing or text sidecar fails on `.table`, and every failure names the attribute read on None |
| Extraction.RowTexts | weather_terminal/parsers/weather_com_parser.py:43 | the tuple holds every row's `td.span` text, in row order; on failure, the error is that of the first row that fails |
| Extraction.AdditionalInfo | weather_terminal/parsers/weather_com_parser.py:42-44 | at most the first two row texts, in order; every row is read first, so any broken row fails the call |
| Patterns.ClearStrNumber | weather_terminal/parsers/weather_com_parser.py:38-40 | `'--'` exactly when the text does not start with a digit; otherwise the maximal leading digit run, a non-empty prefix of digits only |
| Patterns.ClearStrNumberIdempotent | weather_terminal/parsers/weather_com_parser.py:38-40 | cleaning a cleaned number changes nothing |
| HiLoScanner.SearchFromSound | weather_terminal/parsers/weather_com_parser.py:61-63 | every match the scanner reports is a genuine occurrence of the hi/lo pattern |
| HiLoScanner.GroupFromSound | weather_terminal/parsers/weather_com_parser.py:61-63 | whatever group 1 yields at a position (digits tried before dashes, each backtracking) is a `(\d+|\-{,2})` token at that position followed by a genuine `.+L\s+(\d+|\-{,2})` tail |
| HiLoScanner.GroupThenTailComplete | weather_terminal/parsers/weather_com_parser.py:61-63 | wherever group 1 and the rest of a match lie, the engine's group-1 attempt at that position succeeds |
| HiLoScanner.MatchAtComplete | weather_terminal/parsers/weather_com_parser.py:61-63 | wherever an occurrence of the pattern starts, the engine's attempt at that position succeeds |
| HiLoScanner.SearchFromReaches | weather_terminal/parsers/weather_com_parser.py:63 | a search from a position stops at or before any later position where an attempt succeeds |
| HiLoScanner.HiLoLeftmost | weather_terminal/parsers/weather_com_parser.py:61-64 | `search` finds nothing exactly when the pattern occurs nowhere; otherwise the groups are those of a genuine match, and no match starts further left |
| Patterns.ReportedMatchUnique | weather_terminal/parsers/weather_com_parser.py:61-63 | at most one match is leftmost, takes the most blanks after `H`, has the preferred group 1 (no longer digit run, nor longer dash run, followed by the rest), has no later `L` on its line, and has the whole group 2 |
| HiLoScanner.GroupFromPreferred | weather_terminal/parsers/weather_com_parser.py:61-62 | group 1 as the scanner reads it is the preferred one: no longer digit run, and no longer run of at most two dashes, is followed by a tail |
| HiLoScanner.AttemptPreferred | weather_terminal/parsers/weather_com_parser.py:61-63 | an attempt that succeeds gives back blanks after `H` only as far as needed, reads the preferred group 1, lets `.+` reach the last `L` of the line, and reads the whole group 2 |
| HiLoScanner.HiLoReported | weather_terminal/parsers/weather_com_parser.py:61-63 | what `search` reports is the reported match: leftmost, and greedy in each part |
| HiLoScanner.HiLoGroups | weather_terminal/parsers/weather_com_parser.py:63-64 | `groups()` is defined exactly when a reported match exists, and it is that match's two groups |
| HiLoScanner.HiLoExample | weather_terminal/parsers/weather_com_parser.py:61-64 | on `"H 75 L 58"` the one reported match has groups `75` and `58`, and `groups()` is `("75", "58")` |
| Dates.Weekday | weather_terminal/core/forecast.py:61 | `date.weekday()` is in 0..6 |
| Dates.WeekdayNextDay | weather_terminal/core/forecast.py:61 | within a month, the next day has the next weekday |
| Dates.Strftime | weather_terminal/core/forecast.py:61 | `"%a %b %d"` gives ten characters, with blanks after the day name and after the month name |
| Dates.ReadStrftime | weather_terminal/core/forecast.py:61 | the stamp loses nothing it shows: reading it back gives the date's weekday, month and day |
| Forecasts.Forecast.constructor | weather_terminal/core/forecast.py:8-25 | every field holds its argument or its default; with no date given, the stored date is today's `"%a %b %d"` stamp; a given date is stored verbatim |
| Forecasts.Forecast.SetForecastDate | weather_terminal/core/forecast.py:59-61 | the setter stores the formatted stamp, which reads back as the date's weekday, month and day |
| Forecasts.Forecast.ToString | weather_terminal/core/forecast.py:63-93 | the text starts with `'\n>> ' + forecast_date + '\n'` and ends with a newline |
| Forecasts.ToStringJoinsLines | weather_terminal/core/forecast.py:63-93 | for any values, the text is `Lines()` joined by newlines: today has the current-temperature line, the dew point/pressure/visibility values, a blank line and the Fahrenheit note; other kinds have only the "Not available" line; every kind has the `(description)` closing the high/low line and the wind/humidity line |
| Forecasts.LinesAreSingle | weather_terminal/core/forecast.py:63-93 | no line of the block breaks when the values hold no line breaks |
| Forecasts.ToStringLines | weather_terminal/core/forecast.py:63-93 | splitting the text at newlines gives back exactly `Lines()`: nine lines for today and six otherwise |
| WeatherCom.ReadRest | weather_terminal/parsers/weather_com_parser.py:65-67 | after the hi/lo groups, given what `_get_additional_info` returned for the sidecar: a reading has hi/lo tokens and a cleaned current temperature, and a failure is never the empty-parse or not-found error |
| WeatherCom.ReadFieldSet | weather_terminal/parsers/weather_com_parser.py:60-67 | reading the first field set gives tokens for high and low, each a non-empty digit run or at most two dashes, and a current temperature that is `'--'` or digits |
| WeatherCom.ReadToday | weather_terminal/parsers/weather_com_parser.py:54-67 | the strategy fails with "could not parse" exactly when `_parse` returns no field set; a reading always has hi/lo tokens and a cleaned temperature |
| WeatherCom.OnlyFirstFieldSetCounts | weather_terminal/parsers/weather_com_parser.py:60 | two pages whose first field sets and sidecar rows agree give the same reading, whatever their other field sets hold |
| WeatherCom.ReadingFromFirstFieldSet | weather_terminal/parsers/weather_com_parser.py:60-67 | the first field set's hi/lo text has a reported match, and the temperatures are its two groups (the same for every reported match); the current temperature is that set's temperature cleaned; the phrase is present exactly when that set has it |
| WeatherCom.SidecarRows | weather_terminal/parsers/weather_com_parser.py:42-44 | a reading's humidity is the first sidecar row's text and its wind the second's |
| WeatherCom.FewRowsFail | weather_terminal/parsers/weather_com_parser.py:66 | a sidecar table with fewer than two rows fails to unpack into humidity and wind |
| WeatherCom.NoHiLoMatchFails | weather_terminal/parsers/weather_com_parser.py:63-64 | a hi/lo text in which the pattern occurs nowhere fails the strategy on `None.groups()` |
| WeatherCom.ForecastTableCovers | weather_terminal/parsers/weather_com_parser.py:18-23 | the table covers all four kinds; five and ten days share a handler; only today's kind reaches the today strategy |
| WeatherCom.Outcome | weather_terminal/core/request.py:13-23 | the fetch fails with "area not found" exactly when the page is the 404 page |
| WeatherCom.WeatherComParser.constructor | weather_terminal/parsers/weather_com_parser.py:12-23 | a new parser has no forecast kind recorded yet, and has the fetch, the converter and its unit it is given |
| WeatherCom.WeatherComParser.TodayForecast | weather_terminal/parsers/weather_com_parser.py:46-78 | on any failure up to line 67 the converter's unit is left as it was. After that point the unit is the requested one, and the result is either the missing-phrase error or a list of exactly one new `Forecast` of kind today, dated today, with converted temperatures, wind, humidity and the phrase |
| WeatherCom.WeatherComParser.FiveAndTenDaysForecast | weather_terminal/parsers/weather_com_parser.py:80-81 | always fails with "not implemented" |
| WeatherCom.WeatherComParser.WeekendForecast | weather_terminal/parsers/weather_com_parser.py:83-84 | always fails with "not implemented" |
| WeatherCom.WeatherComParser.Run | weather_terminal/parsers/weather_com_parser.py:86-89 | records the requested kind on the parser; today behaves as the today strategy, every other kind fails with "not implemented" and leaves the unit alone |

## Left out

- Fetching: the Selenium/PhantomJS browser (weather_terminal/core/request.py) is the `fetch` function of the parser. It receives the URL built from the base URL template and returns no document for the 404 page.
- HTML parsing: BeautifulSoup's parser (weather_terminal/parsers/weather_com_parser.py:53) is not modelled. The document arrives as a `Soup.Node` tree, and the `BeautifulSoup` root is taken to be an element.
- `UnitConverter`: weather_terminal/core/unit_converter.py is not part of this model. `convert` is an uninterpreted function of the destination unit and the text, so no formula, no rounding and no float behaviour is modelled.
- The clock: `date.today()` is a `Date` argument.
- Locale: `strftime` is modelled in the C locale only.
- `\d`: in a Python `str` pattern, `\d` also matches non-ASCII decimal digits. The model reads it as `[0-9]`.
- `_temp_regex` (weather_terminal/parsers/weather_com_parser.py:15) is compiled but never used.
- The getters of weather_terminal/core/forecast.py:27-57 are the public fields of `Forecasts.Forecast`. They are constants, apart from `forecastDate`, so they hold exactly the constructor's values.
- Forecasts.Forecast.constructor: a `forecast_date` argument is a string, so a non-string date object that Python would keep as it is cannot be expressed.
- WeatherCom.WeatherComParser.constructor: the initial destination unit of `UnitConverter(Unit.FAHRENHEIT)` is an argument, because the converter's source is not part of this model.
- Command line: argparse wiring, the plugin loader, set_unit_action.py and base_enum.py hold no logic of the core. The enum tokens and names are kept in `ForecastTypes` and `Units`.
