/**
 * The calendar date the forecast stamps itself with: `datetime.date` as far as `date.today()` and
 * `strftime("%a %b %d")` use it, in the C locale.
 */
module Dates {
  import opened Wrappers

  /** A proleptic Gregorian date, as `datetime.date` holds it. */
  datatype Date = Date(year: int, month: int, day: int) {

    /** The range `datetime.date` accepts: years 1 to 9999 and a day that exists in its month. */
    predicate Valid()
    {
      1 <= year <= 9999 && 1 <= month <= 12 && 1 <= day <= DaysInMonth(year, month)
    }
  }

  predicate IsLeap(year: int)
  {
    year % 4 == 0 && (year % 100 != 0 || year % 400 == 0)
  }

  function DaysInMonth(year: int, month: int): (n: int)
    requires 1 <= month <= 12
    ensures 28 <= n <= 31
    ensures month == 2 ==> (n == 29 <==> IsLeap(year))
  {
    if month == 2 then (if IsLeap(year) then 29 else 28)
    else if month == 4 || month == 6 || month == 9 || month == 11 then 30
    else 31
  }

  /** Days in the months of `year` before `month`. */
  function DaysBeforeMonth(year: int, month: int): (n: nat)
    requires 1 <= month <= 12
    decreases month
  {
    if month == 1 then 0 else DaysBeforeMonth(year, month - 1) + DaysInMonth(year, month - 1)
  }

  /** `date.toordinal()`: 1 January of year 1 is day 1. */
  function Ordinal(d: Date): (n: int)
    requires d.Valid()
    ensures n >= 1
  {
    DaysBeforeYear(d.year) + DaysBeforeMonth(d.year, d.month) + d.day
  }

  /** Days in the years before `year`, counting from year 1. */
  function DaysBeforeYear(year: int): (n: int)
    requires year >= 1
    ensures n >= 0
  {
    var y := year - 1;
    y * 365 + y / 4 - y / 100 + y / 400
  }

  /** `date.weekday()`: Monday is 0 and Sunday 6. */
  function Weekday(d: Date): (w: int)
    requires d.Valid()
    ensures 0 <= w < 7
  {
    (Ordinal(d) + 6) % 7
  }

  /** `%a` in the C locale. */
  function DayName(w: int): string
    requires 0 <= w < 7
  {
    match w
    case 0 => "Mon" case 1 => "Tue" case 2 => "Wed" case 3 => "Thu" case 4 => "Fri" case 5 => "Sat" case _ => "Sun"
  }

  /** `%b` in the C locale. */
  function MonthName(m: int): string
    requires 1 <= m <= 12
  {
    match m
    case 1 => "Jan" case 2 => "Feb" case 3 => "Mar" case 4 => "Apr" case 5 => "May" case 6 => "Jun"
    case 7 => "Jul" case 8 => "Aug" case 9 => "Sep" case 10 => "Oct" case 11 => "Nov" case _ => "Dec"
  }

  /** `%d`: the day of the month as two decimal digits. */
  function TwoDigits(n: int): (r: string)
    requires 0 <= n < 100
    ensures |r| == 2 && '0' <= r[0] <= '9' && '0' <= r[1] <= '9'
  {
    ['0' + (n / 10) as char, '0' + (n % 10) as char]
  }

  /** `d.strftime("%a %b %d")`, for instance "Thu Oct 15". */
  function Strftime(d: Date): (r: string)
    requires d.Valid()
    ensures |r| == 10 && r[3] == ' ' && r[7] == ' '
  {
    DayName(Weekday(d)) + " " + MonthName(d.month) + " " + TwoDigits(d.day)
  }

  /** The weekday a `%a` name stands for. */
  function DayNumber(name: string): (r: Option<nat>)
    ensures r.Some? ==> r.value < 7 && DayName(r.value) == name
  {
    if name == "Mon" then Some(0) else if name == "Tue" then Some(1) else if name == "Wed" then Some(2)
    else if name == "Thu" then Some(3) else if name == "Fri" then Some(4) else if name == "Sat" then Some(5)
    else if name == "Sun" then Some(6) else None
  }

  /** The month a `%b` name stands for. */
  function MonthNumber(name: string): (r: Option<nat>)
    ensures r.Some? ==> 1 <= r.value <= 12 && MonthName(r.value) == name
  {
    if name == "Jan" then Some(1) else if name == "Feb" then Some(2) else if name == "Mar" then Some(3)
    else if name == "Apr" then Some(4) else if name == "May" then Some(5) else if name == "Jun" then Some(6)
    else if name == "Jul" then Some(7) else if name == "Aug" then Some(8) else if name == "Sep" then Some(9)
    else if name == "Oct" then Some(10) else if name == "Nov" then Some(11) else if name == "Dec" then Some(12)
    else None
  }

  lemma DayNumberOfName(w: int)
    requires 0 <= w < 7
    ensures DayNumber(DayName(w)) == Some(w)
  {
    match w
    case 0 => case 1 => case 2 => case 3 => case 4 => case 5 => case _ =>
  }

  lemma MonthNumberOfName(m: int)
    requires 1 <= m <= 12
    ensures MonthNumber(MonthName(m)) == Some(m)
  {
    match m
    case 1 => case 2 => case 3 => case 4 => case 5 => case 6 =>
    case 7 => case 8 => case 9 => case 10 => case 11 => case _ =>
  }

  /** What a stamp says: the weekday (Monday 0), the month (January 1) and the day. */
  datatype Stamp = Stamp(weekday: nat, month: nat, day: nat)

  /** Reads a stamp in the layout `Strftime` writes; None for any other text. */
  function ReadStamp(s: string): (r: Option<Stamp>)
    ensures r.Some? ==> r.value.weekday < 7 && 1 <= r.value.month <= 12 && r.value.day < 100
  {
    if |s| != 10 || s[3] != ' ' || s[7] != ' ' || !('0' <= s[8] <= '9') || !('0' <= s[9] <= '9') then None
    else
      match (DayNumber(s[..3]), MonthNumber(s[4..7]))
      case (Some(w), Some(m)) => Some(Stamp(w, m, (s[8] - '0') as nat * 10 + (s[9] - '0') as nat))
      case _ => None
  }

  /** The stamp keeps the weekday, the month and the day: reading it back gives them again. */
  lemma ReadStrftime(d: Date)
    requires d.Valid()
    ensures ReadStamp(Strftime(d)) == Some(Stamp(Weekday(d), d.month, d.day))
  {
    var s := Strftime(d);
    var w := Weekday(d);
    DayNumberOfName(w);
    MonthNumberOfName(d.month);
    assert s[..3] == DayName(w);
    assert s[4..7] == MonthName(d.month);
  }

  /** `date.min`, 1 January of year 1, is a Monday, as the ordinal calendar fixes it. */
  lemma FirstDayIsMonday()
    ensures Date(1, 1, 1).Valid() && Weekday(Date(1, 1, 1)) == 0
  {
  }

  /** Within a month, the next day is the next weekday. */
  lemma WeekdayNextDay(d: Date)
    requires d.Valid() && d.day < DaysInMonth(d.year, d.month)
    ensures Date(d.year, d.month, d.day + 1).Valid()
    ensures Weekday(Date(d.year, d.month, d.day + 1)) == (Weekday(d) + 1) % 7
  {
    var next := Date(d.year, d.month, d.day + 1);
    assert Ordinal(next) == Ordinal(d) + 1;
    NextInWeek(Ordinal(d) + 6);
  }

  /** Counting on by one day moves one place round the week. */
  lemma NextInWeek(o: int)
    ensures (o + 1) % 7 == (o % 7 + 1) % 7
  {
  }
}
