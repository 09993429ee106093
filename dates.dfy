/** The two date strings the job derives from "tomorrow" (main.go formats
    them with Go's time.Format): "01-02-06" (MM-DD-YY) to match the sheet's
    date column, and "2006/01/02" (YYYY/MM/DD) for the status request. The
    clock itself is not modelled: the date comes in as components. */
module Dates {
  import opened Text

  /** A calendar date as Go's time.Time reports it. */
  datatype Date = Date(year: nat, month: nat, day: nat)

  /** Layout "01-02-06": two-digit month, two-digit day, last two digits of the
      year. For any real month and day it is eight characters, with "-" at 2 and 5. */
  function FormatMonthDayYear(d: Date): (s: string)
    ensures |s| >= 8
    ensures d.month < 100 && d.day < 100 ==>
              |s| == 8 && s[2] == '-' && s[5] == '-' && AllDigits(s[..2]) && AllDigits(s[3..5]) && AllDigits(s[6..])
  {
    assert Pow10(2) == 100;
    PadDigits(d.month, 2) + "-" + PadDigits(d.day, 2) + "-" + PadDigits(d.year % 100, 2)
  }

  /** Layout "2006/01/02": four-digit year, two-digit month, two-digit day.
      For years below 10000 it is ten characters, with "/" at 4 and 7. */
  function FormatYearMonthDay(d: Date): (s: string)
    ensures |s| >= 10
    ensures d.year < 10000 && d.month < 100 && d.day < 100 ==>
              |s| == 10 && s[4] == '/' && s[7] == '/' && AllDigits(s[..4]) && AllDigits(s[5..7]) && AllDigits(s[8..])
  {
    assert Pow10(2) == 100 && Pow10(4) == 10000;
    PadDigits(d.year, 4) + "/" + PadDigits(d.month, 2) + "/" + PadDigits(d.day, 2)
  }

  /** Reads three numbers separated by `sep`. */
  function ParseTriple(s: string, sep: char): Option<(nat, nat, nat)> {
    match SplitAtFirst(s, sep)
    case None => None
    case Some((first, rest)) =>
      match SplitAtFirst(rest, sep)
      case None => None
      case Some((second, third)) =>
        match (ParseNumber(first), ParseNumber(second), ParseNumber(third))
        case (Some(x), Some(y), Some(z)) => Some((x, y, z))
        case _ => None
  }

  function ParseMonthDayYear(s: string): Option<Date> {
    match ParseTriple(s, '-')
    case None => None
    case Some((month, day, year)) => Some(Date(year, month, day))
  }

  function ParseYearMonthDay(s: string): Option<Date> {
    match ParseTriple(s, '/')
    case None => None
    case Some((year, month, day)) => Some(Date(year, month, day))
  }

  lemma DigitsLackSeparator(s: string, sep: char)
    requires AllDigits(s) && !IsDigit(sep)
    ensures sep !in s
  {
  }

  lemma ParseTripleJoin(x: nat, wx: nat, y: nat, wy: nat, z: nat, wz: nat, sep: char)
    requires !IsDigit(sep)
    ensures ParseTriple(PadDigits(x, wx) + [sep] + PadDigits(y, wy) + [sep] + PadDigits(z, wz), sep)
            == Some((x, y, z))
  {
    var a, b, c := PadDigits(x, wx), PadDigits(y, wy), PadDigits(z, wz);
    DigitsLackSeparator(a, sep);
    DigitsLackSeparator(b, sep);
    assert a + [sep] + b + [sep] + c == a + [sep] + (b + [sep] + c);
    SplitAtFirstJoin(a, sep, b + [sep] + c);
    SplitAtFirstJoin(b, sep, c);
    PadDigitsRoundTrip(x, wx);
    PadDigitsRoundTrip(y, wy);
    PadDigitsRoundTrip(z, wz);
  }

  /** The sheet's date string gives back the month, the day and the year modulo 100. */
  lemma MonthDayYearRoundTrip(d: Date)
    ensures ParseMonthDayYear(FormatMonthDayYear(d)) == Some(Date(d.year % 100, d.month, d.day))
  {
    ParseTripleJoin(d.month, 2, d.day, 2, d.year % 100, 2, '-');
  }

  /** The request's date string gives back the whole date. */
  lemma YearMonthDayRoundTrip(d: Date)
    ensures ParseYearMonthDay(FormatYearMonthDay(d)) == Some(d)
  {
    ParseTripleJoin(d.year, 4, d.month, 2, d.day, 2, '/');
  }

  /** Two dates give the same "01-02-06" string exactly when they agree on
      month, day and year modulo 100. */
  lemma MonthDayYearSameString(d1: Date, d2: Date)
    ensures FormatMonthDayYear(d1) == FormatMonthDayYear(d2)
            <==> d1.month == d2.month && d1.day == d2.day && d1.year % 100 == d2.year % 100
  {
    MonthDayYearRoundTrip(d1);
    MonthDayYearRoundTrip(d2);
  }

  lemma PadSix()
    ensures PadDigits(6, 2) == "06"
  {
    assert Decimal(6) == "6";
    assert Zeros(1) == "0";
  }

  lemma PadFifteen()
    ensures PadDigits(15, 2) == "15"
  {
    assert Decimal(15) == Decimal(1) + "5" == "15";
  }

  lemma PadTwentyFour()
    ensures PadDigits(24, 2) == "24"
  {
    assert Decimal(24) == Decimal(2) + "4" == "24";
  }

  lemma PadYear2024()
    ensures PadDigits(2024, 4) == "2024"
  {
    assert Decimal(20) == "20";
    assert Decimal(202) == Decimal(20) + "2" == "202";
    assert Decimal(2024) == Decimal(202) + "4" == "2024";
  }

  /** 15 June 2024 is "06-15-24" in the sheet. */
  lemma MonthDayYearExample()
    ensures FormatMonthDayYear(Date(2024, 6, 15)) == "06-15-24"
  {
    PadSix();
    PadFifteen();
    PadTwentyFour();
  }

  /** 15 June 2024 is "2024/06/15" in the request. */
  lemma YearMonthDayExample()
    ensures FormatYearMonthDay(Date(2024, 6, 15)) == "2024/06/15"
  {
    PadSix();
    PadFifteen();
    PadYear2024();
  }
}
