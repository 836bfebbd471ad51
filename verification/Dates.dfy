/** Dates of the TPC-H data generator: a date is the year (since 1900) times 1000 plus the day of the year. */
module Dates {

  const STARTDATE := 92001

  function Leap(y: int): int {
    if y % 4 == 0 && y % 100 != 0 then 1 else 0
  }

  function DaysIn(y: int): int {
    365 + Leap(y)
  }

  /** The date n days after the first day of year y. */
  function DateOf(y: int, n: nat): int
    decreases n
  {
    if n < DaysIn(y) then y * 1000 + 1 + n else DateOf(y + 1, n - DaysIn(y))
  }

  /** The days from the first day of year y to the first day of year z. */
  function DaysTo(y: int, z: int): int
    decreases z - y
  {
    if z <= y then 0 else DaysIn(y) + DaysTo(y + 1, z)
  }

  /** A date with a day of the year that exists. */
  predicate IsDate(d: int) {
    1 <= d % 1000 <= DaysIn(d / 1000)
  }

  /** julian: the date of a day number counted on from STARTDATE; a smaller number is returned as it is. */
  method Julian(date: int) returns (r: int)
    ensures STARTDATE <= date ==> r == DateOf(92, date - STARTDATE)
    ensures date < STARTDATE ==> r == date
  {
    var offset, result := date - STARTDATE, STARTDATE;
    while true
      invariant result % 1000 == 1
      invariant offset < 0 ==> result == STARTDATE && offset == date - STARTDATE && date < STARTDATE
      invariant offset >= 0 ==> STARTDATE <= date && DateOf(result / 1000, offset) == DateOf(92, date - STARTDATE)
      decreases offset
    {
      var yr := result / 1000;
      var yend := yr * 1000 + 365 + Leap(yr);
      if result + offset > yend {
        offset := offset - (yend - result + 1);
        result := result + 1000;
      } else {
        break;
      }
    }
    r := result + offset;
  }

  /** unjulian: the number of days since STARTDATE. */
  method Unjulian(date: int) returns (res: int)
    requires 0 <= date
    ensures res == DaysTo(92, date / 1000) + date % 1000 - 1
  {
    res := 0;
    var i := STARTDATE / 1000;
    while i < date / 1000
      invariant 92 <= i && (i <= date / 1000 || i == 92)
      invariant res + DaysTo(i, date / 1000) == DaysTo(92, date / 1000)
    {
      res := res + 365 + Leap(i);
      i := i + 1;
    }
    res := res + date % 1000 - 1;
  }

  /** julian gives a date that exists, and unjulian undoes it. */
  lemma {:induction false} UnjulianJulian(y: int, n: nat)
    requires 0 <= y
    ensures y <= DateOf(y, n) / 1000 && IsDate(DateOf(y, n))
    ensures DaysTo(y, DateOf(y, n) / 1000) + DateOf(y, n) % 1000 - 1 == n
    decreases n
  {
    if n >= DaysIn(y) {
      UnjulianJulian(y + 1, n - DaysIn(y));
    } else {
      assert (y * 1000 + 1 + n) / 1000 == y && (y * 1000 + 1 + n) % 1000 == 1 + n;
    }
  }

  /** julian undoes unjulian on every date that exists. */
  lemma {:induction false} JulianUnjulian(y: int, d: int)
    requires 0 <= y <= d / 1000 && IsDate(d)
    ensures 0 <= DaysTo(y, d / 1000) + d % 1000 - 1
    ensures DateOf(y, DaysTo(y, d / 1000) + d % 1000 - 1) == d
    decreases d / 1000 - y
  {
    if y < d / 1000 {
      JulianUnjulian(y + 1, d);
    } else {
      assert d == d / 1000 * 1000 + d % 1000;
    }
  }

  /** Comparing dates is comparing days, which is how returned and shipped lineitems are told from open ones. */
  lemma {:induction false} DatesInOrder(y: int, n: nat, k: nat)
    requires 0 <= y && n < k
    ensures DateOf(y, n) < DateOf(y, k)
    decreases n
  {
    if n >= DaysIn(y) {
      DatesInOrder(y + 1, n - DaysIn(y), k - DaysIn(y));
    } else if k >= DaysIn(y) {
      UnjulianJulian(y + 1, k - DaysIn(y));
      var d := DateOf(y + 1, k - DaysIn(y));
      assert d == d / 1000 * 1000 + d % 1000;
    }
  }

  // ----- months -----------------------------------------------------------------------------------------------

  /** months[m].dcnt: the days of an ordinary year up to the end of month m. */
  const DCNT: seq<int> := [0, 31, 59, 90, 120, 151, 181, 212, 243, 273, 304, 334, 365]

  function LeapAdj(y: int, m: int): int {
    if Leap(y) == 1 && m >= 2 then 1 else 0
  }

  /** The days of year y up to the end of month m. */
  function Upto(y: int, m: int): int
    requires 0 <= m <= 12
  {
    DCNT[m] + LeapAdj(y, m)
  }

  /** The calendar, independently of the table. */
  function DaysInMonth(y: int, m: int): int {
    if m == 2 then 28 + Leap(y) else if m == 4 || m == 6 || m == 9 || m == 11 then 30 else 31
  }

  /** The days of year y before month m. */
  function DaysBefore(y: int, m: int): int
    decreases m
  {
    if m <= 1 then 0 else DaysBefore(y, m - 1) + DaysInMonth(y, m - 1)
  }

  /** The table of months agrees with the calendar. */
  lemma {:induction false} UptoIs(y: int, m: int)
    requires 0 <= m <= 12
    ensures Upto(y, m) == DaysBefore(y, m + 1)
    decreases m
  {
    if m > 0 {
      UptoIs(y, m - 1);
    }
  }

  /** mk_time: year, month and day of the index-th day of the data set. */
  method MkTime(index: int) returns (y: int, m: int, day: int)
    requires 1 <= index
    ensures 92 <= y && 1 <= m <= 12 && 1 <= day <= DaysInMonth(y, m)
    ensures DateOf(92, index - 1) == y * 1000 + DaysBefore(y, m) + day
  {
    hide DateOf, DaysBefore;
    var j := Julian(index + STARTDATE - 1);
    UnjulianJulian(92, index - 1);
    y := j / 1000;
    var d := j % 1000;
    m := 0;
    while d > DCNT[m] + LeapAdj(y, m)
      invariant 0 <= m <= 12 && (m > 0 ==> d > Upto(y, m - 1)) && 1 <= d <= Upto(y, 12)
      decreases 12 - m
    {
      m := m + 1;
    }
    UptoIs(y, m);
    UptoIs(y, m - 1);
    day := d - DCNT[m - 1] - LeapAdj(y, m - 1);
  }

  /** The leap years of the Gregorian calendar. */
  predicate GregorianLeap(year: int) {
    year % 4 == 0 && (year % 100 != 0 || year % 400 == 0)
  }

  /** The rule agrees with the calendar on year 1900 + y exactly if that is no multiple of 400 years; so it does on all
      years from 1901 to 1999, among them those of the generator, 1992 to 1998. */
  lemma LeapIsGregorian(y: int)
    ensures (Leap(y) == 1 <==> GregorianLeap(1900 + y)) <==> (1900 + y) % 400 != 0
    ensures Leap(y) == 0 || Leap(y) == 1
  {
    Residues(y);
    if (1900 + y) % 400 == 0 {
      Centuries(1900 + y);
    }
  }

  lemma Residues(y: int)
    ensures (1900 + y) % 4 == y % 4 && (1900 + y) % 100 == y % 100
  {
  }

  lemma Centuries(year: int)
    requires year % 400 == 0
    ensures year % 100 == 0 && year % 4 == 0
  {
    FourCenturies(year / 400);
  }

  lemma FourCenturies(q: int)
    ensures (400 * q) % 100 == 0 && (400 * q) % 4 == 0
  {
  }

  /** The first days: index 60 is 29 February 1992, and 1 January 1993 comes after 366 days. */
  lemma LeapDay()
    ensures DateOf(92, 59) == 92060 == 92 * 1000 + DaysBefore(92, 2) + 29 && DaysInMonth(92, 2) == 29
    ensures DateOf(92, 365) == 92366 && DateOf(92, 366) == 93001
    ensures DaysTo(92, 96) == 366 + 365 + 365 + 365 && DaysIn(96) == 366
  {
    assert DaysTo(95, 96) == 365 + DaysTo(96, 96);
    assert DaysTo(94, 96) == 365 + DaysTo(95, 96);
    assert DaysTo(93, 96) == 365 + DaysTo(94, 96);
    assert DaysTo(92, 96) == 366 + DaysTo(93, 96);
  }
}
