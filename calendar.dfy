/**
 * The calendar behind minirisk::Date: serial day numbers counted from
 * 1-Jan-1900, valid for the years [1900, 2200), the cumulative tables the
 * conversions use, validation, and the conversion back from a serial with two
 * binary searches.
 *
 * The reference definitions (DaysEpoch, CivilOf) walk the calendar one year
 * and one month at a time; the table-driven code of the source is proved
 * against them.
 */
module Calendar {
  import opened Wrappers
  import opened Text

  const FirstYear: nat := 1900
  const LastYear: nat := 2200
  const NYears: nat := LastYear - FirstYear

  /** The serial of 31-Dec-2199, the largest serial check_valid accepts. */
  const MaxSerial: nat := 109572

  /** Days in each month of a normal year. */
  const DaysInMonth: seq<nat> := [31, 28, 31, 30, 31, 30, 31, 31, 30, 31, 30, 31]

  /** Days from 1-Jan to the first of each month in a normal year. */
  const DaysYtd: seq<nat> := [0, 31, 59, 90, 120, 151, 181, 212, 243, 273, 304, 334]

  datatype DateError =
    | SerialOutOfRange(serial: nat)
    | YearOutOfRange(year: nat)
    | InvalidMonth(month: nat)
    | InvalidDay(day: nat, dmax: nat)

  /** A calendar date; get_dmy returns it as the array [day, month, year]. */
  datatype Ymd = Ymd(year: nat, month: nat, day: nat)

  // ---------------------------------------------------------------------
  // Years
  // ---------------------------------------------------------------------

  predicate IsLeapYear(year: nat)
  {
    if year % 4 != 0 then false
    else if year % 100 != 0 then true
    else year % 400 == 0
  }

  /** The Gregorian rule, and its two century cases inside the range. */
  lemma GregorianRule(year: nat)
    ensures IsLeapYear(year) <==> year % 4 == 0 && (year % 100 != 0 || year % 400 == 0)
    ensures !IsLeapYear(1900) && IsLeapYear(2000)
  {
  }

  function YearLength(year: nat): nat
  {
    if IsLeapYear(year) then 366 else 365
  }

  /** Reference definition: days from 1-Jan-1900 to 1-Jan of year 1900 + i. */
  function DaysEpoch(i: nat): nat
  {
    if i == 0 then 0 else DaysEpoch(i - 1) + YearLength(FirstYear + i - 1)
  }

  /** The static table days_epoch: one entry per year of the valid range. */
  function DaysEpochTable(): seq<nat>
  {
    seq(NYears, i requires 0 <= i < NYears => DaysEpoch(i))
  }

  /** Leap years in [1, y], by the Gregorian rule. */
  function LeapsThrough(y: nat): int
  {
    y / 4 - y / 100 + y / 400
  }

  lemma LeapsStep(y: nat)
    requires y >= 1
    ensures LeapsThrough(y) - LeapsThrough(y - 1) == if IsLeapYear(y) then 1 else 0
  {
    DivisionSteps(y);
  }

  /** y passes one more multiple of k than y - 1 exactly when k divides y. */
  lemma DivisionSteps(y: nat)
    requires y >= 1
    ensures y / 4 - (y - 1) / 4 == if y % 4 == 0 then 1 else 0
    ensures y / 100 - (y - 1) / 100 == if y % 100 == 0 then 1 else 0
    ensures y / 400 - (y - 1) / 400 == if y % 400 == 0 then 1 else 0
  {
  }

  /** days_epoch in closed form: 365 days a year plus one per leap year passed. */
  lemma {:induction false} DaysEpochClosedForm(i: nat)
    ensures DaysEpoch(i) == 365 * i + LeapsThrough(FirstYear + i - 1) - LeapsThrough(FirstYear - 1)
  {
    if i > 0 {
      DaysEpochClosedForm(i - 1);
      LeapsStep(FirstYear + i - 1);
    }
  }

  /** The table ends where the valid serials end: 109572 is the last day of 2199. */
  lemma EpochEnds()
    ensures DaysEpoch(NYears - 1) == 109208
    ensures DaysEpoch(NYears) == MaxSerial + 1
  {
    DaysEpochClosedForm(NYears - 1);
    DaysEpochClosedForm(NYears);
  }

  /** days_epoch is strictly increasing, by at least 365 a year. */
  lemma {:induction false} DaysEpochMonotone(i: nat, j: nat)
    requires i <= j
    ensures DaysEpoch(i) + 365 * (j - i) <= DaysEpoch(j)
    decreases j
  {
    if i < j {
      DaysEpochMonotone(i, j - 1);
    }
  }

  lemma DaysEpochTableSorted()
    ensures forall i, j :: 0 <= i <= j < |DaysEpochTable()| ==> DaysEpochTable()[i] <= DaysEpochTable()[j]
  {
    forall i, j | 0 <= i <= j < |DaysEpochTable()|
      ensures DaysEpochTable()[i] <= DaysEpochTable()[j]
    {
      DaysEpochMonotone(i, j);
    }
  }

  /** A year whose first day is a valid serial lies in the valid range. */
  lemma YearInRange(y: nat)
    requires FirstYear <= y && DaysEpoch(y - FirstYear) <= MaxSerial
    ensures y < LastYear
  {
    if y >= LastYear {
      EpochEnds();
      DaysEpochMonotone(NYears, y - FirstYear);
    }
  }

  // ---------------------------------------------------------------------
  // Months
  // ---------------------------------------------------------------------

  /** Days in month m of the given year (February has 29 in a leap year). */
  function MonthLength(year: nat, m: nat): nat
    requires 1 <= m <= 12
  {
    DaysInMonth[m - 1] + if m == 2 && IsLeapYear(year) then 1 else 0
  }

  /** Days from 1-Jan to the first of month m (the leap day counts from March). */
  function MonthStart(year: nat, m: nat): nat
    requires 1 <= m <= 12
  {
    DaysYtd[m - 1] + if m > 2 && IsLeapYear(year) then 1 else 0
  }

  lemma MonthStartStep(year: nat, m: nat)
    requires 1 <= m < 12
    ensures MonthStart(year, m + 1) == MonthStart(year, m) + MonthLength(year, m)
  {
  }

  lemma MonthEnd(year: nat)
    ensures MonthStart(year, 12) + MonthLength(year, 12) == YearLength(year)
  {
  }

  lemma MonthFitsYear(year: nat, m: nat)
    requires 1 <= m <= 12
    ensures MonthStart(year, m) + MonthLength(year, m) <= YearLength(year)
  {
    if m < 12 { MonthStartMonotone(year, m, 12); }
    MonthEnd(year);
  }

  lemma {:induction false} MonthStartMonotone(year: nat, m: nat, n: nat)
    requires 1 <= m < n <= 12
    ensures MonthStart(year, m) + MonthLength(year, m) <= MonthStart(year, n)
    decreases n
  {
    MonthStartStep(year, n - 1);
    if m < n - 1 {
      MonthStartMonotone(year, m, n - 1);
    }
  }

  // ---------------------------------------------------------------------
  // Validation
  // ---------------------------------------------------------------------

  predicate ValidYmd(y: nat, m: nat, d: nat)
  {
    FirstYear <= y < LastYear && 1 <= m <= 12 && 1 <= d <= MonthLength(y, m)
  }

  predicate Valid(date: Ymd)
  {
    ValidYmd(date.year, date.month, date.day)
  }

  /** check_valid(serial): accepts exactly the serials below the first day of 2200. */
  function CheckValidSerial(serial: nat): (r: Outcome<DateError>)
    ensures r.Pass? <==> serial < DaysEpoch(NYears)
    ensures r.Fail? ==> r.error == SerialOutOfRange(serial)
  {
    EpochEnds();
    if serial <= MaxSerial then Pass else Fail(SerialOutOfRange(serial))
  }

  /** check_valid(y, m, d): the year, then the month, then the day. */
  function CheckValidYmd(y: nat, m: nat, d: nat): (r: Outcome<DateError>)
    ensures r.Pass? <==> ValidYmd(y, m, d)
    ensures r == Fail(YearOutOfRange(y)) <==> !(FirstYear <= y < LastYear)
    ensures r == Fail(InvalidMonth(m)) <==> FirstYear <= y < LastYear && !(1 <= m <= 12)
    ensures r.Fail? && r.error.InvalidDay? <==>
              FirstYear <= y < LastYear && 1 <= m <= 12 && !(1 <= d <= MonthLength(y, m))
  {
    if y < FirstYear then Fail(YearOutOfRange(y))
    else if y >= LastYear then Fail(YearOutOfRange(y))
    else if !(1 <= m <= 12) then Fail(InvalidMonth(m))
    else if !(1 <= d <= MonthLength(y, m)) then Fail(InvalidDay(d, MonthLength(y, m)))
    else Pass
  }

  /** Any month from 13 on, or any day from 32 on, is refused, whatever the year. */
  lemma OutOfRangeMonthOrDayFails(y: nat, m: nat, d: nat)
    requires m >= 13 || d >= 32
    ensures CheckValidYmd(y, m, d).Fail?
  {
    if FirstYear <= y < LastYear && 1 <= m <= 12 {
      assert MonthLength(y, m) <= 31;
    }
  }

  /** 31-Apr is refused with the day error, in every year of the range. */
  lemma ThirtyFirstOfAprilFails(y: nat)
    requires FirstYear <= y < LastYear
    ensures CheckValidYmd(y, 4, 31) == Fail(InvalidDay(31, 30))
  {
  }

  /** 29-Feb is accepted exactly in leap years. */
  lemma TwentyNinthOfFebruary(y: nat)
    requires FirstYear <= y < LastYear
    ensures CheckValidYmd(y, 2, 29).Pass? <==> IsLeapYear(y)
  {
  }

  // ---------------------------------------------------------------------
  // (y, m, d) -> serial
  // ---------------------------------------------------------------------

  /** day_of_year: days elapsed since 1-Jan; the leap day counts only from March. */
  function DayOfYear(y: nat, m: nat, d: nat): (r: nat)
    requires 1 <= m <= 12 && 1 <= d
    ensures d <= MonthLength(y, m) ==> r < YearLength(y)
    ensures m <= 2 ==> r == DaysYtd[m - 1] + d - 1
  {
    MonthFitsYear(y, m);
    DaysYtd[m - 1] + (if m > 2 && IsLeapYear(y) then 1 else 0) + (d - 1)
  }

  /** serial(y, m, d) = days_epoch[y - 1900] + day_of_year(y, m, d). */
  function Serial(y: nat, m: nat, d: nat): (r: nat)
    requires FirstYear <= y < LastYear && 1 <= m <= 12 && 1 <= d
    ensures ValidYmd(y, m, d) ==>
              DaysEpoch(y - FirstYear) <= r < DaysEpoch(y - FirstYear + 1) && r <= MaxSerial
  {
    DaysEpochMonotone(y - FirstYear + 1, NYears);
    EpochEnds();
    DaysEpochTable()[y - FirstYear] + DayOfYear(y, m, d)
  }

  function SerialOf(date: Ymd): nat
    requires Valid(date)
  {
    Serial(date.year, date.month, date.day)
  }

  /** Calendar order: by year, then month, then day. */
  predicate Before(a: Ymd, b: Ymd)
  {
    a.year < b.year
    || (a.year == b.year && a.month < b.month)
    || (a.year == b.year && a.month == b.month && a.day < b.day)
  }

  /** Serials are strictly monotone with the calendar. */
  lemma SerialOrder(a: Ymd, b: Ymd)
    requires Valid(a) && Valid(b)
    ensures SerialOf(a) < SerialOf(b) <==> Before(a, b)
  {
    if Before(a, b) {
      SerialBefore(a, b);
    } else if a != b {
      SerialBefore(b, a);
    }
  }

  lemma SerialBefore(a: Ymd, b: Ymd)
    requires Valid(a) && Valid(b) && Before(a, b)
    ensures SerialOf(a) < SerialOf(b)
  {
    if a.year < b.year {
      DaysEpochMonotone(a.year - FirstYear + 1, b.year - FirstYear);
    } else if a.month < b.month {
      MonthStartMonotone(a.year, a.month, b.month);
    }
  }

  /** Distinct valid dates have distinct serials. */
  lemma SerialInjective(a: Ymd, b: Ymd)
    requires Valid(a) && Valid(b) && SerialOf(a) == SerialOf(b)
    ensures a == b
  {
    SerialOrder(a, b);
    SerialOrder(b, a);
  }

  lemma LastSerialIs31Dec2199()
    ensures ValidYmd(2199, 12, 31) && Serial(2199, 12, 31) == MaxSerial
  {
    EpochEnds();
  }

  /** The calendar day after a date (month and year roll over). */
  function NextDay(date: Ymd): (r: Ymd)
    requires Valid(date)
  {
    if date.day < MonthLength(date.year, date.month) then Ymd(date.year, date.month, date.day + 1)
    else if date.month < 12 then Ymd(date.year, date.month + 1, 1)
    else Ymd(date.year + 1, 1, 1)
  }

  /** Calendar-adjacent dates have serials that differ by exactly one. */
  lemma NextDaySerial(date: Ymd)
    requires Valid(date) && date != Ymd(LastYear - 1, 12, 31)
    ensures Valid(NextDay(date)) && SerialOf(NextDay(date)) == SerialOf(date) + 1
  {
    if date.day < MonthLength(date.year, date.month) {
    } else if date.month < 12 {
      MonthStartStep(date.year, date.month);
    } else {
      MonthEnd(date.year);
    }
  }

  // ---------------------------------------------------------------------
  // serial -> (y, m, d): the reference walk
  // ---------------------------------------------------------------------

  /** The date s days after the first of month m of the year. */
  function MonthWalk(y: nat, m: nat, s: nat): (r: Ymd)
    requires 1 <= m <= 12 && MonthStart(y, m) + s < YearLength(y)
    ensures r.year == y && m <= r.month <= 12 && 1 <= r.day <= MonthLength(y, r.month)
    ensures MonthStart(y, r.month) + r.day - 1 == MonthStart(y, m) + s
    decreases 12 - m
  {
    MonthEnd(y);
    if s < MonthLength(y, m) then Ymd(y, m, s + 1)
    else
      MonthStartStep(y, m);
      MonthWalk(y, m + 1, s - MonthLength(y, m))
  }

  /** The date s days after 1-Jan of year y, walking whole years first. */
  function CivilFrom(y: nat, s: nat): (r: Ymd)
    requires FirstYear <= y && DaysEpoch(y - FirstYear) + s <= MaxSerial
    ensures Valid(r) && SerialOf(r) == DaysEpoch(y - FirstYear) + s
    decreases s
  {
    YearInRange(y);
    if s < YearLength(y) then MonthWalk(y, 1, s)
    else CivilFrom(y + 1, s - YearLength(y))
  }

  /** The calendar date of a valid serial. */
  function CivilOf(serial: nat): (r: Ymd)
    requires serial <= MaxSerial
    ensures Valid(r) && SerialOf(r) == serial
  {
    CivilFrom(FirstYear, serial)
  }

  /** Round trip: every valid (y, m, d) comes back from its serial, 29-Feb included. */
  lemma CivilOfSerial(y: nat, m: nat, d: nat)
    requires ValidYmd(y, m, d)
    ensures CivilOf(Serial(y, m, d)) == Ymd(y, m, d)
  {
    SerialInjective(CivilOf(Serial(y, m, d)), Ymd(y, m, d));
  }

  /** check_valid(serial) accepts exactly the serials of valid dates. */
  lemma ValidSerialsAreDates(serial: nat)
    ensures CheckValidSerial(serial).Pass? <==> exists date: Ymd :: Valid(date) && SerialOf(date) == serial
  {
    if CheckValidSerial(serial).Pass? {
      EpochEnds();
      assert Valid(CivilOf(serial)) && SerialOf(CivilOf(serial)) == serial;
    }
  }

  // ---------------------------------------------------------------------
  // The table-driven code of Date.cpp
  // ---------------------------------------------------------------------

  /** DateInitializer: fills days_epoch with a running sum of year lengths. */
  method BuildDaysEpoch() returns (table: seq<nat>)
    ensures |table| == NYears
    ensures forall i :: 0 <= i < NYears ==> table[i] == DaysEpoch(i)
  {
    var a := new nat[NYears];
    var i, s, y := 0, 0, FirstYear;
    while i < a.Length
      invariant 0 <= i <= a.Length && y == FirstYear + i
      invariant s == DaysEpoch(i)
      invariant forall k :: 0 <= k < i ==> a[..][k] == DaysEpoch(k)
    {
      ghost var prev := a[..];
      a[i] := s;
      assert forall k :: 0 <= k < i ==> a[k] == prev[k];
      s := s + YearLength(y);
      i, y := i + 1, y + 1;
    }
    table := a[..];
  }

  /** std::upper_bound: the first position whose entry exceeds x. */
  method UpperBound(a: seq<nat>, x: nat) returns (k: nat)
    requires forall i, j :: 0 <= i <= j < |a| ==> a[i] <= a[j]
    ensures k <= |a|
    ensures forall i :: 0 <= i < k ==> a[i] <= x
    ensures forall i :: k <= i < |a| ==> x < a[i]
  {
    var lo, hi := 0, |a|;
    while lo < hi
      invariant 0 <= lo <= hi <= |a|
      invariant forall i :: 0 <= i < lo ==> a[i] <= x
      invariant forall i :: hi <= i < |a| ==> x < a[i]
    {
      var mid := lo + (hi - lo) / 2;
      if a[mid] <= x {
        lo := mid + 1;
      } else {
        hi := mid;
      }
    }
    k := lo;
  }

  /**
   * get_dmy: the year by a binary search of days_epoch, then the month by a
   * binary search of days_ytd after taking the leap day out of the count.
   */
  method GetDmy(serial: nat) returns (date: Ymd)
    requires serial <= MaxSerial
    ensures date == CivilOf(serial)
  {
    DaysEpochTableSorted();
    EpochEnds();
    var k := UpperBound(DaysEpochTable(), serial);
    assert DaysEpochTable()[0] == 0;
    var y := k - 1;
    var year := FirstYear + y;
    var s := serial - DaysEpochTable()[y];
    assert s < YearLength(year) by {
      if k < NYears {
        assert DaysEpochTable()[k] == DaysEpoch(y) + YearLength(year);
      }
    }
    ghost var dayOfYear := s;
    var leap := false;
    if IsLeapYear(year) && s > 58 {
      s := s - 1;
      leap := true;
    }
    var mk := UpperBound(DaysYtd, s);
    assert DaysYtd[0] == 0;
    var m := mk - 1;
    var day: nat;
    if m == 1 && leap {
      day := s - DaysYtd[m] + 2;
    } else {
      day := s - DaysYtd[m] + 1;
    }
    date := Ymd(year, m + 1, day);
    MonthSearch(year, dayOfYear, s, leap, m);
    SerialInjective(date, CivilOf(serial));
  }

  /** The month search of get_dmy lands on the month and day of the day count. */
  lemma MonthSearch(year: nat, dayOfYear: nat, s: nat, leap: bool, m: nat)
    requires FirstYear <= year < LastYear && dayOfYear < YearLength(year)
    requires leap == (IsLeapYear(year) && dayOfYear > 58)
    requires s == if leap then dayOfYear - 1 else dayOfYear
    requires m < 12 && DaysYtd[m] <= s && (m + 1 < 12 ==> s < DaysYtd[m + 1])
    ensures var day := if m == 1 && leap then s - DaysYtd[m] + 2 else s - DaysYtd[m] + 1;
            ValidYmd(year, m + 1, day) && DayOfYear(year, m + 1, day) == dayOfYear
  {
  }

  // ---------------------------------------------------------------------
  // Formatting (Date::to_string and padding_dates)
  // ---------------------------------------------------------------------

  /** padding_dates: setw(2) with fill '0'. */
  function Pad2(n: nat): (s: string)
    ensures n < 100 ==> |s| == 2 && AllDigits(s) && DigitsValue(s) == n
  {
    DecimalRoundTrip(n);
    if n < 10 then "0" + Decimal(n)
    else
      DecimalLength(n, 2);
      Decimal(n)
  }

  /** to_string(false): YYYYMMDD. */
  function Compact(date: Ymd): string
  {
    Decimal(date.year) + Pad2(date.month) + Pad2(date.day)
  }

  /** to_string(true): d-m-y without padding. */
  function Pretty(date: Ymd): string
  {
    Decimal(date.day) + "-" + Decimal(date.month) + "-" + Decimal(date.year)
  }

  /** A valid date prints as eight digits that slice 4/2/2 back into its fields. */
  lemma CompactLayout(date: Ymd)
    requires Valid(date)
    ensures var c := Compact(date);
            |c| == 8 && AllDigits(c)
            && DigitsValue(c[..4]) == date.year
            && DigitsValue(c[4..6]) == date.month
            && DigitsValue(c[6..8]) == date.day
  {
    DecimalLength(date.year, 4);
    DecimalLength(date.year, 3);
    DecimalRoundTrip(date.year);
    var c := Compact(date);
    assert c[..4] == Decimal(date.year);
    assert c[4..6] == Pad2(date.month);
    assert c[6..8] == Pad2(date.day);
  }
}
