/** Dates to the minute: `ti_daym`, `ti_itoj`, `ti_mdif`, `ti_addm`, and the forecast times built on them. */
module Calendar {
  import opened Shifts

  datatype Date = Date(year: int, month: int, day: int, hour: int, minute: int)

  predicate Leap(year: int)
  {
    year % 4 == 0 && (year % 100 != 0 || year % 400 == 0)
  }

  /** `ti_daym` */
  function DaysIn(year: int, month: int): (n: int)
    ensures 28 <= n <= 31
    ensures 1 <= month <= 12 && month != 2 ==> n == 30 + (month + month / 8) % 2
    ensures n < 30 <==> month == 2
    ensures n == 29 <==> month == 2 && Leap(year)
  {
    if month == 2 then (if Leap(year) then 29 else 28)
    else if month in {1, 3, 5, 7, 8, 10, 12} then 31
    else 30
  }

  predicate Valid(d: Date)
  {
    && 0 <= d.year && 1 <= d.month <= 12 && 1 <= d.day <= DaysIn(d.year, d.month)
    && 0 <= d.hour < 24 && 0 <= d.minute < 60
  }

  // ----- a count of minutes

  function MonthsBefore(year: int, month: int): (n: int)
    decreases month
  {
    if month <= 1 then 0 else MonthsBefore(year, month - 1) + DaysIn(year, month - 1)
  }

  function YearDays(year: int): (n: int)
  {
    if Leap(year) then 366 else 365
  }

  function YearsBefore(year: int): (n: int)
    decreases year
  {
    if year <= 0 then 0 else YearsBefore(year - 1) + YearDays(year - 1)
  }

  function Days(d: Date): (n: int)
  {
    YearsBefore(d.year) + MonthsBefore(d.year, d.month) + d.day
  }

  function Minutes(d: Date): (n: int)
  {
    Days(d) * 1440 + d.hour * 60 + d.minute
  }

  /** Every d-th year from year 0 on, before the given year. */
  function Every(d: nat, year: nat): (n: int)
    requires d > 0
  {
    (year + d - 1) / d
  }

  /** One day more every fourth year, but not every hundredth, and yet every four hundredth. */
  lemma {:induction false} GregorianYears(year: nat)
    ensures YearsBefore(year) == 365 * year + Every(4, year) - Every(100, year) + Every(400, year)
  {
    hide Every;
    if year == 0 {
      NoneYet();
    } else {
      var y := year - 1;
      GregorianYears(y);
      Ceiling(y, 4);
      Ceiling(y, 100);
      Ceiling(y, 400);
      LeapDay(y);
    }
  }

  lemma {:induction false} NoneYet()
    ensures Every(4, 0) == Every(100, 0) == Every(400, 0) == 0
  {
  }

  lemma {:induction false} LeapDay(year: nat)
    ensures YearDays(year) - 365 == (if year % 4 == 0 then 1 else 0) - (if year % 100 == 0 then 1 else 0)
      + (if year % 400 == 0 then 1 else 0)
  {
    var h, f := year % 100, year % 400;
    if h == 0 { Multiple(year, 25 * (year / 100), 4); }
    if f == 0 { Multiple(year, 4 * (year / 400), 100); }
  }

  lemma {:induction false} Multiple(n: nat, q: nat, d: nat)
    requires d > 0 && n == q * d
    ensures n % d == 0
  {
    Quotient(n, q, 0, d);
  }

  lemma {:induction false} Ceiling(n: nat, d: nat)
    requires d > 0
    ensures Every(d, n + 1) == Every(d, n) + if n % d == 0 then 1 else 0
  {
    var q, r := n / d, n % d;
    assert n == q * d + r;
    if r == 0 {
      Quotient(n + d, q + 1, 0, d);
      Quotient(n + d - 1, q, d - 1, d);
    } else {
      Quotient(n + d, q + 1, r, d);
      Quotient(n + d - 1, q + 1, r - 1, d);
    }
  }

  lemma {:induction false} Quotient(n: nat, q: nat, r: nat, d: nat)
    requires d > 0 && r < d && n == q * d + r
    ensures n / d == q
  {
    Division(n, d);
    assert (n / d - q) * d == r - n % d;
    if n / d > q { MulLe(1, n / d - q, d); }
    if n / d < q { MulLe(1, q - n / d, d); }
  }

  /** The months of a year make up the year. */
  lemma {:induction false} WholeYear(year: int)
    ensures MonthsBefore(year, 13) == YearDays(year)
  {
    assert MonthsBefore(year, 4) == 59 + (if Leap(year) then 1 else 0) + 31;
    assert MonthsBefore(year, 7) == MonthsBefore(year, 4) + 91;
    assert MonthsBefore(year, 10) == MonthsBefore(year, 7) + 92;
    assert MonthsBefore(year, 13) == MonthsBefore(year, 10) + 92;
  }

  lemma {:induction false} MonthsMonotone(year: int, a: int, b: int)
    requires 1 <= a < b
    ensures MonthsBefore(year, a) + DaysIn(year, a) <= MonthsBefore(year, b)
    decreases b
  {
    if a < b - 1 { MonthsMonotone(year, a, b - 1); }
  }

  lemma {:induction false} YearsMonotone(a: int, b: int)
    requires 0 <= a < b
    ensures YearsBefore(a) + YearDays(a) <= YearsBefore(b)
    decreases b
  {
    if a < b - 1 { YearsMonotone(a, b - 1); }
  }

  lemma {:induction false} DayOfYearBound(d: Date)
    requires Valid(d)
    ensures 1 <= MonthsBefore(d.year, d.month) + d.day <= YearDays(d.year)
  {
    WholeYear(d.year);
    MonthsMonotone(d.year, d.month, 13);
    if d.month > 1 { MonthsMonotone(d.year, 1, d.month); }
  }

  /** A day determines its date. */
  lemma {:induction false} SameDay(a: Date, b: Date)
    requires Valid(a) && Valid(b) && Days(a) == Days(b)
    ensures a.year == b.year && a.month == b.month && a.day == b.day
  {
    DayOfYearBound(a);
    DayOfYearBound(b);
    if a.year < b.year {
      YearsMonotone(a.year, b.year);
    } else if b.year < a.year {
      YearsMonotone(b.year, a.year);
    } else if a.month < b.month {
      MonthsMonotone(a.year, a.month, b.month);
    } else if b.month < a.month {
      MonthsMonotone(a.year, b.month, a.month);
    }
  }

  /** A minute determines its date and time. */
  lemma {:induction false} SameMinute(a: Date, b: Date)
    requires Valid(a) && Valid(b) && Minutes(a) == Minutes(b)
    ensures a == b
  {
    hide Days, Valid;
    TimeOfDay(a);
    TimeOfDay(b);
    assert Days(a) == Days(b);
    SameDay(a, b);
  }

  lemma {:induction false} TimeOfDay(d: Date)
    requires Valid(d)
    ensures 0 <= d.hour < 24 && 0 <= d.minute < 60
  {
  }

  // ----- the day after

  function NextDay(d: Date): (r: Date)
  {
    if d.day != DaysIn(d.year, d.month) then d.(day := d.day + 1)
    else if d.month + 1 == 13 then d.(year := d.year + 1, month := 1, day := 1)
    else d.(month := d.month + 1, day := 1)
  }

  lemma {:induction false} NextDayCounts(d: Date)
    requires Valid(d)
    ensures Valid(NextDay(d)) && Days(NextDay(d)) == Days(d) + 1
  {
    if d.month == 12 { WholeYear(d.year); }
  }

  function DaysLater(d: Date, n: int): (r: Date)
    decreases n
  {
    if n <= 0 then d else NextDay(DaysLater(d, n - 1))
  }

  lemma {:induction false} DaysLaterCounts(d: Date, n: nat)
    requires Valid(d)
    ensures Valid(DaysLater(d, n)) && Days(DaysLater(d, n)) == Days(d) + n
    ensures DaysLater(d, n).hour == d.hour && DaysLater(d, n).minute == d.minute
  {
    hide Valid, Days;
    if n > 0 {
      DaysLaterCounts(d, n - 1);
      NextDayCounts(DaysLater(d, n - 1));
    }
  }

  // ----- adding minutes

  /** Minutes and hours carried, then whole days, before the year is cut to two digits. */
  function Later(d: Date, m: nat): (r: Date)
  {
    var minute := d.minute + m % 60;
    var hour := d.hour + m / 60 % 24 + if minute > 59 then 1 else 0;
    var days := m / 60 / 24 + if hour > 23 then 1 else 0;
    DaysLater(d.(minute := if minute > 59 then minute - 60 else minute,
                 hour := if hour > 23 then hour - 24 else hour),
              days)
  }

  /** m minutes later, and a valid date. */
  lemma {:induction false} LaterCounts(d: Date, m: nat)
    requires Valid(d)
    ensures Valid(Later(d, m)) && Minutes(Later(d, m)) == Minutes(d) + m
  {
    hide DaysLater, Days;
    var minute := d.minute + m % 60;
    var hour := d.hour + m / 60 % 24 + if minute > 59 then 1 else 0;
    var days := m / 60 / 24 + if hour > 23 then 1 else 0;
    var t := d.(minute := if minute > 59 then minute - 60 else minute, hour := if hour > 23 then hour - 24 else hour);
    HoursAndMinutes(m);
    DaysLaterCounts(t, days);
    DaysIgnoresTime(d, t);
  }

  lemma {:induction false} HoursAndMinutes(m: nat)
    ensures m == (m / 60 / 24 * 24 + m / 60 % 24) * 60 + m % 60 && m % 60 < 60 && m / 60 % 24 < 24
  {
    var h := m / 60;
    assert h == h / 24 * 24 + h % 24;
  }

  lemma {:induction false} DaysIgnoresTime(a: Date, b: Date)
    requires a.year == b.year && a.month == b.month && a.day == b.day
    ensures Days(a) == Days(b)
  {
  }

  /** Adding in two steps is adding at once. */
  lemma {:induction false} LaterTwice(d: Date, m: nat, n: nat)
    requires Valid(d)
    ensures Later(Later(d, m), n) == Later(d, m + n)
  {
    hide Later, Valid, Minutes;
    LaterCounts(d, m);
    LaterCounts(Later(d, m), n);
    LaterCounts(d, m + n);
    SameMinute(Later(Later(d, m), n), Later(d, m + n));
  }

  lemma {:induction false} LaterZero(d: Date)
    requires Valid(d)
    ensures Later(d, 0) == d
  {
    hide Later, Valid, Minutes;
    LaterCounts(d, 0);
    SameMinute(Later(d, 0), d);
  }

  // ----- the routines

  /** `ti_itoj` */
  method DayOfYear(d: Date) returns (jyear: int, jday: int)
    ensures jyear == d.year && jday == MonthsBefore(d.year, d.month) + d.day
  {
    jyear, jday := d.year, d.day;
    if d.month > 1 {
      for i := 1 to d.month
        invariant jday == MonthsBefore(d.year, i) + d.day
      {
        jday := jday + DaysIn(d.year, i);
      }
    }
  }

  /** The days of the years from a up to b. */
  method DaysBetween(a: int, b: int) returns (n: int)
    requires 0 <= a <= b
    ensures n == YearsBefore(b) - YearsBefore(a)
  {
    n := 0;
    for i := a to b
      invariant n == YearsBefore(i) - YearsBefore(a)
    {
      n := n + 365;
      if DaysIn(i, 2) == 29 { n := n + 1; }
    }
  }

  /** `ti_mdif`: the minutes from b to a, for any dates of years that are not negative. */
  method MinutesBetween(a: Date, b: Date) returns (iret: int, nmin: int)
    ensures iret == if a.year < 0 || b.year < 0 then -12 else 0
    ensures nmin == if iret == 0 then Minutes(a) - Minutes(b) else 0
  {
    iret, nmin := 0, 0;
    var _, jday1 := DayOfYear(a);
    var _, jday2 := DayOfYear(b);
    if a.year < 0 || b.year < 0 { return -12, 0; }
    var n := 0;
    if a.year < b.year {
      n := DaysBetween(a.year, b.year);
      jday2 := jday2 + n;
    } else if a.year > b.year {
      n := DaysBetween(b.year, a.year);
      jday1 := jday1 + n;
    }
    var nmin1 := jday1 * 1440 + a.hour * 60 + a.minute;
    var nmin2 := jday2 * 1440 + b.hour * 60 + b.minute;
    nmin := nmin1 - nmin2;
  }

  /** A year that was given with two digits is returned with two. */
  function Cut(d: Date, r: Date): (c: Date)
  {
    if d.year < 100 then r.(year := r.year % 100) else r
  }

  function AddError(d: Date, m: int): (iret: int)
  {
    if m < 0 then -16
    else if d.month < 1 || d.month > 12 then -8
    else if d.year < 0 then -7
    else if d.day < 1 || d.day > DaysIn(d.year, d.month) then -9
    else 0
  }

  /** `ti_addm`; nothing is returned on an error. */
  method AddMinutes(d: Date, m: int, was: Date) returns (iret: int, out: Date)
    ensures iret == AddError(d, m)
    ensures iret != 0 ==> out == was
    ensures iret == 0 ==> m >= 0 && out == Cut(d, Later(d, m))
  {
    hide DaysIn;
    out := was;
    iret := AddError(d, m);
    if iret != 0 { return; }
    var jmin := m % 60;
    var jtmp := m / 60;
    var jhr := jtmp % 24;
    var jday := jtmp / 24;
    var iminut := d.minute + jmin;
    if iminut > 59 {
      iminut := iminut - 60;
      jhr := jhr + 1;
    }
    var ihour := d.hour + jhr;
    if ihour > 23 {
      ihour := ihour - 24;
      jday := jday + 1;
    }
    var iyear, imonth, iday := d.year, d.month, d.day;
    ghost var t := d.(hour := ihour, minute := iminut);
    for k := 0 to jday
      invariant Date(iyear, imonth, iday, ihour, iminut) == DaysLater(t, k)
    {
      if iday == DaysIn(iyear, imonth) {
        imonth := imonth + 1;
        if imonth == 13 {
          iyear := iyear + 1;
          imonth := 1;
        }
        iday := 1;
      } else {
        iday := iday + 1;
      }
    }
    if d.year < 100 { iyear := iyear % 100; }
    out := Date(iyear, imonth, iday, ihour, iminut);
  }

  /** Cutting a year of three or more digits moves the date back. */
  lemma {:induction false} CutBack(r: Date)
    requires Valid(r) && r.year >= 100
    ensures Minutes(r.(year := r.year % 100)) < Minutes(r)
  {
    var c := r.(year := r.year % 100);
    CutLeap(r.year);
    assert Valid(c);
    YearsMonotone(c.year, r.year);
    DayOfYearBound(c);
    DayOfYearBound(r);
  }

  lemma {:induction false} CutLeap(year: int)
    requires year >= 100
    ensures Leap(year) ==> Leap(year % 100)
  {
    var q, c := year / 100, year % 100;
    assert year == 100 * q + c;
    assert year % 4 == c % 4 by { assert year == 4 * (25 * q) + c; }
  }

  /** The first minute of year 100. */
  ghost function Century(): (m: int)
  {
    Minutes(Date(100, 1, 1, 0, 0))
  }

  lemma {:induction false} BeforeCentury(d: Date)
    requires Valid(d)
    ensures d.year >= 100 <==> Minutes(d) >= Century()
  {
    var c := Date(100, 1, 1, 0, 0);
    DayOfYearBound(d);
    DayOfYearBound(c);
    if d.year < 100 {
      YearsMonotone(d.year, 100);
    } else if d.year > 100 {
      YearsMonotone(100, d.year);
    }
  }

  /**
   * Exactly when the difference undoes the addition: unless the year came with two digits and the
   * minutes reach year 100.
   */
  lemma {:induction false} DifferenceUndoesAddition(d: Date, m: nat)
    requires Valid(d)
    ensures Minutes(Cut(d, Later(d, m))) - Minutes(d) == m <==> !(d.year < 100 && Minutes(d) + m >= Century())
  {
    hide Later, Minutes, Century;
    LaterCounts(d, m);
    BeforeCentury(Later(d, m));
    if d.year < 100 && Later(d, m).year >= 100 {
      CutBack(Later(d, m));
    } else if d.year < 100 {
      SmallYear(Later(d, m));
    }
  }

  lemma {:induction false} SmallYear(r: Date)
    requires Valid(r) && r.year < 100
    ensures r.(year := r.year % 100) == r
  {
  }

  /** It does fail: one minute after the end of year 99 is the start of year 0. */
  lemma {:induction false} CenturyEnds()
    ensures var d := Date(99, 12, 31, 23, 59);
      Valid(d) && Cut(d, Later(d, 1)) == Date(0, 1, 1, 0, 0) && Minutes(Cut(d, Later(d, 1))) - Minutes(d) != 1
  {
    hide Minutes, Century;
    var d := Date(99, 12, 31, 23, 59);
    var t := d.(hour := 0, minute := 0);
    assert DaysLater(t, 0) == t;
    assert DaysLater(t, 1) == Date(100, 1, 1, 0, 0);
    LaterCounts(d, 1);
    BeforeCentury(Later(d, 1));
    DifferenceUndoesAddition(d, 1);
  }

  // ----- forecast times

  /** `gb2_fcsm`: Code Table 4.4 units to minutes. */
  function ForecastMinutes(ifcst: int, unit: int): (m: int)
  {
    match unit
    case 0 => ifcst
    case 1 => ifcst * 60
    case 2 => ifcst * 60 * 24
    case 10 => ifcst * 3 * 60
    case 11 => ifcst * 6 * 60
    case 12 => ifcst * 12 * 60
    case 13 => Truncated(ifcst, 60)
    case _ => 0
  }

  /** The units against each other: 60 minutes, 24 hours, 3, 6 and 12 hours, 60 seconds; no others are known. */
  lemma {:induction false} Units(n: int, unit: int)
    ensures ForecastMinutes(n, 0) == n
    ensures ForecastMinutes(n, 1) == ForecastMinutes(60 * n, 0)
    ensures ForecastMinutes(n, 2) == ForecastMinutes(24 * n, 1)
    ensures ForecastMinutes(n, 10) == ForecastMinutes(3 * n, 1)
    ensures ForecastMinutes(n, 11) == ForecastMinutes(6 * n, 1)
    ensures ForecastMinutes(n, 12) == ForecastMinutes(12 * n, 1)
    ensures ForecastMinutes(60 * n, 13) == ForecastMinutes(n, 0)
    ensures 0 <= n ==> 60 * ForecastMinutes(n, 13) <= n < 60 * ForecastMinutes(n, 13) + 60
    ensures ForecastMinutes(-n, 13) == -ForecastMinutes(n, 13)
    ensures unit !in {0, 1, 2, 10, 11, 12, 13} ==> ForecastMinutes(n, unit) == 0
  {
  }

  /** Where the end of the interval is in templates 4.8 to 4.14. */
  function EndPosition(template: int): (p: nat)
    requires 8 <= template <= 14
  {
    [15, 22, 16, 18, 17, 31, 30][template - 8]
  }

  function DateAt(vs: seq<int>, p: nat): (d: Date)
    requires p + 5 <= |vs|
  {
    Date(vs[p], vs[p + 1], vs[p + 2], vs[p + 3], vs[p + 4])
  }

  const MISSING := -9999

  /** `gb2_ftim` before the date is made a string: forecast hours and minutes, and hours of accumulation. */
  method ForecastTime(ids: seq<int>, template: int, tmpl: seq<int>)
    returns (iret: int, ihhh: int, imm: int, iaccm: int, ghost ifcst: int, ghost accum: int)
    requires |ids| >= 10 && (0 <= template <= 15 ==> |tmpl| >= 9)
    requires 8 <= template <= 14 ==> |tmpl| >= EndPosition(template) + 5
    ensures iret == if 0 <= template <= 15 then 0 else -27
    ensures ihhh * 60 + imm == ifcst && -60 < imm < 60
    ensures 0 <= template <= 7 || template == 15 ==> ifcst == ForecastMinutes(tmpl[8], tmpl[7]) && iaccm == MISSING
    ensures 8 <= template <= 14 ==> iaccm == Truncated(accum, 60)
    ensures 8 <= template <= 14 && Valid(DateAt(ids, 5)) && ids[5] >= 100 && tmpl[EndPosition(template)] >= 0 ==>
      (var offset := ForecastMinutes(tmpl[8], tmpl[7]);
       && ifcst == Minutes(DateAt(tmpl, EndPosition(template))) - Minutes(DateAt(ids, 5))
       && (ifcst == offset + accum <==> offset >= 0))
  {
    hide Minutes, Later, ForecastMinutes, DaysIn;
    iret, iaccm, accum := 0, MISSING, 0;
    var fcst := 0;
    if 0 <= template <= 7 || template == 15 {
      fcst := ForecastMinutes(tmpl[8], tmpl[7]);
    } else if 8 <= template <= 14 {
      var istart := DateAt(ids, 5);
      var iend := DateAt(tmpl, EndPosition(template));
      var ier, itmp, acc;
      ier, fcst := MinutesBetween(iend, istart);
      itmp := ForecastMinutes(tmpl[8], tmpl[7]);
      ghost var ref := istart;
      ier, istart := AddMinutes(istart, itmp, istart);
      if ier == 0 && Valid(ref) { LaterCounts(ref, itmp); }
      ier, acc := MinutesBetween(iend, istart);
      accum := acc;
      iaccm := Truncated(acc, 60);
    } else {
      iret := -27;
    }
    ifcst := fcst;
    ihhh := Truncated(fcst, 60);
    imm := fcst - 60 * ihhh;
  }
}
