// Two ways from a day count to a date: the closed form of src/config.rs and the loops of
// src/recording.rs.

module CalendarSpec {
  import opened DivMod

  datatype Date = Date(y: int, m: int, d: int)

  predicate Leap(y: int) { (y % 4 == 0 && y % 100 != 0) || y % 400 == 0 }

  function YearLength(y: int): int { if Leap(y) then 366 else 365 }

  function MonthLength(y: int, m: int): int
  {
    if m == 2 then (if Leap(y) then 29 else 28) else if m == 4 || m == 6 || m == 9 || m == 11 then 30 else 31
  }

  ghost predicate Valid(t: Date) { 1 <= t.m <= 12 && 1 <= t.d <= MonthLength(t.y, t.m) }

  // Days of the year before month m.
  function MonthStart(y: int, m: int): int
    requires 1 <= m <= 13
    decreases m
  {
    if m == 1 then 0 else MonthStart(y, m - 1) + MonthLength(y, m - 1)
  }

  // Days from the first of January 1970 to the first of January y, either way.
  function YearStart(y: int): int
    decreases if y >= 1970 then y - 1970 else 1970 - y
  {
    if y == 1970 then 0 else if y > 1970 then YearStart(y - 1) + YearLength(y - 1) else YearStart(y + 1) - YearLength(y)
  }

  // The number of a date, counted from the first of January 1970.
  function DayNumber(t: Date): int
    requires 1 <= t.m <= 12
  {
    YearStart(t.y) + MonthStart(t.y, t.m) + t.d - 1
  }

  lemma NextYear(y: int)
    ensures YearStart(y + 1) == YearStart(y) + YearLength(y)
  {
  }

  lemma Starts(y: int)
    ensures MonthStart(y, 1) == 0 && MonthStart(y, 2) == 31 && MonthStart(y, 3) == 59 + YearLength(y) - 365
    ensures MonthStart(y, 4) == MonthStart(y, 3) + 31 && MonthStart(y, 5) == MonthStart(y, 3) + 61
    ensures MonthStart(y, 6) == MonthStart(y, 3) + 92 && MonthStart(y, 7) == MonthStart(y, 3) + 122
    ensures MonthStart(y, 8) == MonthStart(y, 3) + 153 && MonthStart(y, 9) == MonthStart(y, 3) + 184
    ensures MonthStart(y, 10) == MonthStart(y, 3) + 214 && MonthStart(y, 11) == MonthStart(y, 3) + 245
    ensures MonthStart(y, 12) == MonthStart(y, 3) + 275 && MonthStart(y, 13) == YearLength(y)
  {
    assert MonthStart(y, 3) == MonthStart(y, 2) + MonthLength(y, 2);
    assert MonthStart(y, 5) == MonthStart(y, 4) + 30;
    assert MonthStart(y, 7) == MonthStart(y, 6) + 30;
    assert MonthStart(y, 9) == MonthStart(y, 8) + 31;
    assert MonthStart(y, 11) == MonthStart(y, 10) + 31;
    assert MonthStart(y, 13) == MonthStart(y, 12) + 31;
  }

  // ----- a date is determined by its number -----

  lemma {:induction false} YearsApart(y: int, z: int)
    requires y < z
    ensures YearStart(y + 1) <= YearStart(z)
    decreases z - y
  {
    if y + 1 < z {
      YearsApart(y, z - 1);
      NextYear(z - 1);
    }
  }

  lemma {:induction false} MonthsApart(y: int, m: int, n: int)
    requires 1 <= m < n <= 13
    ensures MonthStart(y, m) + MonthLength(y, m) <= MonthStart(y, n)
    decreases n - m
  {
    if m + 1 < n { MonthsApart(y, m, n - 1); }
  }

  lemma WithinYear(t: Date)
    requires Valid(t)
    ensures YearStart(t.y) <= DayNumber(t) < YearStart(t.y + 1)
  {
    NextYear(t.y);
    Starts(t.y);
    MonthsApart(t.y, t.m, 13);
    if t.m > 1 { MonthsApart(t.y, 1, t.m); }
  }

  lemma DayNumberInjective(s: Date, t: Date)
    requires Valid(s) && Valid(t) && DayNumber(s) == DayNumber(t)
    ensures s == t
  {
    EarlierYear(s, t);
    EarlierYear(t, s);
    EarlierMonth(s, t);
    EarlierMonth(t, s);
  }

  lemma EarlierYear(s: Date, t: Date)
    requires Valid(s) && Valid(t)
    ensures s.y < t.y ==> DayNumber(s) < DayNumber(t)
  {
    WithinYear(s);
    WithinYear(t);
    if s.y < t.y { YearsApart(s.y, t.y); }
  }

  lemma EarlierMonth(s: Date, t: Date)
    requires Valid(s) && Valid(t)
    ensures s.y == t.y && s.m < t.m ==> DayNumber(s) < DayNumber(t)
  {
    if s.m < t.m { MonthsApart(s.y, s.m, t.m); }
  }

  // ----- the closed form for years -----

  function Leaps(y: int): int { y / 4 - y / 100 + y / 400 }

  lemma LeapsStep(y: int)
    ensures Leaps(y) - Leaps(y - 1) == if Leap(y) then 1 else 0
  {
    Quotients(y, 4);
    Quotients(y, 100);
    Quotients(y, 400);
  }

  lemma Quotients(y: int, n: int)
    requires n > 1
    ensures y / n - (y - 1) / n == if y % n == 0 then 1 else 0
  {
    var q, r := y / n, y % n;
    assert y == n * q + r;
    if r == 0 {
      assert y - 1 == n * (q - 1) + (n - 1);
      Below(y - 1, n, q - 1, n - 1);
    } else {
      Below(y - 1, n, q, r - 1);
    }
  }

  lemma Below(x: int, n: int, q: int, r: int)
    requires n > 0 && x == n * q + r && 0 <= r < n
    ensures x / n == q
  {
    QuotRem(x, q, r, n);
  }

  lemma {:induction false} YearStartClosed(y: int)
    ensures YearStart(y) == 365 * (y - 1970) + Leaps(y - 1) - 477
    decreases if y >= 1970 then y - 1970 else 1970 - y
  {
    if y > 1970 {
      YearStartClosed(y - 1);
      LeapsStep(y - 1);
    } else if y < 1970 {
      YearStartClosed(y + 1);
      LeapsStep(y);
    }
  }

  // The day number of the first of March of y, in the closed form's own count.
  lemma MarchFirst(y: int)
    ensures YearStart(y) + MonthStart(y, 3) + 719468 == 365 * y + Leaps(y)
  {
    YearStartClosed(y);
    LeapsStep(y);
    Starts(y);
  }

  // The Gregorian calendar's day after a date.
  function DayAfter(t: Date): Date
  {
    var leap := t.y % 4 == 0 && (t.y % 100 != 0 || t.y % 400 == 0);
    var last := if t.m == 2 then (if leap then 29 else 28) else if t.m in {4, 6, 9, 11} then 30 else 31;
    if t.d < last then Date(t.y, t.m, t.d + 1)
    else if t.m < 12 then Date(t.y, t.m + 1, 1)
    else Date(t.y + 1, 1, 1)
  }

  // Dates are numbered one after the other.
  lemma NextDay(t: Date)
    requires Valid(t)
    ensures Valid(DayAfter(t)) && DayNumber(DayAfter(t)) == DayNumber(t) + 1
  {
    if t.d == MonthLength(t.y, t.m) {
      if t.m < 12 { NextMonth(t.y, t.m); } else { NewYear(t.y); }
    }
  }

  lemma NewYear(y: int)
    ensures YearStart(y + 1) + MonthStart(y + 1, 1) == YearStart(y) + MonthStart(y, 12) + 31
  {
    LastMonth(y);
    LastMonth(y + 1);
    NextYear(y);
  }

  // From the first of January 1970.
  lemma Epoch()
    ensures DayNumber(Date(1970, 1, 1)) == 0
  {
  }

  lemma NextMonth(y: int, m: int)
    requires 1 <= m <= 12
    ensures MonthStart(y, m + 1) == MonthStart(y, m) + MonthLength(y, m)
  {
  }

  lemma LastMonth(y: int)
    ensures MonthStart(y, 12) + 31 == YearLength(y) && MonthStart(y, 1) == 0
  {
    Starts(y);
    NextMonth(y, 12);
  }
}

module CalendarCode {
  import opened DivMod
  import opened CalendarSpec

  // ----- src/config.rs -----

  // Division as the machine does it, toward zero.
  function Quot(a: int, b: int): int
    requires b > 0
  {
    if a >= 0 then a / b else -((-a) / b)
  }

  function YearOfEra(doe: int): int { Quot(doe - Quot(doe, 1460) + Quot(doe, 36524) - Quot(doe, 146096), 365) }

  function DaysToYmd(g: int): Date
  {
    var era := Quot(if g >= 0 then g else g - 146096, 146097);
    DayOfEra(era, g - era * 146097)
  }

  function DayOfEra(era: int, doe: int): Date
  {
    var yoe := YearOfEra(doe);
    MarchDate(yoe + era * 400, doe - (365 * yoe + Quot(yoe, 4) - Quot(yoe, 100)))
  }

  // The date doy days after the first of March of y0.
  function MarchDate(y0: int, doy: int): Date
  {
    var mp := Quot(5 * doy + 2, 153);
    var d := doy - Quot(153 * mp + 2, 5) + 1;
    var m := if mp < 10 then mp + 3 else mp - 9;
    Date(if m <= 2 then y0 + 1 else y0, m, d)
  }

  lemma EraIsFloor(g: int)
    ensures Quot(if g >= 0 then g else g - 146096, 146097) == g / 146097
    ensures 0 <= g - g / 146097 * 146097 < 146097
  {
  }

  // Where a day falls in its era: century b, four-year group q, year t, day s of the group.
  lemma Split(doe: int) returns (b: int, q: int, t: int, s: int)
    requires 0 <= doe < 146097
    ensures 0 <= b <= 3 && 0 <= q <= 24 && 0 <= t <= 3 && 365 * t <= s <= 365 * t + 365
    ensures doe == 36524 * b + 1461 * q + s
    ensures s < 365 * t + 365 || (t == 3 && s == 1460 && (q < 24 || b == 3))
  {
    b := if doe == 146096 then 3 else doe / 36524;
    var r := doe - 36524 * b;
    q := if r == 36524 then 24 else r / 1461;
    s := r - 1461 * q;
    t := if s == 1460 then 3 else s / 365;
  }

  lemma YearOfEraIs(doe: int, b: int, q: int, t: int, s: int)
    requires 0 <= doe < 146097
    requires 0 <= b <= 3 && 0 <= q <= 24 && 0 <= t <= 3 && 365 * t <= s <= 365 * t + 365
    requires doe == 36524 * b + 1461 * q + s
    requires s < 365 * t + 365 || (t == 3 && s == 1460 && (q < 24 || b == 3))
    ensures YearOfEra(doe) == 100 * b + 4 * q + t
  {
    var e := if 24 * b + q + s >= 1460 then 1 else 0;
    Below(doe, 1460, 25 * b + q + e, 24 * b + q + s - 1460 * e);
    if doe == 146096 {
      assert b == 3 && q == 24 && t == 3;
    } else {
      assert doe < 36524 * b + 36524;
      Below(doe, 36524, b, doe - 36524 * b);
      Below(doe, 146096, 0, doe);
      Below(36500 * b + 1460 * q + s - e, 365, 100 * b + 4 * q + t, s - e - 365 * t);
    }
  }

  // The day's March-based year and the days since that year's first of March.
  lemma MarchYear(g: int) returns (y0: int, doy: int)
    ensures 0 <= doy <= 365 && g == 365 * y0 + Leaps(y0) + doy && (doy == 365 ==> Leap(y0 + 1))
    ensures DaysToYmd(g) == MarchDate(y0, doy)
  {
    var era := g / 146097;
    EraIsFloor(g);
    var doe := g - era * 146097;
    var b, q, t, s := Split(doe);
    YearOfEraIs(doe, b, q, t, s);
    var yoe := 100 * b + 4 * q + t;
    y0, doy := yoe + era * 400, s - 365 * t;
    EraYear(yoe, b, q, t);
    ClosedFormParts(g, era, doe, yoe, doy);
    YearSum(era, yoe, b, q);
    if doy == 365 { LeapNext(era, b, q); }
  }

  lemma ClosedFormParts(g: int, era: int, doe: int, yoe: int, doy: int)
    requires era == g / 146097 && doe == g - era * 146097 && yoe == YearOfEra(doe) && 0 <= yoe
    requires doy == doe - (365 * yoe + yoe / 4 - yoe / 100)
    ensures DaysToYmd(g) == MarchDate(yoe + era * 400, doy)
  {
    EraIsFloor(g);
    assert DaysToYmd(g) == DayOfEra(era, doe);
    MarchParts(era, doe, yoe, doy);
  }

  lemma MarchParts(era: int, doe: int, yoe: int, doy: int)
    requires yoe == YearOfEra(doe) && 0 <= yoe && doy == doe - (365 * yoe + yoe / 4 - yoe / 100)
    ensures DayOfEra(era, doe) == MarchDate(yoe + era * 400, doy)
  {
  }

  lemma EraYear(yoe: int, b: int, q: int, t: int)
    requires 0 <= b <= 3 && 0 <= q <= 24 && 0 <= t <= 3 && yoe == 100 * b + 4 * q + t
    ensures yoe / 4 == 25 * b + q && yoe / 100 == b && 0 <= yoe < 400
  {
    Below(yoe, 4, 25 * b + q, t);
    Below(yoe, 100, b, 4 * q + t);
  }

  lemma YearSum(era: int, yoe: int, b: int, q: int)
    requires yoe / 4 == 25 * b + q && yoe / 100 == b && 0 <= yoe < 400
    ensures Leaps(yoe + era * 400) == 97 * era + 25 * b + q - b
  {
    Below(yoe + era * 400, 4, yoe / 4 + 100 * era, yoe % 4);
    Below(yoe + era * 400, 100, yoe / 100 + 4 * era, yoe % 100);
    Below(yoe + era * 400, 400, era, yoe);
  }

  lemma LeapNext(era: int, b: int, q: int)
    requires 0 <= b <= 3 && 0 <= q <= 24 && (q < 24 || b == 3)
    ensures Leap(100 * b + 4 * q + 3 + era * 400 + 1)
  {
    var y := 100 * b + 4 * q + 4 + era * 400;
    QuotRem(y, 25 * b + q + 1 + 100 * era, 0, 4);
    if q < 24 {
      QuotRem(y, b + 4 * era, 4 * q + 4, 100);
    } else {
      QuotRem(y, era + 1, 0, 400);
    }
  }

  // Days from the first of March to the first of the mp-th month after it.
  function Cum(mp: int): int
    requires 0 <= mp <= 12
  {
    [0, 31, 61, 92, 122, 153, 184, 214, 245, 275, 306, 337, 367][mp]
  }

  lemma MonthOf(doy: int) returns (mp: int)
    requires 0 <= doy <= 365
    ensures 0 <= mp <= 11 && mp == Quot(5 * doy + 2, 153) && Quot(153 * mp + 2, 5) == Cum(mp)
    ensures Cum(mp) <= doy < Cum(mp + 1)
  {
    mp := (5 * doy + 2) / 153;
  }

  // March-based days fall in the months they should.
  lemma MarchDateNumber(y0: int, doy: int)
    requires 0 <= doy <= 365 && (doy == 365 ==> Leap(y0 + 1))
    ensures Valid(MarchDate(y0, doy)) && DayNumber(MarchDate(y0, doy)) == YearStart(y0) + MonthStart(y0, 3) + doy
  {
    var mp := MonthOf(doy);
    var t := Date(if mp < 10 then y0 else y0 + 1, if mp < 10 then mp + 3 else mp - 9, doy - Cum(mp) + 1);
    assert MarchDate(y0, doy) == t;
    MonthFits(y0, doy, mp);
  }

  lemma MonthFits(y0: int, doy: int, mp: int)
    requires 0 <= mp <= 11 && Cum(mp) <= doy < Cum(mp + 1) && doy <= 365 && (doy == 365 ==> Leap(y0 + 1))
    ensures var t := Date(if mp < 10 then y0 else y0 + 1, if mp < 10 then mp + 3 else mp - 9, doy - Cum(mp) + 1);
            Valid(t) && DayNumber(t) == YearStart(y0) + MonthStart(y0, 3) + doy
  {
    Starts(y0);
    Starts(y0 + 1);
    NextYear(y0);
  }

  // For every day count, before 1970 too, the closed form gives the date with that number.
  lemma ClosedFormIsRight(days: int)
    ensures Valid(DaysToYmd(days + 719468)) && DayNumber(DaysToYmd(days + 719468)) == days
  {
    var y0, doy := MarchYear(days + 719468);
    MarchDateNumber(y0, doy);
    MarchFirst(y0);
  }

  // ----- src/recording.rs -----

  // Year by year, then month by month.
  method DaysToYmdByLoop(days: nat) returns (t: Date)
    ensures Valid(t) && DayNumber(t) == days
    ensures t == DaysToYmd(days + 719468)
  {
    var y, remaining := YearLoop(days);
    var m;
    m, remaining := MonthLoop(y, remaining);
    t := Date(y, m, remaining + 1);
    ClosedFormIsRight(days);
    DayNumberInjective(t, DaysToYmd(days + 719468));
  }

  // Whole years from 1970 on.
  method YearLoop(days: nat) returns (y: int, remaining: int)
    ensures 0 <= remaining < YearLength(y) && YearStart(y) + remaining == days
  {
    y, remaining := 1970, days;
    while true
      invariant remaining >= 0 && YearStart(y) + remaining == days
      decreases remaining
    {
      var daysInYear := if Leap(y) then 366 else 365;
      if remaining < daysInYear { break; }
      NextYear(y);
      remaining := remaining - daysInYear;
      y := y + 1;
    }
  }

  // Whole months of that year.
  method MonthLoop(y: int, days: int) returns (m: int, remaining: int)
    requires 0 <= days < YearLength(y)
    ensures 1 <= m <= 12 && 0 <= remaining < MonthLength(y, m) && MonthStart(y, m) + remaining == days
  {
    var months := if Leap(y) then [31, 29, 31, 30, 31, 30, 31, 31, 30, 31, 30, 31]
                  else [31, 28, 31, 30, 31, 30, 31, 31, 30, 31, 30, 31];
    m, remaining := 1, days;
    Starts(y);
    while m <= 12
      invariant 1 <= m <= 13 && remaining >= 0 && MonthStart(y, m) + remaining == days
    {
      assert months[m - 1] == MonthLength(y, m);
      if remaining < months[m - 1] { break; }
      remaining := remaining - months[m - 1];
      m := m + 1;
    }
  }
}
