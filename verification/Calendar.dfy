/** Calendar arithmetic: civil dates of the proleptic Gregorian calendar (ISO 8601:2004, section 3.2.1)
 and day numbers, day 0 being 1 January 1970. */
module Calendar {

  /** Integer division as in the source language: towards zero. */
  function Div(a: int, b: nat): int
    requires b > 0
  {
    if a >= 0 then a / b else -((-a) / b)
  }

  datatype Date = Date(y: int, m: int, d: int)

  // ---------------------------------------------------------------- the formulas

  function DaysFromCivil(y0: int, m: int, d: int): int {
    var y := y0 - if m <= 2 then 1 else 0;
    var era := Div(if y >= 0 then y else y - 399, 400);
    var yoe := y - era * 400;
    var doy := Div(153 * (m + if m > 2 then -3 else 9) + 2, 5) + d - 1;
    var doe := yoe * 365 + Div(yoe, 4) - Div(yoe, 100) + doy;
    era * 146097 + doe - 719468
  }

  function CivilFromDays(z0: int): Date {
    var z := z0 + 719468;
    var era := Div(if z >= 0 then z else z - 146096, 146097);
    var doe := z - era * 146097;
    var yoe := Div(doe - Div(doe, 1460) + Div(doe, 36524) - Div(doe, 146096), 365);
    var y := yoe + era * 400;
    var doy := doe - (365 * yoe + Div(yoe, 4) - Div(yoe, 100));
    var mp := Div(5 * doy + 2, 153);
    var d := doy - Div(153 * mp + 2, 5) + 1;
    var m := mp + if mp < 10 then 3 else -9;
    Date(y + if m <= 2 then 1 else 0, m, d)
  }

  // ---------------------------------------------------------------- the calendar

  predicate Leap(y: int) { (y % 4 == 0 && y % 100 != 0) || y % 400 == 0 }

  function MonthLength(y: int, m: int): int {
    if m == 2 then (if Leap(y) then 29 else 28)
    else if m == 4 || m == 6 || m == 9 || m == 11 then 30
    else 31
  }

  predicate Valid(t: Date) { 1 <= t.m <= 12 && 1 <= t.d <= MonthLength(t.y, t.m) }

  function NextDay(t: Date): Date {
    if t.d < MonthLength(t.y, t.m) then Date(t.y, t.m, t.d + 1)
    else if t.m < 12 then Date(t.y, t.m + 1, 1)
    else Date(t.y + 1, 1, 1)
  }

  predicate Before(a: Date, b: Date) { a.y < b.y || (a.y == b.y && (a.m < b.m || (a.m == b.m && a.d < b.d))) }

  // ---------------------------------------------------------------- years that begin in March

  /** The days of an era before its `n`-th year. */
  function YearStart(n: nat): nat { 365 * n + n / 4 - n / 100 }

  /** The days of a year before its month `n`, March being month 0. */
  function MonthStart(n: nat): nat { (153 * n + 2) / 5 }

  /** The length of year `n` of an era; its last day is the one in front of the next 1 March. */
  function YearLength(n: nat): nat { if Leap(n + 1) then 366 else 365 }

  /** An era's day number, in which year it lies, and how far in. */
  lemma YearStep(n: nat)
    requires n < 400
    ensures YearStart(n + 1) == YearStart(n) + YearLength(n) - if n == 399 then 1 else 0
  {
  }

  /** Day `k` of year `n` of the `q`-th four years of century `b` of an era; 365 is a leap day. */
  predicate Counted(b: nat, q: nat, n: nat, k: nat) {
    b < 4 && q < 25 && n < 4 && k < 366 && (k == 365 ==> n == 3 && (q < 24 || b == 3))
  }

  function EraDay(b: nat, q: nat, n: nat, k: nat): nat { 36524 * b + 1461 * q + 365 * n + k }

  /** The formula finds the year of an era's day. */
  lemma FormulaYear(b: nat, q: nat, n: nat, k: nat)
    requires Counted(b, q, n, k)
    ensures var doe := EraDay(b, q, n, k);
      doe < 146097 && (doe - doe / 1460 + doe / 36524 - doe / 146096) / 365 == 100 * b + 4 * q + n
  {
    var doe := EraDay(b, q, n, k);
    var u := 24 * b + q + 365 * n + k;
    var w := if u >= 1460 then 1 else 0;
    assert doe / 1460 == 25 * b + q + w;
    var last := if doe == 146096 then 1 else 0;
    assert doe / 146096 == last && doe / 36524 == b + last;
  }

  lemma YearStartIs(b: nat, q: nat, n: nat)
    requires b < 4 && q < 25 && n < 4
    ensures YearStart(100 * b + 4 * q + n) == 36524 * b + 1461 * q + 365 * n
    ensures YearLength(100 * b + 4 * q + n) == if n == 3 && (q < 24 || b == 3) then 366 else 365
  {
  }

  /** Every day of an era is counted. */
  lemma Count(doe: nat) returns (b: nat, q: nat, n: nat, k: nat)
    requires doe < 146097
    ensures Counted(b, q, n, k) && doe == EraDay(b, q, n, k)
  {
    if doe == 146096 {
      b, q, n, k := 3, 24, 3, 365;
    } else {
      b := doe / 36524;
      var r := doe % 36524;
      q := r / 1461;
      var t := r % 1461;
      n := if t == 1460 then 3 else t / 365;
      k := t - 365 * n;
    }
  }

  /** The year of an era that its day `doe` is in. */
  lemma YearOfDay(doe: nat)
    requires doe < 146097
    ensures var yoe := (doe - doe / 1460 + doe / 36524 - doe / 146096) / 365;
      0 <= yoe < 400 && YearStart(yoe) <= doe < YearStart(yoe) + YearLength(yoe)
  {
    var b, q, n, k := Count(doe);
    FormulaYear(b, q, n, k);
    YearStartIs(b, q, n);
  }

  /** And conversely, a day in a year has that year. */
  lemma DayOfYear(yoe: nat, k: nat)
    requires yoe < 400 && k < YearLength(yoe)
    ensures var doe := YearStart(yoe) + k;
      doe < 146097 && (doe - doe / 1460 + doe / 36524 - doe / 146096) / 365 == yoe
  {
    hide YearStart, YearLength, EraDay;
    var b, q, n := yoe / 100, yoe % 100 / 4, yoe % 4;
    Digits(yoe);
    YearStartIs(b, q, n);
    DayIs(b, q, n, k);
    FormulaYear(b, q, n, k);
  }

  lemma DayIs(b: nat, q: nat, n: nat, k: nat)
    ensures EraDay(b, q, n, k) == 36524 * b + 1461 * q + 365 * n + k
  {
  }

  lemma Digits(yoe: nat)
    requires yoe < 400
    ensures var b, q, n := yoe / 100, yoe % 100 / 4, yoe % 4;
      b < 4 && q < 25 && n < 4 && yoe == 100 * b + 4 * q + n
  {
  }

  // ---------------------------------------------------------------- months

  /** The length of month `n`, March being month 0, of a year of `len` days. */
  function MarchMonthLength(n: nat, len: nat): int {
    if n == 11 then len - MonthStart(11) else MonthStart(n + 1) - MonthStart(n)
  }

  lemma MonthOfDay(doy: nat, len: nat)
    requires doy < len && (len == 365 || len == 366)
    ensures var mp := (5 * doy + 2) / 153;
      0 <= mp < 12 && MonthStart(mp) <= doy < MonthStart(mp) + MarchMonthLength(mp, len)
  {
  }

  lemma DayOfMonth(mp: nat, k: nat, len: nat)
    requires mp < 12 && (len == 365 || len == 366) && k < MarchMonthLength(mp, len)
    ensures (5 * (MonthStart(mp) + k) + 2) / 153 == mp && MonthStart(mp) + k < len
  {
  }

  // ---------------------------------------------------------------- both ways

  /** The year that begins in March before the date, and the month in it. */
  function MarchYear(t: Date): int { t.y - if t.m <= 2 then 1 else 0 }

  function MarchMonth(t: Date): int { t.m + if t.m > 2 then -3 else 9 }

  lemma EraOf(y: int)
    ensures Div(if y >= 0 then y else y - 399, 400) == y / 400
  {
  }

  lemma EraOfDay(z: int)
    ensures Div(if z >= 0 then z else z - 146096, 146097) == z / 146097
  {
  }

  /** The month's length is the same in both ways of counting. */
  lemma LengthIs(t: Date)
    requires Valid(t)
    ensures 0 <= MarchMonth(t) < 12
    ensures MonthLength(t.y, t.m) == MarchMonthLength(MarchMonth(t), YearLength(MarchYear(t) % 400))
  {
    var y := MarchYear(t) % 400;
    assert Leap(y + 1) <==> Leap(MarchYear(t) + 1) by { LeapEra(MarchYear(t)); }
  }

  lemma LeapEra(y: int)
    ensures Leap(y % 400 + 1) <==> Leap(y + 1)
  {
    ModFour(y);
    ModHundred(y);
    ModWhole(y);
  }

  lemma ModFour(y: int)
    ensures (y % 400 + 1) % 4 == (y + 1) % 4
  {
  }

  lemma ModHundred(y: int)
    ensures (y % 400 + 1) % 100 == (y + 1) % 100
  {
  }

  lemma ModWhole(y: int)
    ensures (y % 400 + 1) % 400 == (y + 1) % 400
  {
  }

  /** The day number, in eras, years and months that begin in March. */
  lemma DaysAre(t: Date)
    requires 1 <= t.m <= 12
    ensures var y := MarchYear(t);
      DaysFromCivil(t.y, t.m,
          t.d) == y / 400 * 146097 + YearStart(y % 400) + MonthStart(MarchMonth(t)) + t.d - 1 - 719468
  {
    EraOf(MarchYear(t));
  }

  lemma CivilIs(z: int, yoe: nat, mp: nat, k: nat)
    requires yoe < 400 && mp < 12 && k < MarchMonthLength(mp, YearLength(yoe))
    requires (z + 719468) % 146097 == YearStart(yoe) + MonthStart(mp) + k
    ensures var y := yoe + (z + 719468) / 146097 * 400;
      CivilFromDays(z) == Date(y + if mp >= 10 then 1 else 0, if mp < 10 then mp + 3 else mp - 9, k + 1)
  {
    hide YearStart, YearLength, MarchMonthLength, MonthStart, CivilFromDays, Div;
    YearStartAs(yoe);
    MonthStartAs(mp);
    EraOfDay(z + 719468);
    DayOfMonth(mp, k, YearLength(yoe));
    DayOfYear(yoe, MonthStart(mp) + k);
    var era, doe := (z + 719468) / 146097, (z + 719468) % 146097;
    var doy := MonthStart(mp) + k;
    DivIs(doe, 1460); DivIs(doe, 36524); DivIs(doe, 146096);
    DivIs(doe - doe / 1460 + doe / 36524 - doe / 146096, 365);
    DivIs(5 * doy + 2, 153);
    CivilFinish(z, era, doe, yoe, doy, mp);
  }

  lemma DivIs(a: nat, b: nat)
    requires b > 0
    ensures Div(a, b) == a / b
  {
  }

  /** The formula, its intermediate results given. */
  lemma CivilFinish(z: int, era: int, doe: int, yoe: int, doy: int, mp: int)
    requires era == Div(if z + 719468 >= 0 then z + 719468 else z + 719468 - 146096, 146097)
        && doe == z + 719468 - era * 146097
    requires yoe == Div(doe - Div(doe, 1460) + Div(doe, 36524) - Div(doe, 146096), 365)
    requires doy == doe - (365 * yoe + Div(yoe, 4) - Div(yoe, 100)) && mp == Div(5 * doy + 2, 153) && 0 <= mp < 12
    ensures CivilFromDays(z) == Date(yoe + era * 400 + if mp >= 10 then 1 else 0, if mp < 10 then mp + 3 else mp - 9,
                                     doy - Div(153 * mp + 2, 5) + 1)
  {
    hide Div;
  }

  lemma YearStartAs(n: nat)
    ensures YearStart(n) == 365 * n + Div(n, 4) - Div(n, 100)
    ensures YearLength(n) == 365 || YearLength(n) == 366
  {
  }

  lemma MonthStartAs(n: nat)
    ensures MonthStart(n) == Div(153 * n + 2, 5)
  {
  }

  /** A date's day number leads back to the date. */
  lemma DateRoundTrip(t: Date)
    requires Valid(t)
    ensures CivilFromDays(DaysFromCivil(t.y, t.m, t.d)) == t
  {
    var z := DaysFromCivil(t.y, t.m, t.d);
    var y, mp, k := MarchYear(t), MarchMonth(t), t.d - 1;
    DaysAre(t);
    LengthIs(t);
    var doe := YearStart(y % 400) + MonthStart(mp) + k;
    DayOfMonth(mp, k, YearLength(y % 400));
    DayOfYear(y % 400, MonthStart(mp) + k);
    assert (z + 719468) / 146097 == y / 400 && (z + 719468) % 146097 == doe;
    CivilIs(z, y % 400, mp, k);
  }

  /** Every day number has a date, and the date that number. */
  lemma DayRoundTrip(z: int)
    ensures var t := CivilFromDays(z); Valid(t) && DaysFromCivil(t.y, t.m, t.d) == z
  {
    hide DaysFromCivil, CivilFromDays, YearStart;
    var doe := (z + 719468) % 146097;
    var era := (z + 719468) / 146097;
    YearOfDay(doe);
    var yoe := (doe - doe / 1460 + doe / 36524 - doe / 146096) / 365;
    var doy := doe - YearStart(yoe);
    MonthOfDay(doy, YearLength(yoe));
    var mp := (5 * doy + 2) / 153;
    var k := doy - MonthStart(mp);
    CivilIs(z, yoe, mp, k);
    var t := CivilFromDays(z);
    var y := yoe + era * 400;
    assert MarchYear(t) == y && MarchMonth(t) == mp;
    assert y / 400 == era && y % 400 == yoe;
    LeapEra(y);
    DaysAre(t);
  }

  /** The next day has the next number. */
  lemma NextDayIsNext(t: Date)
    requires Valid(t)
    ensures var n := NextDay(t); Valid(n) && DaysFromCivil(n.y, n.m, n.d) == DaysFromCivil(t.y, t.m, t.d) + 1
  {
    hide DaysFromCivil, YearStart;
    var n := NextDay(t);
    DaysAre(t);
    DaysAre(n);
    LengthIs(t);
    if t.d < MonthLength(t.y, t.m) {
      assert MarchYear(n) == MarchYear(t) && MarchMonth(n) == MarchMonth(t);
    } else if t.m == 2 {
      var y := MarchYear(t);
      YearStep(y % 400);
      NoDaysBefore();
      assert MarchYear(n) == y + 1 && MarchMonth(n) == 0 && MarchMonth(t) == 11;
      NextYear(y);
    } else {
      MonthEnds(t);
    }
  }

  lemma NoDaysBefore()
    ensures YearStart(0) == 0 && YearStart(400) == 146096
  {
  }

  lemma NextYear(y: int)
    ensures if y % 400 == 399 then (y + 1) / 400 == y / 400 + 1 && (y + 1) % 400 == 0
            else (y + 1) / 400 == y / 400 && (y + 1) % 400 == y % 400 + 1
  {
  }

  lemma MonthEnds(t: Date)
    requires Valid(t) && t.d == MonthLength(t.y, t.m) && t.m != 2
    ensures var n := NextDay(t);
      MarchYear(n) == MarchYear(t) && MarchMonth(n) == MarchMonth(t) + 1
        && MonthStart(MarchMonth(n)) == MonthStart(MarchMonth(t)) + t.d
  {
  }

  /** The first day of the count. */
  lemma EpochIsDayZero()
    ensures DaysFromCivil(1970, 1, 1) == 0 && CivilFromDays(0) == Date(1970, 1, 1)
  {
    hide CivilFromDays;
    DateRoundTrip(Date(1970, 1, 1));
  }

  /** Later dates have greater numbers. */
  lemma {:induction false} DaysOrdered(a: Date, b: Date, n: nat)
    requires Valid(a) && Valid(b)
    requires DaysFromCivil(b.y, b.m, b.d) == DaysFromCivil(a.y, a.m, a.d) + n
    ensures n > 0 ==> Before(a, b)
    ensures n == 0 ==> a == b
    decreases n
  {
    hide DaysFromCivil, CivilFromDays;
    if n == 0 {
      DateRoundTrip(a); DateRoundTrip(b);
    } else {
      NextDayIsNext(a);
      var c := NextDay(a);
      DaysOrdered(c, b, n - 1);
    }
  }
}
