/** Days since 1970-01-01 and dates of the Gregorian calendar. */
module Calendar {
  const TWO32: int := 0x1_0000_0000

  datatype Date = Date(year: int, month: int, day: int)

  // ----- The code -----

  /** Division of C: toward zero */
  function Truncated(a: int, b: int): int
    requires b > 0
  {
    if a >= 0 then a / b else -((-a) / b)
  }

  /** Arithmetic on unsigned wraps; that on int64_t is taken not to overflow */
  function U32(a: int): (r: int)
    ensures 0 <= r < TWO32
  {
    a % TWO32
  }

  /** days_from_civil */
  function DaysFromCivil(year: int, month: int, day: int): int {
    var y := if month <= 2 then year - 1 else year;
    var era := Truncated(if y >= 0 then y else y - 399, 400);
    var yoe := U32(y - era * 400);
    var doy := U32(U32(153 * (if month > 2 then U32(month - 3) else U32(month + 9)) + 2) / 5 + day - 1);
    var doe := U32(yoe * 365 + yoe / 4 - yoe / 100 + doy);
    era * 146097 + doe - 719468
  }

  /** civil_from_days */
  function CivilFromDays(days: int): Date {
    var z := days + 719468;
    var era := Truncated(if z >= 0 then z else z - 146096, 146097);
    var doe := U32(z - era * 146097);
    var yoe := U32(doe - doe / 1460 + doe / 36524 - doe / 146096) / 365;
    var doy := U32(doe - (365 * yoe + yoe / 4 - yoe / 100));
    var mp := U32(5 * doy + 2) / 153;
    var day := U32(doy - (153 * mp + 2) / 5 + 1);
    var month := if mp < 10 then mp + 3 else U32(mp - 9);
    Date(U32(U32(yoe + era * 400) + if month <= 2 then 1 else 0), month, day)
  }

  // ----- The calendar -----

  predicate Leap(year: int) {
    year % 4 == 0 && (year % 100 != 0 || year % 400 == 0)
  }

  function DaysIn(year: int, month: int): int {
    if month == 2 then (if Leap(year) then 29 else 28)
    else if month in {4, 6, 9, 11} then 30
    else 31
  }

  predicate Valid(d: Date) {
    1 <= d.month <= 12 && 1 <= d.day <= DaysIn(d.year, d.month)
  }

  /** The day after */
  function Next(d: Date): Date {
    if d.day < DaysIn(d.year, d.month) then d.(day := d.day + 1)
    else if d.month < 12 then Date(d.year, d.month + 1, 1)
    else Date(d.year + 1, 1, 1)
  }

  // ----- Years that start in March -----

  /** Days of a 400-year era before its year `y` */
  function YearStart(y: int): int {
    365 * y + y / 4 - y / 100 + y / 400
  }

  /** Days of a year before its month `m`, March being 0 */
  function MonthStart(m: int): int {
    (153 * m + 2) / 5
  }

  function MonthOf(month: int): int {
    if month > 2 then month - 3 else month + 9
  }

  function MarchYear(d: Date): int {
    if d.month <= 2 then d.year - 1 else d.year
  }

  /** The day number, in whole numbers */
  function DayNumber(d: Date): int {
    MarchYear(d) / 400 * 146097 + YearStart(MarchYear(d) % 400) + MonthStart(MonthOf(d.month)) + d.day - 1 - 719468
  }

  function YearOfEra(doe: int): int {
    (doe - doe / 1460 + doe / 36524 - doe / 146096) / 365
  }

  /** The date, its year a whole number */
  function DateOf(days: int): Date {
    var z := days + 719468;
    var doe := z % 146097;
    var yoe := YearOfEra(doe);
    var doy := doe - YearStart(yoe);
    var mp := (5 * doy + 2) / 153;
    var month := if mp < 10 then mp + 3 else mp - 9;
    Date(z / 146097 * 400 + yoe + (if month <= 2 then 1 else 0), month, doy - MonthStart(mp) + 1)
  }

  // ----- Years and months of days -----

  /** Centuries, then groups of four years, then years */
  lemma YearSplit(c: int, q: int, t: int)
    requires 0 <= c <= 3 && 0 <= q <= 24 && 0 <= t <= 3
    ensures YearStart(100 * c + 4 * q + t) == 36524 * c + 1461 * q + 365 * t
  {
  }

  /** The formula with four divisions finds the year that a day of an era is in */
  lemma YearFound(doe: int)
    requires 0 <= doe < 146097
    ensures 0 <= YearOfEra(doe) <= 399
    ensures YearStart(YearOfEra(doe)) <= doe < YearStart(YearOfEra(doe) + 1)
  {
    hide YearStart, YearOfEra, Leap;
    var c := if doe == 146096 then 3 else doe / 36524;
    var r := doe - 36524 * c;
    var q := r / 1461;
    var s := r - 1461 * q;
    var t := if s == 1460 then 3 else s / 365;
    YearIs(doe, c, q, s, t);
    YearSplit(c, q, t);
    YearLength(100 * c + 4 * q + t);
    if s == 1460 {
      LeapDay(c, q);
    }
  }

  /** The one day that is left over in four years */
  lemma LeapDay(c: int, q: int)
    requires 0 <= c <= 3 && 0 <= q <= 24 && (q == 24 ==> c == 3)
    ensures Leap(100 * c + 4 * q + 3 + 1)
  {
    assert (100 * c + 4 * q + 4) % 4 == 0;
  }

  lemma YearIs(doe: int, c: int, q: int, s: int, t: int)
    requires 0 <= c <= 3 && 0 <= q <= 24 && 0 <= s <= 1460 && doe == 36524 * c + 1461 * q + s
    requires t == if s == 1460 then 3 else s / 365
    requires 1461 * q + s < 36524 || (c == 3 && 1461 * q + s == 36524)
    ensures YearOfEra(doe) == 100 * c + 4 * q + t
  {
    var over := if 24 * c + q + s >= 1460 then 1 else 0;
    assert doe / 1460 == 25 * c + q + over;
    assert doe / 36524 - doe / 146096 == c;
  }

  /** A year that starts in March ends with the February of the next */
  lemma YearLength(y: int)
    requires 0 <= y <= 399
    ensures YearStart(y + 1) == YearStart(y) + (if Leap(y + 1) then 366 else 365)
  {
    StepOf(y, 4);
    StepOf(y, 100);
    StepOf(y, 400);
    assert (y + 1) % 100 == 0 ==> (y + 1) % 4 == 0;
  }

  lemma StepOf(y: int, n: int)
    requires 0 <= y && n in {4, 100, 400}
    ensures (y + 1) / n == y / n + (if (y + 1) % n == 0 then 1 else 0)
  {
  }

  lemma MonthFound(doy: int)
    requires 0 <= doy <= 365
    ensures var mp := (5 * doy + 2) / 153; 0 <= mp <= 11 && MonthStart(mp) <= doy < MonthStart(mp + 1)
  {
  }

  /** Months have the lengths that the calendar gives them */
  lemma MonthLength(d: Date)
    requires 1 <= d.month <= 12
    ensures var mp := MonthOf(d.month);
            && 0 <= mp <= 11
            && (mp < 11 ==> MonthStart(mp + 1) == MonthStart(mp) + DaysIn(d.year, d.month))
            && (mp == 11 ==> d.month == 2 && MonthStart(11) == 337)
  {
  }

  // ----- The code computes the day number and the date -----

  lemma FlooredYears(y: int)
    ensures Truncated(if y >= 0 then y else y - 399, 400) == y / 400
  {
  }

  lemma FlooredDays(z: int)
    ensures Truncated(if z >= 0 then z else z - 146096, 146097) == z / 146097
  {
  }

  lemma Fits(a: int)
    requires 0 <= a < TWO32
    ensures U32(a) == a
  {
  }

  lemma Within(d: Date)
    requires Valid(d)
    ensures 0 <= MonthStart(MonthOf(d.month)) + d.day - 1
    ensures var y := MarchYear(d) % 400; MonthStart(MonthOf(d.month)) + d.day - 1 < YearStart(y + 1) - YearStart(y)
  {
    hide YearStart, MonthStart;
    MonthLength(d);
    MonthsFit(MonthOf(d.month));
    YearLength(MarchYear(d) % 400);
    LeapRepeats(MarchYear(d) + 1);
  }

  lemma MonthsFit(mp: int)
    requires 0 <= mp <= 11
    ensures 0 <= MonthStart(mp) && (mp < 11 ==> MonthStart(mp + 1) <= 337)
  {
  }

  lemma LeapRepeats(y: int)
    ensures Leap(y) == Leap((y - 1) % 400 + 1)
  {
    var k, r := (y - 1) / 400, (y - 1) % 400 + 1;
    assert y == 400 * k + r;
    Shift4(100 * k, r);
    Shift100(4 * k, r);
    Shift400(k, r);
  }

  lemma Shift4(k: int, r: int)
    ensures (4 * k + r) % 4 == r % 4 && (4 * k + r) / 4 == k + r / 4
  {
  }

  lemma Shift100(k: int, r: int)
    ensures (100 * k + r) % 100 == r % 100 && (100 * k + r) / 100 == k + r / 100
  {
  }

  lemma Shift400(k: int, r: int)
    ensures (400 * k + r) % 400 == r % 400 && (400 * k + r) / 400 == k + r / 400
  {
  }

  /** A date, or a 29 February of a year that has none */
  predicate Nearly(d: Date) {
    1 <= d.month <= 12 && 1 <= d.day <= DaysIn(4, d.month)
  }

  lemma NearlyDoy(d: Date)
    requires Nearly(d)
    ensures 0 <= MonthOf(d.month) <= 11 && 0 <= MonthStart(MonthOf(d.month)) + d.day - 1 <= 365
    ensures d.month > 2 ==> MonthStart(MonthOf(d.month)) + d.day - 1 <= 305
    ensures d.month <= 2 ==> 306 <= MonthStart(MonthOf(d.month)) + d.day - 1
  {
  }

  /** days_from_civil gives the day number of every date, of any year */
  lemma CodeCountsDays(d: Date)
    requires Nearly(d)
    ensures DaysFromCivil(d.year, d.month, d.day) == DayNumber(d)
  {
    hide Truncated, U32, YearStart, DaysIn, Nearly;
    NearlyDoy(d);
    var y := MarchYear(d);
    FlooredYears(y);
    YearBound(y % 400);
    assert y - y / 400 * 400 == y % 400;
    Fits(y % 400);
    Fits(MonthOf(d.month));
    Fits(153 * MonthOf(d.month) + 2);
    Fits(MonthStart(MonthOf(d.month)) + d.day - 1);
    Fits(YearStart(y % 400) + MonthStart(MonthOf(d.month)) + d.day - 1);
  }

  lemma YearBound(y: int)
    requires 0 <= y <= 399
    ensures 0 <= YearStart(y) <= YearStart(y + 1) <= 146097 && YearStart(y) == 365 * y + y / 4 - y / 100
  {
  }

  /** The date of a day of an era, all in 32 bits */
  lemma CodeInEra(doe: int)
    requires 0 <= doe < 146097
    ensures var yoe := YearOfEra(doe);
            var doy := doe - YearStart(yoe);
            && U32(doe) == doe
            && U32(doe - (365 * yoe + yoe / 4 - yoe / 100)) == doy
            && 0 <= doy <= 365
            && U32(5 * doy + 2) == 5 * doy + 2
  {
    hide YearStart, YearOfEra, Leap, U32;
    Fits(doe);
    YearFound(doe);
    var yoe := YearOfEra(doe);
    YearBound(yoe);
    YearLength(yoe);
    Fits(doe - YearStart(yoe));
    Fits(5 * (doe - YearStart(yoe)) + 2);
  }

  lemma CodeMonth(doy: int)
    requires 0 <= doy <= 365
    ensures var mp := (5 * doy + 2) / 153;
            && U32(doy - (153 * mp + 2) / 5 + 1) == doy - MonthStart(mp) + 1
            && (mp >= 10 ==> U32(mp - 9) == mp - 9)
  {
    hide U32;
    MonthFound(doy);
    var mp := (5 * doy + 2) / 153;
    Fits(doy - MonthStart(mp) + 1);
    if mp >= 10 {
      Fits(mp - 9);
    }
  }

  /** civil_from_days gives the date of every day, its year in 32 bits */
  lemma CodeFindsDate(days: int)
    ensures var d := DateOf(days); CivilFromDays(days) == Date(d.year % TWO32, d.month, d.day)
  {
    hide Truncated, YearStart, MonthStart, YearOfEra, U32;
    var z := days + 719468;
    FlooredDays(z);
    var doe := z % 146097;
    assert z - z / 146097 * 146097 == doe;
    CodeInEra(doe);
    YearBits(doe);
    var doy := doe - YearStart(YearOfEra(doe));
    CodeMonth(doy);
    var mp := (5 * doy + 2) / 153;
    YearWraps(YearOfEra(doe) + z / 146097 * 400, if (if mp < 10 then mp + 3 else mp - 9) <= 2 then 1 else 0);
  }

  lemma YearBits(doe: int)
    requires 0 <= doe < 146097
    ensures U32(doe - doe / 1460 + doe / 36524 - doe / 146096) / 365 == YearOfEra(doe)
  {
  }

  lemma YearWraps(y: int, more: int)
    ensures U32(U32(y) + more) == (y + more) % TWO32
  {
  }

  // ----- Inverses -----

  /** Every day has a date, and it is that date's day */
  lemma DayOfDate(days: int)
    ensures Valid(DateOf(days)) && DayNumber(DateOf(days)) == days
  {
    hide YearStart, MonthStart, YearOfEra, Leap;
    var z := days + 719468;
    var doe := z % 146097;
    var yoe := YearOfEra(doe);
    YearFound(doe);
    YearLength(yoe);
    var doy := doe - YearStart(yoe);
    MonthFound(doy);
    var d := DateOf(days);
    MonthLength(d);
    EraOf(z / 146097, yoe);
    assert MarchYear(d) == 400 * (z / 146097) + yoe;
    LeapRepeats(MarchYear(d) + 1);
  }

  lemma EraOf(era: int, yoe: int)
    requires 0 <= yoe <= 399
    ensures (400 * era + yoe) / 400 == era && (400 * era + yoe) % 400 == yoe
  {
  }

  lemma {:induction false} YearsGrow(x: int, y: int)
    requires 0 <= x < y <= 400
    ensures YearStart(x + 1) <= YearStart(y)
    decreases y
  {
    hide Leap;
    if x + 1 < y {
      YearsGrow(x, y - 1);
      YearLength(y - 1);
    }
  }

  /** One date for each day */
  lemma DateOfDay(d: Date)
    requires Valid(d)
    ensures DateOf(DayNumber(d)) == d
  {
    hide YearStart, MonthStart, YearOfEra, Leap;
    var y, doy := MarchYear(d), MonthStart(MonthOf(d.month)) + d.day - 1;
    Within(d);
    YearBound(y % 400);
    var doe := YearStart(y % 400) + doy;
    DaysOf(y / 400, doe);
    assert DayNumber(d) + 719468 == 146097 * (y / 400) + doe;
    YearFound(doe);
    if YearOfEra(doe) < y % 400 {
      YearsGrow(YearOfEra(doe), y % 400);
    } else if YearOfEra(doe) > y % 400 {
      YearsGrow(y % 400, YearOfEra(doe));
    }
    YearLength(y % 400);
    MonthIs(d);
  }

  lemma DaysOf(era: int, doe: int)
    requires 0 <= doe < 146097
    ensures (146097 * era + doe) / 146097 == era && (146097 * era + doe) % 146097 == doe
  {
  }

  lemma MonthIs(d: Date)
    requires Valid(d)
    ensures (5 * (MonthStart(MonthOf(d.month)) + d.day - 1) + 2) / 153 == MonthOf(d.month)
  {
  }

  // ----- The successor -----

  lemma NextDay(d: Date)
    requires Valid(d)
    ensures Valid(Next(d)) && DayNumber(Next(d)) == DayNumber(d) + 1
  {
    hide YearStart, MonthStart, Leap;
    MonthLength(d);
    if d.day == DaysIn(d.year, d.month) {
      MonthLength(Next(d));
      if d.month == 2 {
        NextMarch(d);
      }
    }
  }

  lemma NextMarch(d: Date)
    requires Valid(d) && d.month == 2 && d.day == DaysIn(d.year, 2)
    ensures DayNumber(Date(d.year, 3, 1)) == DayNumber(d) + 1
  {
    hide Leap, YearStart, DayNumber;
    Whole(d);
    Whole(Date(d.year, 3, 1));
    AnyYearLength(d.year - 1);
  }

  lemma AnyYearLength(y: int)
    ensures YearStart(y + 1) == YearStart(y) + (if Leap(y + 1) then 366 else 365)
  {
    hide Leap, YearStart;
    YearLength(y % 400);
    LeapRepeats(y + 1);
    assert 400 * (y / 400) + y % 400 == y;
    YearShift(y / 400, y % 400);
    YearShift(y / 400, y % 400 + 1);
  }

  // ----- What the code promises -----

  const FIRST_DAY: int := -719528          // 0000-01-01
  const LAST_DAY: int := 1568703873081     // 4294967295-12-31

  /** Day numbers without eras */
  lemma Whole(d: Date)
    ensures DayNumber(d) == YearStart(MarchYear(d)) + MonthStart(MonthOf(d.month)) + d.day - 1 - 719468
  {
    hide MonthStart;
    YearShift(MarchYear(d) / 400, MarchYear(d) % 400);
    assert 400 * (MarchYear(d) / 400) + MarchYear(d) % 400 == MarchYear(d);
  }

  lemma YearShift(era: int, r: int)
    ensures YearStart(400 * era + r) == 146097 * era + YearStart(r)
  {
    Shift4(100 * era, r);
    Shift100(4 * era, r);
    Shift400(era, r);
  }

  lemma YearsApart(x: int, y: int)
    requires x <= y
    ensures YearStart(x) + 365 * (y - x) <= YearStart(y)
  {
    Centuries(x);
    Centuries(y);
    assert x / 100 <= y / 100 && x / 400 <= y / 400;
  }

  lemma Centuries(k: int)
    ensures k / 4 - k / 100 == 24 * (k / 100) + k % 100 / 4
  {
    Shift4(25 * (k / 100), k % 100);
    assert 100 * (k / 100) + k % 100 == k;
  }

  function NewYear(year: int): int {
    YearStart(year - 1) + 306 - 719468
  }

  /** The days of a year are between its New Year and the next */
  lemma DayInYear(d: Date)
    requires Nearly(d)
    ensures NewYear(d.year) <= DayNumber(d) < NewYear(d.year + 1)
  {
    hide YearStart, DayNumber, DaysIn, Nearly, MonthStart;
    Whole(d);
    NearlyDoy(d);
    YearsApart(d.year - 1, d.year);
  }

  lemma YearOrder(x: int, y: int)
    requires x < y
    ensures NewYear(x + 1) <= NewYear(y)
  {
    hide YearStart;
    YearsApart(x, y - 1);
  }

  lemma Ends()
    ensures NewYear(0) == FIRST_DAY && NewYear(TWO32) == LAST_DAY + 1
  {
  }

  /** The days whose year fits in 32 bits */
  lemma DaysThatFit(days: int)
    ensures 0 <= DateOf(days).year < TWO32 <==> FIRST_DAY <= days <= LAST_DAY
  {
    hide DateOf, DayNumber, NewYear, Valid;
    DayOfDate(days);
    var d := DateOf(days);
    ValidIsNearly(d);
    DayInYear(d);
    Ends();
    ByYear(d.year, 0);
    ByYear(d.year, TWO32);
  }

  lemma ByYear(x: int, y: int)
    ensures x < y ==> NewYear(x + 1) <= NewYear(y)
    ensures x >= y ==> NewYear(x) >= NewYear(y)
  {
    if x < y {
      YearOrder(x, y);
    } else if x > y {
      YearOrder(y - 1, x);
    }
  }

  lemma ValidIsNearly(d: Date)
    requires Valid(d)
    ensures Nearly(d)
  {
    assert Leap(4);
  }

  /** From a day to its date and back: for the days whose year fits, and no others */
  lemma DaysRoundTrip(days: int)
    ensures var d := CivilFromDays(days);
            DaysFromCivil(d.year, d.month, d.day) == days <==> FIRST_DAY <= days <= LAST_DAY
  {
    hide DateOf, DayNumber, NewYear, Valid, CivilFromDays, DaysFromCivil, Nearly;
    var d, c := DateOf(days), CivilFromDays(days);
    CodeFindsDate(days);
    DayOfDate(days);
    ValidIsNearly(d);
    OtherYear(d, c);
    CodeCountsDays(c);
    DaysThatFit(days);
    DayInYear(d);
    DayInYear(c);
    ByYear(d.year, c.year);
    ByYear(c.year, d.year);
  }

  lemma OtherYear(d: Date, c: Date)
    requires Nearly(d) && c.month == d.month && c.day == d.day
    ensures Nearly(c)
  {
  }

  /** From a date to its day and back: for the years that fit, and no others */
  lemma DateRoundTrip(d: Date)
    requires Valid(d)
    ensures CivilFromDays(DaysFromCivil(d.year, d.month, d.day)) == d <==> 0 <= d.year < TWO32
  {
    hide DateOf, DayNumber, Valid, CivilFromDays, DaysFromCivil;
    ValidIsNearly(d);
    CodeCountsDays(d);
    DateOfDay(d);
    CodeFindsDate(DayNumber(d));
  }

  /** Each day's date is the calendar's successor of the day before's, from 0000-01-01
      to 4294967295-12-31 */
  lemma NextDayIsNextDate(days: int)
    requires FIRST_DAY <= days < LAST_DAY
    ensures CivilFromDays(days + 1) == Next(CivilFromDays(days))
  {
    hide DateOf, DayNumber, Valid, CivilFromDays, Next;
    CodeFindsDate(days);
    CodeFindsDate(days + 1);
    DaysThatFit(days);
    DaysThatFit(days + 1);
    DayOfDate(days);
    NextDay(DateOf(days));
    DateOfDay(Next(DateOf(days)));
  }

  /** Day 0 */
  lemma TheEpoch()
    ensures CivilFromDays(0) == Date(1970, 1, 1) && DaysFromCivil(1970, 1, 1) == 0
  {
    hide DaysFromCivil, CivilFromDays, DayNumber;
    var d := Date(1970, 1, 1);
    assert YearStart(1969) == 719162 && MonthStart(10) == 306;
    Whole(d);
    CodeCountsDays(d);
    DateRoundTrip(d);
  }
}
