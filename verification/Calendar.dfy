/** The request time stamps of the Route 53 client, against the Gregorian calendar taken day by day. */
module Calendar {
  import opened Text

  datatype Date = Date(year: int, month: int, day: int)

  predicate IsLeap(year: int) {
    year % 4 == 0 && (year % 100 != 0 || year % 400 == 0)
  }

  function DaysInMonth(year: int, month: int): int {
    if month == 2 then (if IsLeap(year) then 29 else 28)
    else if month in {4, 6, 9, 11} then 30
    else 31
  }

  predicate IsDate(d: Date) {
    1 <= d.month <= 12 && 1 <= d.day <= DaysInMonth(d.year, d.month)
  }

  /** Turning a page of the calendar. */
  function NextDay(d: Date): Date {
    if d.day < DaysInMonth(d.year, d.month) then Date(d.year, d.month, d.day + 1)
    else if d.month < 12 then Date(d.year, d.month + 1, 1)
    else Date(d.year + 1, 1, 1)
  }

  /** The date so many days after 1 January 1970. */
  function DateAfter(days: nat): Date {
    if days == 0 then Date(1970, 1, 1) else NextDay(DateAfter(days - 1))
  }

  // ---- the closed form ----

  // An era is 400 years: 365 * 400 + 97 = 146097 days.

  function YearOfEra(doe: int): int {
    (doe - doe / 1460 + doe / 36524 - doe / 146096) / 365
  }

  function YearStart(yoe: int): int {
    365 * yoe + yoe / 4 - yoe / 100
  }

  /** Days of the year that starts on 1 March of year `yoe` of an era. */
  function YearLength(yoe: int): int {
    if IsLeap(yoe + 1) then 366 else 365
  }

  /**
   * A year of an era counted in centuries, leap cycles and years: the corrections of the closed
   * form take out exactly the leap days passed, the one of the current year included.
   */
  lemma YearOfEraParts(c: int, a: int, b: int, o: int)
    requires 0 <= c < 4 && 0 <= a < 25 && 0 <= b < 4
    requires 0 <= o < (if b == 3 && !(a == 24 && c < 3) then 366 else 365)
    ensures YearOfEra(36524 * c + 1461 * a + 365 * b + o) == 100 * c + 4 * a + b
  {
    var r := 1461 * a + 365 * b + o;
    var doe := 36524 * c + r;
    if r == 36524 {
      assert doe <= 146096 && c == 3;
    } else {
      assert doe / 36524 == c;
      var e := if a + 365 * b + o + 24 * c >= 1460 then 1 else 0;
      assert doe / 1460 == 25 * c + a + e;
      assert (36500 * c + 1460 * a + 365 * b + o - e) / 365 == 100 * c + 4 * a + b;
    }
  }

  lemma YearOfEraIs(yoe: int, doy: int)
    requires 0 <= yoe < 400 && 0 <= doy < YearLength(yoe)
    ensures YearOfEra(YearStart(yoe) + doy) == yoe
  {
    var c, k := yoe / 100, yoe % 100;
    var a, b := k / 4, k % 4;
    assert yoe == 100 * c + 4 * a + b;
    assert yoe / 4 == 25 * c + a;
    assert YearStart(yoe) == 36524 * c + 1461 * a + 365 * b;
    YearOfEraParts(c, a, b, doy);
  }

  /** First day of the month `mp` months after March, counted from 1 March. */
  function MonthStart(mp: int): int {
    (153 * mp + 2) / 5
  }

  function MonthNumber(mp: int): int {
    if mp < 10 then mp + 3 else mp - 9
  }

  /** The date of a day counted from 1 March of the years of an era. */
  function FromMarch(era: int, yoe: int, doy: int): Date {
    var mp := (5 * doy + 2) / 153;
    Date(YearAt(era, yoe, MonthNumber(mp)), MonthNumber(mp), doy - MonthStart(mp) + 1)
  }

  /** Months from March on last 31, 30, 31, 30, 31 days, and so on again, up to January. */
  lemma MonthTable(mp: int)
    requires 0 <= mp < 11
    ensures MonthStart(mp + 1) - MonthStart(mp) == if mp in {1, 3, 6, 8} then 30 else 31
  {
    assert mp == 0 || mp == 1 || mp == 2 || mp == 3 || mp == 4 || mp == 5
        || mp == 6 || mp == 7 || mp == 8 || mp == 9 || mp == 10;
  }

  lemma Period4(year: int, era: int)
    ensures (year + era * 400) % 4 == year % 4
  {
    var q := year / 4;
    assert year + era * 400 == 4 * (q + 100 * era) + year % 4;
  }

  lemma Period100(year: int, era: int)
    ensures (year + era * 400) % 100 == year % 100
  {
    var q := year / 100;
    assert year + era * 400 == 100 * (q + 4 * era) + year % 100;
  }

  lemma Period400(year: int, era: int)
    ensures (year + era * 400) % 400 == year % 400
  {
    var q := year / 400;
    assert year + era * 400 == 400 * (q + era) + year % 400;
  }

  lemma LeapPeriod(year: int, era: int)
    ensures IsLeap(year + era * 400) == IsLeap(year)
  {
    Period4(year, era);
    Period100(year, era);
    Period400(year, era);
  }

  function YearAt(era: int, yoe: int, month: int): int {
    yoe + era * 400 + (if month <= 2 then 1 else 0)
  }

  lemma MonthLengths(era: int, yoe: int, mp: int)
    requires 0 <= mp < 12 && 0 <= yoe < 400
    ensures DaysInMonth(YearAt(era, yoe, MonthNumber(mp)), MonthNumber(mp))
         == (if mp < 11 then MonthStart(mp + 1) else YearLength(yoe)) - MonthStart(mp)
  {
    if mp < 11 {
      MonthTable(mp);
    } else {
      LeapPeriod(yoe + 1, era);
      assert MonthStart(11) == 337;
    }
  }

  lemma MonthOfDay(doy: int, mp: int)
    requires 0 <= mp < 12 && MonthStart(mp) <= doy < (if mp < 11 then MonthStart(mp + 1) else 367)
    ensures (5 * doy + 2) / 153 == mp
  {
  }

  lemma MonthHasDay(doy: int) returns (mp: int)
    requires 0 <= doy < 366
    ensures 0 <= mp < 12 && mp == (5 * doy + 2) / 153
    ensures MonthStart(mp) <= doy < (if mp < 11 then MonthStart(mp + 1) else 366)
  {
    mp := (5 * doy + 2) / 153;
  }

  lemma NextDayOfYear(era: int, yoe: int, doy: int)
    requires 0 <= yoe < 400 && 0 <= doy && doy + 1 < YearLength(yoe)
    ensures NextDay(FromMarch(era, yoe, doy)) == FromMarch(era, yoe, doy + 1)
    ensures IsDate(FromMarch(era, yoe, doy))
  {
    var mp := MonthHasDay(doy);
    MonthLengths(era, yoe, mp);
    if mp < 11 && doy + 1 == MonthStart(mp + 1) {
      MonthTable(mp);
      if mp < 10 {
        MonthTable(mp + 1);
      }
      MonthOfDay(doy + 1, mp + 1);
    } else {
      MonthOfDay(doy + 1, mp);
    }
  }

  lemma NextYear(era: int, yoe: int)
    requires 0 <= yoe < 400
    ensures var last := FromMarch(era, yoe, YearLength(yoe) - 1);
      && IsDate(last)
      && NextDay(last) == if yoe < 399 then FromMarch(era, yoe + 1, 0) else FromMarch(era + 1, 0, 0)
  {
    assert MonthStart(11) == 337;
    MonthOfDay(YearLength(yoe) - 1, 11);
    MonthLengths(era, yoe, 11);
  }

  lemma YearsAbut(yoe: int)
    requires 0 <= yoe < 400
    ensures YearStart(yoe) + YearLength(yoe) == if yoe < 399 then YearStart(yoe + 1) else 146097
  {
    Next4(yoe);
    Next100(yoe);
  }

  lemma Next4(y: int)
    ensures (y + 1) / 4 == y / 4 + (if (y + 1) % 4 == 0 then 1 else 0)
  {
  }

  lemma Next100(y: int)
    ensures (y + 1) / 100 == y / 100 + (if (y + 1) % 100 == 0 then 1 else 0)
    ensures (y + 1) % 100 == 0 ==> (y + 1) % 4 == 0
  {
  }

  /** The closed form of `amz_timestamps`. */
  function Civil(days: nat): Date {
    var z := days + 719468;
    var era := z / 146097;
    var doe := z - era * 146097;
    var yoe := YearOfEra(doe);
    FromMarch(era, yoe, doe - YearStart(yoe))
  }

  lemma CivilIs(days: nat, era: int, yoe: int, doy: int)
    requires 0 <= yoe < 400 && 0 <= doy < YearLength(yoe)
    requires days + 719468 == 146097 * era + YearStart(yoe) + doy
    ensures Civil(days) == FromMarch(era, yoe, doy)
  {
    YearWithinEra(yoe);
    assert (days + 719468) / 146097 == era;
    YearOfEraIs(yoe, doy);
  }

  lemma YearWithinEra(yoe: int)
    requires 0 <= yoe < 400
    ensures 0 <= YearStart(yoe) && YearStart(yoe) + YearLength(yoe) <= 146097
  {
  }

  lemma Advance(era: int, yoe: int, doy: int) returns (era': int, yoe': int, doy': int)
    requires 0 <= yoe < 400 && 0 <= doy < YearLength(yoe)
    ensures 0 <= yoe' < 400 && 0 <= doy' < YearLength(yoe')
    ensures 146097 * era' + YearStart(yoe') + doy' == 146097 * era + YearStart(yoe) + doy + 1
    ensures NextDay(FromMarch(era, yoe, doy)) == FromMarch(era', yoe', doy')
  {
    if doy + 1 < YearLength(yoe) {
      NextDayOfYear(era, yoe, doy);
      era', yoe', doy' := era, yoe, doy + 1;
    } else {
      NextYear(era, yoe);
      YearsAbut(yoe);
      era', yoe', doy' := if yoe < 399 then era else era + 1, if yoe < 399 then yoe + 1 else 0, 0;
    }
  }

  /** Stepping the calendar keeps to the count of eras, years and days since 1 March. */
  lemma {:induction false} DateAfterIs(days: nat) returns (era: int, yoe: int, doy: int)
    ensures 0 <= yoe < 400 && 0 <= doy < YearLength(yoe)
    ensures days + 719468 == 146097 * era + YearStart(yoe) + doy
    ensures DateAfter(days) == FromMarch(era, yoe, doy)
  {
    if days == 0 {
      era, yoe, doy := 4, 369, 306;
    } else {
      era, yoe, doy := DateAfterIs(days - 1);
      era, yoe, doy := Advance(era, yoe, doy);
    }
  }

  lemma DateInRange(era: int, yoe: int, doy: int)
    requires 0 <= yoe < 400 && 0 <= doy < YearLength(yoe)
    ensures IsDate(FromMarch(era, yoe, doy))
  {
    if doy + 1 < YearLength(yoe) {
      NextDayOfYear(era, yoe, doy);
    } else {
      NextYear(era, yoe);
    }
  }

  /** For every day since 1970 the closed form is the date the calendar shows, a valid one. */
  lemma CivilIsTheCalendar(days: nat)
    ensures Civil(days) == DateAfter(days) && IsDate(Civil(days))
  {
    var era, yoe, doy := DateAfterIs(days);
    CivilIs(days, era, yoe, doy);
    DateInRange(era, yoe, doy);
  }

  // ---- order ----

  ghost predicate Before(a: Date, b: Date) {
    a.year < b.year || (a.year == b.year && (a.month < b.month || (a.month == b.month && a.day < b.day)))
  }

  lemma {:induction false} DatesIncrease(m: nat, n: nat)
    requires m < n
    ensures Before(DateAfter(m), DateAfter(n))
  {
    CivilIsTheCalendar(n - 1);
    if m < n - 1 {
      DatesIncrease(m, n - 1);
    }
  }

  lemma YearsFrom1970(n: nat)
    ensures 1970 <= DateAfter(n).year && IsDate(DateAfter(n))
  {
    CivilIsTheCalendar(n);
    if n > 0 {
      DatesIncrease(0, n);
    }
  }

  lemma DatesDiffer(m: nat, n: nat)
    requires m != n
    ensures DateAfter(m) != DateAfter(n)
  {
    DatesIncrease(if m < n then m else n, if m < n then n else m);
  }

  // ---- the stamps ----

  function DateStamp(year: nat, month: nat, day: nat): string {
    Padded(year, 4) + Padded(month, 2) + Padded(day, 2)
  }

  function ClockStamp(hour: nat, min: nat, sec: nat): string {
    Padded(hour, 2) + Padded(min, 2) + Padded(sec, 2)
  }

  /** The calendar's date and the clock's time after so many seconds. */
  ghost function DateText(unixSecs: nat): string {
    YearsFrom1970(unixSecs / 86400);
    var d := DateAfter(unixSecs / 86400);
    DateStamp(d.year, d.month, d.day)
  }

  ghost function ClockText(unixSecs: nat): string {
    var tod := unixSecs % 86400;
    ClockStamp(tod / 3600, tod % 3600 / 60, tod % 60)
  }

  ghost function Stamp(unixSecs: nat): string {
    DateText(unixSecs) + "T" + ClockText(unixSecs) + "Z"
  }

  /** The civil-from-days part of `amz_timestamps`. */
  method CivilFromDays(days: nat) returns (year: int, month: int, day: int)
    ensures Date(year, month, day) == DateAfter(days)
    ensures IsDate(DateAfter(days)) && year >= 1970
  {
    var z := days + 719468;
    var era := z / 146097;
    var doe := z - era * 146097;
    var yoe := YearOfEra(doe);
    year := yoe + era * 400;
    var doy := doe - YearStart(yoe);
    var mp := (5 * doy + 2) / 153;
    day := doy - MonthStart(mp) + 1;
    month := MonthNumber(mp);
    if month <= 2 {
      year := year + 1;
    }
    assert Civil(days) == Date(year, month, day);
    CivilSince1970(days);
  }

  lemma CivilSince1970(days: nat)
    ensures Civil(days) == DateAfter(days) && IsDate(DateAfter(days)) && DateAfter(days).year >= 1970
  {
    CivilIsTheCalendar(days);
    YearsFrom1970(days);
  }

  method AmzTimestamps(unixSecs: nat) returns (long: string, short: string)
    ensures short == DateText(unixSecs)
    ensures long == Stamp(unixSecs)
  {
    var year, month, day := CivilFromDays(unixSecs / 86400);
    var tod := unixSecs % 86400;
    var hour := tod / 3600;
    var min := (tod % 3600) / 60;
    var sec := tod % 60;
    short := DateStamp(year, month, day);
    long := short + "T" + ClockStamp(hour, min, sec) + "Z";
  }

  /** The fields of a stamp give back the second. */
  lemma FieldsRecompose(s: nat, t: nat)
    requires DateAfter(s / 86400) == DateAfter(t / 86400)
    requires s % 86400 / 3600 == t % 86400 / 3600 && s % 86400 % 3600 / 60 == t % 86400 % 3600 / 60 && s % 86400 % 60 == t % 86400 % 60
    ensures s == t
  {
    if s / 86400 != t / 86400 {
      DatesDiffer(s / 86400, t / 86400);
    }
    TimeOfDay(s % 86400);
    TimeOfDay(t % 86400);
  }

  lemma TimeOfDay(tod: nat)
    ensures tod / 3600 * 3600 + tod % 3600 / 60 * 60 + tod % 60 == tod
  {
  }

  lemma PaddedOrder(m: nat, n: nat, width: nat)
    requires m < n < Pow10(width) && width > 0
    ensures LexLess(Padded(m, width), Padded(n, width))
  {
    PaddedIsFixed(m, width);
    PaddedIsFixed(n, width);
    FixedOrder(m, n, width);
  }

  lemma ThreeTexts(a: string, b: string, c: string, x: string, y: string, z: string)
    requires LexLess(a, x) || (a == x && (LexLess(b, y) || (b == y && LexLess(c, z))))
    ensures LexLess(a + b + c, x + y + z)
  {
    if LexLess(a, x) {
      LexExtend("", a, x, b + c, y + z);
      assert "" + a + (b + c) == a + b + c && "" + x + (y + z) == x + y + z;
    } else if LexLess(b, y) {
      LexExtend(a, b, y, c, z);
    } else {
      LexExtend(a + b, c, z, "", "");
      assert a + b + c + "" == a + b + c && a + b + z + "" == x + y + z;
    }
  }

  lemma ThreeFields(a: nat, b: nat, c: nat, x: nat, y: nat, z: nat, width: nat)
    requires width > 0 && a < Pow10(width) && x < Pow10(width) && b < Pow10(2) && c < Pow10(2) && y < Pow10(2) && z < Pow10(2)
    requires a < x || (a == x && (b < y || (b == y && c < z)))
    ensures LexLess(Padded(a, width) + Padded(b, 2) + Padded(c, 2), Padded(x, width) + Padded(y, 2) + Padded(z, 2))
  {
    if a < x {
      PaddedOrder(a, x, width);
    } else if b < y {
      PaddedOrder(b, y, 2);
    } else {
      PaddedOrder(c, z, 2);
    }
    ThreeTexts(Padded(a, width), Padded(b, 2), Padded(c, 2), Padded(x, width), Padded(y, 2), Padded(z, 2));
  }

  lemma Powers()
    ensures Pow10(2) == 100 && Pow10(4) == 10000
  {
    assert Pow10(4) == 10 * Pow10(3) && Pow10(3) == 10 * Pow10(2) && Pow10(2) == 10 * Pow10(1);
  }

  lemma DateTextsIncrease(s: nat, t: nat)
    requires s / 86400 < t / 86400 && DateAfter(t / 86400).year <= 9999
    ensures LexLess(DateText(s), DateText(t))
  {
    var a, b := DateAfter(s / 86400), DateAfter(t / 86400);
    YearsFrom1970(s / 86400);
    YearsFrom1970(t / 86400);
    DatesIncrease(s / 86400, t / 86400);
    Powers();
    ThreeFields(a.year, a.month, a.day, b.year, b.month, b.day, 4);
  }

  lemma ClockTextsIncrease(s: nat, t: nat)
    requires s % 86400 < t % 86400
    ensures LexLess(ClockText(s), ClockText(t))
  {
    var u, v := s % 86400, t % 86400;
    Powers();
    ThreeFields(u / 3600, u % 3600 / 60, u % 60, v / 3600, v % 3600 / 60, v % 60, 2);
  }

  lemma SameDay(s: nat, t: nat)
    requires s / 86400 == t / 86400
    ensures DateText(s) == DateText(t)
  {
  }

  lemma StampOrder(a: string, b: string, u: string, v: string)
    requires LexLess(a, b) || (a == b && LexLess(u, v))
    ensures LexLess(a + "T" + u + "Z", b + "T" + v + "Z")
  {
    if LexLess(a, b) {
      LexExtend("", a, b, "T" + u + "Z", "T" + v + "Z");
      assert "" + a + ("T" + u + "Z") == a + "T" + u + "Z";
      assert "" + b + ("T" + v + "Z") == b + "T" + v + "Z";
    } else {
      LexExtend(a + "T", u, v, "Z", "Z");
    }
  }

  /** Up to the year 9999 a later second has a later stamp, as text. */
  lemma StampsIncrease(s: nat, t: nat)
    requires s < t && DateAfter(t / 86400).year <= 9999
    ensures LexLess(Stamp(s), Stamp(t))
  {
    if s / 86400 < t / 86400 {
      DateTextsIncrease(s, t);
    } else {
      LaterToday(s, t);
      SameDay(s, t);
      ClockTextsIncrease(s, t);
    }
    StampOrder(DateText(s), DateText(t), ClockText(s), ClockText(t));
  }

  lemma LaterToday(s: nat, t: nat)
    requires s < t && s / 86400 >= t / 86400
    ensures s / 86400 == t / 86400 && s % 86400 < t % 86400
  {
  }
}
