/**
 * The proleptic Gregorian calendar underneath the JavaScript `Date` values that the
 * dispatch timer works with. A date-only value (a `Date` at local midnight) is a day
 * ordinal: the number of days since 1 January 1970. An instant is a number of
 * milliseconds since midnight of that day, every day lasting 86,400,000 ms (no time
 * zone, no daylight saving).
 */
module CivilCalendar {

  /** A date-only value: days since 1970-01-01. */
  type Day = int

  /** An instant: milliseconds since 1970-01-01 00:00:00.000 (`getTime()`). */
  type Time = int

  const MsPerDay: int := 86_400_000

  /** Year, month and day of the month as `getFullYear()`, `getMonth()` (0 = January)
      and `getDate()` report them. */
  datatype Civil = Civil(year: int, month: int, day: int)

  /** The date part of an instant (`new Date(y, m, d)` built from its fields). */
  function ToDateOnly(t: Time): (d: Day)
    ensures Midnight(d) <= t < Midnight(d) + MsPerDay
  {
    t / MsPerDay
  }

  /** The instant at which a day starts. */
  function Midnight(d: Day): Time
  {
    d * MsPerDay
  }

  /** Milliseconds elapsed since the start of the instant's day. */
  function TimeOfDay(t: Time): (ms: int)
    ensures 0 <= ms < MsPerDay
    ensures t == Midnight(ToDateOnly(t)) + ms
  {
    t % MsPerDay
  }

  lemma DateOfMidnight(d: Day, ms: int)
    requires 0 <= ms < MsPerDay
    ensures ToDateOnly(Midnight(d) + ms) == d
    ensures TimeOfDay(Midnight(d) + ms) == ms
  {
  }

  /** `getDay()`: 0 is Sunday, 6 is Saturday; 1 January 1970 was a Thursday. */
  function Weekday(d: Day): (w: int)
    ensures 0 <= w < 7
  {
    (d + 4) % 7
  }

  lemma WeekdayNext(d: Day)
    ensures Weekday(d + 1) == if Weekday(d) == 6 then 0 else Weekday(d) + 1
  {
  }

  /** The day ordinal of a year, 0-based month and day of the month, for months 0..11
      and days 1..31 (`new Date(year, month, day)` on a valid date). */
  function DaysFromCivil(year: int, month: int, day: int): Day
  {
    var m := month + 1;
    var y := if m <= 2 then year - 1 else year;
    var era := y / 400;
    var yoe := y % 400;
    var mp := if m > 2 then m - 3 else m + 9;
    var doy := (153 * mp + 2) / 5 + day - 1;
    var doe := yoe * 365 + yoe / 4 - yoe / 100 + doy;
    era * 146097 + doe - 719468
  }

  /** 1 January 1970 is day 0; the day of the month plus one is the next day, and the
      day after 31 December is 1 January of the next year, as `setDate(getDate() + 1)`
      rolls over. */
  lemma DaysFromCivilSteps(year: int, month: int, day: int)
    requires 0 <= month < 12
    ensures DaysFromCivil(1970, 0, 1) == 0
    ensures DaysFromCivil(year, month, day + 1) == DaysFromCivil(year, month, day) + 1
    ensures DaysFromCivil(year, 11, 31) + 1 == DaysFromCivil(year + 1, 0, 1)
  {
  }

  /** Splits a day of a 400-year era (counted from 1 March of the era's first year)
      into a year of the era and a day of that March-based year. */
  function SplitEra(doe: int): (r: (int, int))
    requires 0 <= doe < 146097
    ensures 0 <= r.0 < 400 && 0 <= r.1 <= 365
    ensures doe == r.0 * 365 + r.0 / 4 - r.0 / 100 + r.1
  {
    var c := if doe / 36524 < 3 then doe / 36524 else 3;
    var r1 := doe - 36524 * c;
    assert 0 <= r1 <= 36524;
    var q := r1 / 1461;
    var r2 := r1 % 1461;
    assert 0 <= q <= 24;
    var y4 := if r2 / 365 < 3 then r2 / 365 else 3;
    var doy := r2 - 365 * y4;
    var yoe := 100 * c + 4 * q + y4;
    assert yoe / 4 == 25 * c + q;
    assert yoe / 100 == c;
    (yoe, doy)
  }

  /** Splits a day of a March-based year into a month (0 = March) and a day of the month. */
  function SplitYear(doy: int): (r: (int, int))
    requires 0 <= doy <= 365
    ensures 0 <= r.0 < 12 && 1 <= r.1 <= 31
    ensures (153 * r.0 + 2) / 5 + r.1 - 1 == doy
  {
    var mp := (5 * doy + 2) / 153;
    (mp, doy - (153 * mp + 2) / 5 + 1)
  }

  /** The fields `getFullYear()`, `getMonth()` and `getDate()` of a day. */
  function CivilFromDays(d: Day): (c: Civil)
    ensures 0 <= c.month < 12 && 1 <= c.day <= 31
    ensures DaysFromCivil(c.year, c.month, c.day) == d
  {
    var z := d + 719468;
    var era := z / 146097;
    var doe := z % 146097;
    assert z == era * 146097 + doe;
    CivilOfEraDay(era, doe)
  }

  /** The date `doe` days after 1 March of the first year of era `era` (eras of 400
      years, era 0 starting in the year 0). */
  function CivilOfEraDay(era: int, doe: int): (c: Civil)
    requires 0 <= doe < 146097
    ensures 0 <= c.month < 12 && 1 <= c.day <= 31
    ensures DaysFromCivil(c.year, c.month, c.day) == era * 146097 + doe - 719468
  {
    var (yoe, doy) := SplitEra(doe);
    var (mp, dom) := SplitYear(doy);
    var m := if mp < 10 then mp + 3 else mp - 9;
    var c := Civil(yoe + era * 400 + (if m <= 2 then 1 else 0), m - 1, dom);
    CivilFieldsToDays(era, yoe, mp, dom, doe, c);
    c
  }

  lemma DivMod400(a: int, q: int, r: int)
    requires a == q * 400 + r && 0 <= r < 400
    ensures a / 400 == q && a % 400 == r
  {
  }

  /** `DaysFromCivil` undoes the last steps of `CivilFromDays`: the year rebuilt from
      an era and a year of the era, and the month from a March-based month. */
  lemma CivilFieldsToDays(era: int, yoe: int, mp: int, dom: int, doe: int, c: Civil)
    requires 0 <= yoe < 400 && 0 <= mp < 12
    requires doe == yoe * 365 + yoe / 4 - yoe / 100 + ((153 * mp + 2) / 5 + dom - 1)
    requires var m := if mp < 10 then mp + 3 else mp - 9;
      c == Civil(yoe + era * 400 + (if m <= 2 then 1 else 0), m - 1, dom)
    ensures DaysFromCivil(c.year, c.month, c.day) == era * 146097 + doe - 719468
  {
    var m := if mp < 10 then mp + 3 else mp - 9;
    var year := yoe + era * 400 + (if m <= 2 then 1 else 0);
    var y := if m <= 2 then year - 1 else year;
    assert y == yoe + era * 400;
    DivMod400(y, era, yoe);
    assert (if m > 2 then m - 3 else m + 9) == mp;
  }

  /** Two days with the same year, month and day of the month are the same day. */
  lemma CivilInjective(a: Day, b: Day)
    ensures CivilFromDays(a) == CivilFromDays(b) <==> a == b
  {
  }
}
