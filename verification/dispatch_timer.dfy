/**
 * The dispatch timer itself: its configuration, the daily 21:00 cutoff, the date an
 * order placed now is dispatched from, the delivery window of business days after it,
 * and the values the timer's display shows. Dates are day ordinals and instants are
 * milliseconds, as in `CivilCalendar`.
 */
module DispatchTimer {

  import opened Wrappers
  import opened CivilCalendar
  import opened BusinessDays
  import opened Countdown
  import opened Chars

  // ---------- configuration ----------

  /** The daily customer-facing cutoff, 21:00:00.000, as milliseconds after midnight. */
  const CutoffTimeOfDay: int := 21 * 3_600_000

  /** The built-in holiday list, written as `new Date(year, monthIndex, day)` is: the
      month is counted from 0, so `(2025, 3, 18)` is 18 April 2025. */
  const DefaultHolidays: seq<Day> := Holidays2025 + Holidays2026

  const Holidays2025: seq<Day> := [
    DaysFromCivil(2025, 3, 18), DaysFromCivil(2025, 3, 21), DaysFromCivil(2025, 4, 5),
    DaysFromCivil(2025, 4, 26), DaysFromCivil(2025, 7, 25), DaysFromCivil(2025, 11, 24),
    DaysFromCivil(2025, 11, 25), DaysFromCivil(2025, 11, 26), DaysFromCivil(2025, 11, 31)
  ]

  const Holidays2026: seq<Day> := [
    DaysFromCivil(2026, 0, 1), DaysFromCivil(2026, 3, 3), DaysFromCivil(2026, 3, 6),
    DaysFromCivil(2026, 4, 4), DaysFromCivil(2026, 4, 25), DaysFromCivil(2026, 7, 31),
    DaysFromCivil(2026, 11, 24), DaysFromCivil(2026, 11, 25), DaysFromCivil(2026, 11, 28)
  ]

  /** The options object the timer is built from; a number option that is not a
      number is `None`. */
  datatype Options = Options(
    holidays: Option<seq<Day>>,
    courierMin: Option<int>,
    courierMax: Option<int>,
    trackedThreshold: Option<int>)

  /** The settings the timer works with: the holiday list, the lead time window in
      business days and the lead time from which the tracked-delivery note shows. */
  datatype Config = Config(holidays: seq<Day>, courierMin: int, courierMax: int, trackedThreshold: int)

  function OrDefault(o: Option<int>, fallback: int): int
  {
    match o
    case None => fallback
    case Some(v) => v
  }

  /** The constructor: every option that is given replaces its default. A given
      holiday list replaces the built-in one even when it is empty. */
  function Configure(opts: Options): (c: Config)
    ensures c.holidays == if opts.holidays.Some? then opts.holidays.value else DefaultHolidays
    ensures opts.courierMin.Some? ==> c.courierMin == opts.courierMin.value
    ensures opts.courierMin.None? ==> c.courierMin == 4
    ensures opts.courierMax.Some? ==> c.courierMax == opts.courierMax.value
    ensures opts.courierMax.None? ==> c.courierMax == 6
    ensures opts.trackedThreshold.Some? ==> c.trackedThreshold == opts.trackedThreshold.value
    ensures opts.trackedThreshold.None? ==> c.trackedThreshold == 2
  {
    Config(
      match opts.holidays case None => DefaultHolidays case Some(hs) => hs,
      OrDefault(opts.courierMin, 4),
      OrDefault(opts.courierMax, 6),
      OrDefault(opts.trackedThreshold, 2))
  }

  /** With no options the timer works with the built-in holidays and a 4 to 6 business
      day window, and shows the tracked note. */
  lemma DefaultConfiguration()
    ensures var c := Configure(Options(None, None, None, None));
      c == Config(DefaultHolidays, 4, 6, 2) && c.courierMin <= c.courierMax
      && c.courierMin >= c.trackedThreshold
  {
  }

  /** The built-in holidays as day ordinals. */
  lemma DefaultHolidayOrdinals()
    ensures DefaultHolidays == [
      20196, 20199, 20213, 20234, 20325, 20446, 20447, 20448, 20453,
      20454, 20546, 20549, 20577, 20598, 20696, 20811, 20812, 20815]
  {
    Holidays2025Ordinals();
    Holidays2026Ordinals();
  }

  lemma Holidays2025Ordinals()
    ensures Holidays2025 == [20196, 20199, 20213, 20234, 20325, 20446, 20447, 20448, 20453]
  {
  }

  lemma Holidays2026Ordinals()
    ensures Holidays2026 == [20454, 20546, 20549, 20577, 20598, 20696, 20811, 20812, 20815]
  {
  }

  // ---------- the cutoff ----------

  /** The next cutoff: today's 21:00 when `now` is before it, else tomorrow's. It is
      a 21:00 strictly after `now` and at most a day after it. */
  function NextCutoff(now: Time): (c: Time)
    ensures now < c <= now + MsPerDay && TimeOfDay(c) == CutoffTimeOfDay
  {
    var d := ToDateOnly(now);
    DateOfMidnight(d, CutoffTimeOfDay);
    DateOfMidnight(d + 1, CutoffTimeOfDay);
    assert Midnight(d + 1) == Midnight(d) + MsPerDay;
    var today := Midnight(d) + CutoffTimeOfDay;
    if now < today then today else today + MsPerDay
  }

  /** No 21:00 lies between `now` and the next cutoff: it is the first one. */
  lemma NextCutoffIsFirst(now: Time)
    ensures forall t :: now < t < NextCutoff(now) ==> TimeOfDay(t) != CutoffTimeOfDay
  {
    var d := ToDateOnly(now);
    DateOfMidnight(d, CutoffTimeOfDay);
    DateOfMidnight(d + 1, CutoffTimeOfDay);
    assert Midnight(d + 1) == Midnight(d) + MsPerDay;
  }

  /** `getCurrentCutoff`: today at 21:00, moved on by one day unless `now` is strictly
      before it. */
  method CurrentCutoff(now: Time) returns (cutoff: Time)
    ensures cutoff == NextCutoff(now)
    ensures now < cutoff <= now + MsPerDay && TimeOfDay(cutoff) == CutoffTimeOfDay
    ensures ToDateOnly(cutoff) == if TimeOfDay(now) < CutoffTimeOfDay then ToDateOnly(now)
                                  else ToDateOnly(now) + 1
  {
    NextCutoffIsFirst(now);
    var d := ToDateOnly(now);
    DateOfMidnight(d, CutoffTimeOfDay);
    DateOfMidnight(d + 1, CutoffTimeOfDay);
    cutoff := Midnight(d) + CutoffTimeOfDay;
    if now < cutoff {
      return;
    }
    cutoff := cutoff + MsPerDay;
  }

  // ---------- the order base date ----------

  /** The day orders placed at `now` are dispatched from: the first business day on or
      after the day of the next cutoff. */
  function OrderBaseDate(holidays: seq<Day>, now: Time): Day
  {
    FirstBusinessFrom(holidays, ToDateOnly(NextCutoff(now)))
  }

  /** The day of the next cutoff is today before 21:00 and tomorrow from 21:00 on. */
  lemma CutoffDay(now: Time)
    ensures ToDateOnly(NextCutoff(now))
         == if TimeOfDay(now) < CutoffTimeOfDay then ToDateOnly(now) else ToDateOnly(now) + 1
  {
    var d := ToDateOnly(now);
    DateOfMidnight(d, CutoffTimeOfDay);
    DateOfMidnight(d + 1, CutoffTimeOfDay);
  }

  /** The base date is a business day, never before today and never before the day
      of the next cutoff, and no business day is skipped on the way to it. */
  lemma OrderBaseDateProperties(holidays: seq<Day>, now: Time)
    ensures var b := OrderBaseDate(holidays, now);
      IsBusinessDay(holidays, b) && ToDateOnly(now) <= ToDateOnly(NextCutoff(now)) <= b
      && forall k :: ToDateOnly(NextCutoff(now)) <= k < b ==> !IsBusinessDay(holidays, k)
  {
    CutoffDay(now);
  }

  /** `getOrderBaseDate`: today's date, moved on by one day from 21:00 on, then
      ensured to be a business day. */
  method GetOrderBaseDate(holidays: seq<Day>, now: Time) returns (base: Day)
    ensures base == OrderBaseDate(holidays, now)
    ensures IsBusinessDay(holidays, base) && ToDateOnly(now) <= base
  {
    OrderBaseDateProperties(holidays, now);
    CutoffDay(now);
    var cutoffToday := Midnight(ToDateOnly(now)) + CutoffTimeOfDay;
    var day := ToDateOnly(now);
    if now >= cutoffToday {
      day := day + 1;
    }
    DateOfMidnight(day, 0);
    base := EnsureBusinessDay(holidays, Midnight(day));
  }

  // ---------- the delivery window ----------

  /** The delivery window `_updateDOM` computes: it starts `courierMin` and ends
      `courierMax` business days after the order base date. */
  method DeliveryWindow(cfg: Config, now: Time) returns (start: Day, end: Day)
    ensures var base := OrderBaseDate(cfg.holidays, now);
      start == NthBusinessDayAfter(cfg.holidays, base, cfg.courierMin)
      && end == NthBusinessDayAfter(cfg.holidays, base, cfg.courierMax)
    ensures cfg.courierMin <= cfg.courierMax ==> start <= end
  {
    var base := GetOrderBaseDate(cfg.holidays, now);
    DateOfMidnight(base, 0);
    start := AddBusinessDays(cfg.holidays, Midnight(base), cfg.courierMin);
    end := AddBusinessDays(cfg.holidays, Midnight(base), cfg.courierMax);
    if cfg.courierMin <= cfg.courierMax {
      WindowOrdered(cfg.holidays, base, cfg.courierMin, cfg.courierMax);
    }
  }

  /** Adding more business days never gives an earlier day. */
  lemma WindowOrdered(holidays: seq<Day>, base: Day, lo: int, hi: int)
    requires lo <= hi
    ensures NthBusinessDayAfter(holidays, base, lo) <= NthBusinessDayAfter(holidays, base, hi)
  {
    if lo < hi {
      if lo < 0 {
        if hi > 0 {
          NthMonotone(holidays, base, 0, hi);
        }
      } else {
        NthMonotone(holidays, base, lo, hi);
      }
    }
  }

  /** Each end of the window with a positive lead time is a business day that is
      exactly that many business days after the base date. */
  lemma DeliveryWindowProperties(cfg: Config, now: Time, n: int)
    requires n == cfg.courierMin || n == cfg.courierMax
    requires n > 0
    ensures var base := OrderBaseDate(cfg.holidays, now);
      var r := NthBusinessDayAfter(cfg.holidays, base, n);
      base < r && IsBusinessDay(cfg.holidays, r) && CountBusinessDays(cfg.holidays, base, r) == n
  {
    NthCount(cfg.holidays, OrderBaseDate(cfg.holidays, now), n);
  }

  // ---------- the display ----------

  /** Decimal notation of an integer, as `'' + n` gives it. */
  function IntToString(n: int): (s: string)
    ensures |s| >= 1 && (n < 0 <==> s[0] == '-')
    ensures forall i :: 0 <= i < |s| ==> s[i] == '-' || IsDigit(s[i])
  {
    if n < 0 then "-" + NatToString(-n) else NatToString(n)
  }

  /** What `_updateDOM` writes: the countdown, the lead time text, the first and last
      delivery dates (before they are formatted) and whether the tracked note shows. */
  datatype Display = Display(
    countdown: string,
    estimate: string,
    deliveryStart: Day,
    deliveryEnd: Day,
    showTrackedNote: bool)

  /** The countdown `_updateDOM` writes: the milliseconds left until the next cutoff,
      always positive and at most a day, so the countdown never shows "00s", rendered
      by `_formatCountdown`; the text reads back as the whole seconds left. */
  method CountdownToCutoff(now: Time) returns (millis: int, text: string)
    ensures millis == NextCutoff(now) - now && 0 < millis <= MsPerDay
    ensures text == RenderDuration(SplitSeconds(millis / 1000))
    ensures ParseCountdown(text) == Some(millis / 1000)
  {
    var cutoff := CurrentCutoff(now);
    millis := cutoff - now;
    text := FormatCountdown(millis);
    RenderReadsBack(SplitSeconds(millis / 1000));
  }

  /** The lead time text `_updateDOM` writes, such as "4–6 working days": the text
      before its first en dash is `courierMin`, the text between that dash and
      " working days" is `courierMax`. */
  function EstimateText(cfg: Config): (s: string)
    ensures var lo := IntToString(cfg.courierMin);
      |lo| < |s| && s[..|lo|] == lo && s[|lo|] == '–' && '–' !in lo
      && |s| >= |lo| + 14 && s[|lo| + 1..|s| - 13] == IntToString(cfg.courierMax)
      && s[|s| - 13..] == " working days"
  {
    IntToString(cfg.courierMin) + "–" + IntToString(cfg.courierMax) + " working days"
  }

  /** `_updateDOM` without the document: the values it computes at `now`. */
  method UpdateDisplay(cfg: Config, now: Time) returns (d: Display)
    ensures var base := OrderBaseDate(cfg.holidays, now);
      d.deliveryStart == NthBusinessDayAfter(cfg.holidays, base, cfg.courierMin)
      && d.deliveryEnd == NthBusinessDayAfter(cfg.holidays, base, cfg.courierMax)
    ensures cfg.courierMin <= cfg.courierMax ==> d.deliveryStart <= d.deliveryEnd
    ensures d.countdown == RenderDuration(SplitSeconds((NextCutoff(now) - now) / 1000))
    ensures ParseCountdown(d.countdown) == Some((NextCutoff(now) - now) / 1000)
    ensures d.estimate == EstimateText(cfg)
    ensures d.showTrackedNote <==> cfg.courierMin >= cfg.trackedThreshold
  {
    var start, end := DeliveryWindow(cfg, now);
    var millis, text := CountdownToCutoff(now);
    d := Display(text, EstimateText(cfg), start, end, cfg.courierMin >= cfg.trackedThreshold);
  }

  // ---------- worked examples ----------

  /** At exactly 21:00 the cutoff is already tomorrow's: the countdown shows a full
      day, not zero. */
  lemma CountdownAtCutoff(now: Time)
    requires TimeOfDay(now) == CutoffTimeOfDay
    ensures NextCutoff(now) - now == MsPerDay
    ensures RenderDuration(SplitSeconds((NextCutoff(now) - now) / 1000)) == "1d 00h 00m 00s"
  {
    assert (NextCutoff(now) - now) / 1000 == 86400;
    assert SplitSeconds(86400) == Duration(1, 0, 0, 0);
    assert NatToString(1) == "1" && Pad2(0) == "00";
  }

  /** Christmas 2025: 24, 25 and 26 December are holidays and 27 and 28 a weekend, so
      an order placed on Tuesday 23 December at 21:30 is dispatched from Monday
      29 December. */
  lemma ChristmasOrder()
    ensures OrderBaseDate(DefaultHolidays, Midnight(20445) + 21 * 3_600_000 + 1_800_000) == 20451
  {
    DefaultHolidayOrdinals();
    var now := Midnight(20445) + 21 * 3_600_000 + 1_800_000;
    CutoffDay(now);
    assert ToDateOnly(now) == 20445 by {
      DateOfMidnight(20445, 21 * 3_600_000 + 1_800_000);
    }
    assert TimeOfDay(now) >= CutoffTimeOfDay by {
      DateOfMidnight(20445, 21 * 3_600_000 + 1_800_000);
    }
    forall k | 20446 <= k < 20451
      ensures !IsBusinessDay(DefaultHolidays, k)
    {
    }
    assert IsBusinessDay(DefaultHolidays, 20451);
    FirstBusinessFromUnique(DefaultHolidays, 20446, 20451);
  }
}
