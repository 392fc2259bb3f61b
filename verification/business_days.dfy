/**
 * Holidays and business days of the dispatch timer: the holiday test, the
 * business-day predicate and the three walkers that move a date forward one calendar
 * day at a time (next business day, ensure business day, add n business days).
 *
 * The walkers are methods with the source's loops; each is proved equal to a
 * specification function below, and the properties of the walk are lemmas about
 * those functions.
 */
module BusinessDays {
  import opened CivilCalendar

  /** Two dates fall on the same calendar day when their year, month and day of the
      month agree; the time of day plays no part. Comparing the three fields is
      comparing days. */
  predicate IsSameDate(a: Day, b: Day): (same: bool)
    ensures same <==> a == b
  {
    CivilInjective(a, b);
    CivilFromDays(a) == CivilFromDays(b)
  }

  /** A date is a holiday when it is on the list. The source compares year, month and
      day of the month against each entry; `CheckHoliday` does that, and
      `IsSameDate` shows it is the same as being listed. */
  predicate IsHoliday(holidays: seq<Day>, date: Day)
  {
    date in holidays
  }

  /** The holiday test as the source runs it: a scan of the list that stops at the
      first entry on the same calendar day as `date`, whatever its time of day. */
  method CheckHoliday(holidays: seq<Day>, date: Time) returns (found: bool)
    ensures found <==> exists i :: 0 <= i < |holidays| && IsSameDate(holidays[i], ToDateOnly(date))
    ensures found == IsHoliday(holidays, ToDateOnly(date))
  {
    var day := ToDateOnly(date);
    for i := 0 to |holidays|
      invariant forall j :: 0 <= j < i ==> holidays[j] != day
    {
      if IsSameDate(holidays[i], day) {
        return true;
      }
    }
    return false;
  }

  /** Monday to Friday (`getDay()` 1..5) and not a holiday. */
  predicate IsBusinessDay(holidays: seq<Day>, date: Day)
  {
    var dow := Weekday(date);
    dow > 0 && dow < 6 && !IsHoliday(holidays, date)
  }

  /** `_isBusinessDay`, calling the holiday scan; only the date part of `date` counts. */
  method CheckBusinessDay(holidays: seq<Day>, date: Time) returns (ok: bool)
    ensures ok <==> 1 <= Weekday(ToDateOnly(date)) <= 5 && ToDateOnly(date) !in holidays
    ensures ok == IsBusinessDay(holidays, ToDateOnly(date))
  {
    var dow := Weekday(ToDateOnly(date));
    var holiday := CheckHoliday(holidays, date);
    ok := dow > 0 && dow < 6 && !holiday;
  }

  // ---------- termination of the walks ----------

  /** A day no earlier than every listed holiday. */
  function LastHoliday(holidays: seq<Day>): (last: Day)
    ensures forall i :: 0 <= i < |holidays| ==> holidays[i] <= last
  {
    if |holidays| == 0 then 0
    else
      var rest := LastHoliday(holidays[1..]);
      if holidays[0] < rest then rest else holidays[0]
  }

  /** The first Monday on or after a day. */
  function FirstMondayFrom(d: Day): (m: Day)
    ensures d <= m < d + 7 && Weekday(m) == 1
  {
    d + (8 - Weekday(d)) % 7
  }

  /** A business day on or after `d`: the first Monday after the last holiday and
      not before `d`. Every walk below stops at or before it. */
  function Horizon(holidays: seq<Day>, d: Day): (h: Day)
    ensures d <= h
  {
    var last := LastHoliday(holidays);
    FirstMondayFrom(if d <= last then last + 1 else d)
  }

  lemma HorizonIsBusinessDay(holidays: seq<Day>, d: Day)
    ensures IsBusinessDay(holidays, Horizon(holidays, d))
  {
    var h := Horizon(holidays, d);
    assert h !in holidays;
  }

  /** Stepping past a day that is not a business day keeps the horizon where it is. */
  lemma HorizonStep(holidays: seq<Day>, d: Day)
    requires !IsBusinessDay(holidays, d)
    ensures Horizon(holidays, d + 1) == Horizon(holidays, d)
  {
    var last := LastHoliday(holidays);
    if d > last {
      assert Weekday(d) == 0 || Weekday(d) == 6;
    }
  }

  // ---------- specification of the walks ----------

  /** The earliest business day on or after `d`. */
  function FirstBusinessFrom(holidays: seq<Day>, d: Day): (r: Day)
    ensures d <= r && IsBusinessDay(holidays, r)
    ensures forall k :: d <= k < r ==> !IsBusinessDay(holidays, k)
    decreases Horizon(holidays, d) - d
  {
    if IsBusinessDay(holidays, d) then d
    else
      HorizonIsBusinessDay(holidays, d);
      HorizonStep(holidays, d);
      FirstBusinessFrom(holidays, d + 1)
  }

  /** The earliest business day strictly after `d`. */
  function NextBusinessAfter(holidays: seq<Day>, d: Day): (r: Day)
    ensures d < r && IsBusinessDay(holidays, r)
    ensures forall k :: d < k < r ==> !IsBusinessDay(holidays, k)
  {
    FirstBusinessFrom(holidays, d + 1)
  }

  /** The n-th business day after `d`, and `d` itself when n is not positive. */
  function NthBusinessDayAfter(holidays: seq<Day>, d: Day, n: int): (r: Day)
    ensures d <= r
    ensures n > 0 ==> d < r && IsBusinessDay(holidays, r)
    decreases n
  {
    if n <= 0 then d
    else NthBusinessDayAfter(holidays, NextBusinessAfter(holidays, d), n - 1)
  }

  /** The number of business days in the half-open range (lo, hi]. */
  function CountBusinessDays(holidays: seq<Day>, lo: Day, hi: Day): nat
    decreases hi - lo
  {
    if hi <= lo then 0
    else CountBusinessDays(holidays, lo, hi - 1) + (if IsBusinessDay(holidays, hi) then 1 else 0)
  }

  // ---------- the walkers ----------

  /** `_nextBusinessDay`: drops the time of day, steps one day, then keeps stepping
      while the day is not a business day. */
  method NextBusinessDay(holidays: seq<Day>, date: Time) returns (r: Day)
    ensures r == NextBusinessAfter(holidays, ToDateOnly(date))
  {
    ghost var target := NextBusinessAfter(holidays, ToDateOnly(date));
    var nd := ToDateOnly(date);
    nd := nd + 1;
    var ok := CheckBusinessDay(holidays, Midnight(nd));
    while !ok
      invariant ToDateOnly(date) < nd <= target
      invariant ok == IsBusinessDay(holidays, nd)
      decreases target - nd
    {
      nd := nd + 1;
      ok := CheckBusinessDay(holidays, Midnight(nd));
    }
    r := nd;
  }

  /** `_ensureBusinessDay`: drops the time of day, then steps forward while the day is
      not a business day. */
  method EnsureBusinessDay(holidays: seq<Day>, date: Time) returns (r: Day)
    ensures r == FirstBusinessFrom(holidays, ToDateOnly(date))
  {
    ghost var target := FirstBusinessFrom(holidays, ToDateOnly(date));
    var d := ToDateOnly(date);
    var ok := CheckBusinessDay(holidays, Midnight(d));
    while !ok
      invariant ToDateOnly(date) <= d <= target
      invariant ok == IsBusinessDay(holidays, d)
      decreases target - d
    {
      d := d + 1;
      ok := CheckBusinessDay(holidays, Midnight(d));
    }
    r := d;
  }

  /** One step of the walk in `AddBusinessDays`: from `d` with `n > 0` business days
      still to go, moving to `d + 1` uses up one of them exactly when `d + 1` is a
      business day. */
  lemma NthStep(holidays: seq<Day>, d: Day, n: int)
    requires n > 0
    ensures NthBusinessDayAfter(holidays, d, n)
         == if IsBusinessDay(holidays, d + 1) then NthBusinessDayAfter(holidays, d + 1, n - 1)
            else NthBusinessDayAfter(holidays, d + 1, n)
  {
    if !IsBusinessDay(holidays, d + 1) {
      assert NextBusinessAfter(holidays, d) == NextBusinessAfter(holidays, d + 1);
    }
  }

  /** `_addBusinessDays`: drops the time of day, then steps one day at a time, counting
      down `n` on every business day reached, until `n` is no longer positive. */
  method AddBusinessDays(holidays: seq<Day>, date: Time, n: int) returns (r: Day)
    ensures r == NthBusinessDayAfter(holidays, ToDateOnly(date), n)
  {
    var result := ToDateOnly(date);
    var left := n;
    while left > 0
      invariant NthBusinessDayAfter(holidays, ToDateOnly(date), n)
             == NthBusinessDayAfter(holidays, result, left)
      decreases left, NextBusinessAfter(holidays, result) - result
    {
      NthStep(holidays, result, left);
      ghost var next := NextBusinessAfter(holidays, result);
      result := result + 1;
      var ok := CheckBusinessDay(holidays, Midnight(result));
      if ok {
        left := left - 1;
      } else {
        assert NextBusinessAfter(holidays, result) == next;
      }
    }
    r := result;
  }

  // ---------- properties of the walks ----------

  /** The earliest business day on or after `d` is pinned down by being a business day
      on or after `d` with none before it. */
  lemma FirstBusinessFromUnique(holidays: seq<Day>, d: Day, r: Day)
    requires d <= r && IsBusinessDay(holidays, r)
    requires forall k :: d <= k < r ==> !IsBusinessDay(holidays, k)
    ensures r == FirstBusinessFrom(holidays, d)
  {
  }

  /** Ensuring keeps a business day as it is and moves any other day to the next
      business day; ensuring twice is ensuring once. */
  lemma EnsureBusinessDayProperties(holidays: seq<Day>, d: Day)
    ensures FirstBusinessFrom(holidays, d) == d <==> IsBusinessDay(holidays, d)
    ensures !IsBusinessDay(holidays, d) ==>
              FirstBusinessFrom(holidays, d) == NextBusinessAfter(holidays, d)
    ensures FirstBusinessFrom(holidays, FirstBusinessFrom(holidays, d))
         == FirstBusinessFrom(holidays, d)
  {
  }

  lemma {:induction false} CountSplit(holidays: seq<Day>, lo: Day, mid: Day, hi: Day)
    requires lo <= mid <= hi
    ensures CountBusinessDays(holidays, lo, hi)
         == CountBusinessDays(holidays, lo, mid) + CountBusinessDays(holidays, mid, hi)
    decreases hi - mid
  {
    if mid < hi {
      CountSplit(holidays, lo, mid, hi - 1);
    }
  }

  lemma {:induction false} CountNone(holidays: seq<Day>, lo: Day, hi: Day)
    requires forall k :: lo < k <= hi ==> !IsBusinessDay(holidays, k)
    ensures CountBusinessDays(holidays, lo, hi) == 0
    decreases hi - lo
  {
    if lo < hi {
      CountNone(holidays, lo, hi - 1);
    }
  }

  /** Exactly one business day lies in (d, next business day after d]. */
  lemma CountToNext(holidays: seq<Day>, d: Day)
    ensures CountBusinessDays(holidays, d, NextBusinessAfter(holidays, d)) == 1
  {
    var nx := NextBusinessAfter(holidays, d);
    CountNone(holidays, d, nx - 1);
  }

  /** A business day after `lo` is counted in (lo, it]. */
  lemma CountReachesBusinessDay(holidays: seq<Day>, lo: Day, r: Day)
    requires lo < r && IsBusinessDay(holidays, r)
    ensures CountBusinessDays(holidays, lo, r) >= 1
  {
  }

  /** Exactly n business days lie in (d, NthBusinessDayAfter(d, n)]. */
  lemma {:induction false} NthCount(holidays: seq<Day>, d: Day, n: nat)
    ensures CountBusinessDays(holidays, d, NthBusinessDayAfter(holidays, d, n)) == n
    decreases n
  {
    if n > 0 {
      var nx := NextBusinessAfter(holidays, d);
      var r := NthBusinessDayAfter(holidays, d, n);
      assert r == NthBusinessDayAfter(holidays, nx, n - 1);
      NthCount(holidays, nx, n - 1);
      CountSplit(holidays, d, nx, r);
      CountToNext(holidays, d);
    }
  }

  /** Conversely, a business day after `d` with exactly n business days in (d, r] is
      the n-th business day after `d`. */
  lemma {:induction false} NthUnique(holidays: seq<Day>, d: Day, n: int, r: Day)
    requires d < r && IsBusinessDay(holidays, r)
    requires CountBusinessDays(holidays, d, r) == n
    ensures r == NthBusinessDayAfter(holidays, d, n)
    decreases n
  {
    var nx := NextBusinessAfter(holidays, d);
    assert nx <= r;
    CountSplit(holidays, d, nx, r);
    CountToNext(holidays, d);
    if r == nx {
      assert n == 1;
    } else {
      CountReachesBusinessDay(holidays, nx, r);
      NthUnique(holidays, nx, n - 1, r);
    }
  }

  /** More business days never give an earlier date: the walk is strictly increasing
      in n from n = 0 on. */
  lemma {:induction false} NthMonotone(holidays: seq<Day>, d: Day, m: int, n: int)
    requires 0 <= m < n
    ensures NthBusinessDayAfter(holidays, d, m) < NthBusinessDayAfter(holidays, d, n)
    decreases m
  {
    if m > 0 {
      NthMonotone(holidays, NextBusinessAfter(holidays, d), m - 1, n - 1);
    }
  }
}
