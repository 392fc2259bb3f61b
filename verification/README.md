# Dispatch timer, brand navigation and footer accordion — a Dafny model

This project models three scripts of a storefront theme and proves properties of the
model.

- **The dispatch timer** (`assets/js/theme/dispatchtimer.js`). An order placed before
  the daily 21:00 cutoff is dispatched from the next business day on or after today.
  From 21:00 on, it counts from tomorrow. A business day is Monday to Friday and not
  a listed holiday. Delivery is expected between `courierMin` and `courierMax`
  business days after that base date, 4 to 6 by default. A countdown shows the time
  left to the next cutoff as `1d 02h 03m 04s`, `2h 03m 04s` or `3m 04s`. A tracked
  note shows when `courierMin` reaches `trackedThreshold`.
- **The brand directory's alphabet bar** (`assets/js/theme/global/brand-navigation.js`).
  Every brand is indexed under the upper-cased first character of its trimmed name,
  with a decimal digit indexed as `#`. The bar holds `All`, `#` and every letter A–Z
  some brand is indexed under, in that order. A button shows the brands indexed under
  it, and `All` shows every brand. On a page with the alphabet bar and at least one
  brand link, the navigation labels are then broken after their first `&`.
- **The footer accordion** (`assets/js/theme/global/footer-accordion.js`). On a mobile
  viewport every section starts collapsed; on a wider one every section starts
  expanded. On mobile, a click on a section closes all the others and flips its own
  `aria-expanded` and `is-open`.

JavaScript `Date` values are modelled as follows:

- A date-only value is a day ordinal: days since 1 January 1970, weekday `(d + 4) % 7`
  as `getDay()` reports it.
- An instant is milliseconds since the start of that day, with uniform 86,400,000 ms
  days.
- Year, month and day are related to the ordinal by the proleptic Gregorian
  conversion (module `CivilCalendar`), so the source's field-by-field date comparison
  is proved to be ordinal equality.

The modules are:

- `CivilCalendar`: days, instants and the Gregorian conversion.
- `BusinessDays`: the timer's date helpers.
- `Countdown`: `_formatCountdown`, plus a reader of its output.
- `DispatchTimer`: configuration, cutoff, base date, delivery window and the displayed
  values.
- `BrandNavigation`: the alphabet bar.
- `FooterAccordion`: the accordion.
- `Wrappers`: an `Option` type.
- `Chars`: the decimal-digit character class, shared by the countdown and the brand index.

The loops of the source are methods with loop invariants, each proved equal to a
specification function. These are the date walks of `_nextBusinessDay`,
`_ensureBusinessDay` and `_addBusinessDays`, the holiday scan, the letter collection,
the filter, the label rewriting and the accordion's `forEach` loops. The properties
are lemmas about those functions.

At exactly 21:00 the code's cutoff is already tomorrow's, so the countdown shows a
full day (`1d 00h 00m 00s`) rather than zero. `DispatchTimer.CountdownAtCutoff` states
this.

## Model

| member | source | states |
|---|---|---|
| CivilCalendar.ToDateOnly | assets/js/theme/dispatchtimer.js:66-68 | the date part of an instant is the day whose midnight is at or before the instant, less than a day before it |
| CivilCalendar.TimeOfDay | assets/js/theme/dispatchtimer.js:119 | the time of day is in [0, one day) and the instant is its day's midnight plus it |
| CivilCalendar.DateOfMidnight | assets/js/theme/dispatchtimer.js:119 | building an instant from a day and a time of day and taking it apart again gives back both |
| CivilCalendar.Weekday | assets/js/theme/dispatchtimer.js:53 | `getDay()` is 0 (Sunday) to 6 (Saturday) |
| CivilCalendar.WeekdayNext | assets/js/theme/dispatchtimer.js:59 | the day after a Saturday is a Sunday, otherwise the weekday after |
| CivilCalendar.SplitEra | assets/js/theme/dispatchtimer.js:41 | a day of a 400-year era splits into a year of the era and a day of that year, with the leap-year correction |
| CivilCalendar.SplitYear | assets/js/theme/dispatchtimer.js:41 | a day of a March-based year splits into a month 0..11 and a day of the month 1..31 |
| CivilCalendar.CivilFromDays | assets/js/theme/dispatchtimer.js:41 | `getFullYear`/`getMonth`/`getDate` of a day give a month 0..11 and a day 1..31 from which `new Date(y, m, d)` rebuilds the same day |
| CivilCalendar.CivilOfEraDay | assets/js/theme/dispatchtimer.js:41 | the date `doe` days into an era rebuilds to that day |
| CivilCalendar.CivilFieldsToDays | assets/js/theme/dispatchtimer.js:58 | rebuilding a day ordinal from year-of-era, month and day undoes the split |
| CivilCalendar.DaysFromCivil | assets/js/theme/dispatchtimer.js:10-15 | `new Date(y, m, d)` as a day ordinal; `CivilCalendar.CivilFromDays` shows it rebuilds every day from its fields |
| CivilCalendar.DaysFromCivilSteps | assets/js/theme/dispatchtimer.js:10-15 | 1 January 1970 is day 0; the next day of the month is the next ordinal, and 31 December is followed by 1 January |
| CivilCalendar.CivilInjective | assets/js/theme/dispatchtimer.js:41 | two days have the same year, month and day exactly when they are the same day |
| BusinessDays.IsSameDate | assets/js/theme/dispatchtimer.js:40-42 | `_isSameDate` holds exactly when the two dates are the same day |
| BusinessDays.CheckHoliday | assets/js/theme/dispatchtimer.js:44-50 | the scan answers true exactly when some listed holiday has the same date as the day of `date` |
| BusinessDays.CheckBusinessDay | assets/js/theme/dispatchtimer.js:52-55 | true exactly when the weekday is 1..5 and the day is not a holiday; the time of day does not matter |
| BusinessDays.LastHoliday | assets/js/theme/dispatchtimer.js:9-16 | a day on or after every listed holiday |
| BusinessDays.FirstMondayFrom | assets/js/theme/dispatchtimer.js:53-54 | the first Monday on or after a day lies within the next seven days |
| BusinessDays.Horizon | assets/js/theme/dispatchtimer.js:60-62 | a bound on or after `d` |
| BusinessDays.HorizonIsBusinessDay | assets/js/theme/dispatchtimer.js:60-62 | the bound is a business day, so the `while` loops of the source end |
| BusinessDays.HorizonStep | assets/js/theme/dispatchtimer.js:72-74 | stepping past a day that is not a business day keeps the bound |
| BusinessDays.FirstBusinessFrom | assets/js/theme/dispatchtimer.js:70-76 | a business day on or after `d` with no business day between `d` and it |
| BusinessDays.NextBusinessAfter | assets/js/theme/dispatchtimer.js:57-64 | a business day strictly after `d` with no business day strictly between |
| BusinessDays.NthBusinessDayAfter | assets/js/theme/dispatchtimer.js:78-86 | never before `d`; for positive `n` strictly after `d` and a business day |
| BusinessDays.NextBusinessDay | assets/js/theme/dispatchtimer.js:57-64 | `_nextBusinessDay` returns the first business day strictly after the date's day |
| BusinessDays.EnsureBusinessDay | assets/js/theme/dispatchtimer.js:70-76 | `_ensureBusinessDay` returns the first business day on or after the date's day |
| BusinessDays.NthStep | assets/js/theme/dispatchtimer.js:81-84 | one step of the `_addBusinessDays` walk: the n-th business day after `d` is reached from `d + 1`, with one fewer to count when `d + 1` is a business day |
| BusinessDays.AddBusinessDays | assets/js/theme/dispatchtimer.js:78-86 | `_addBusinessDays` returns the n-th business day after the date's day, and the day itself when n is not positive |
| BusinessDays.FirstBusinessFromUnique | assets/js/theme/dispatchtimer.js:70-76 | any business day on or after `d` with none before it is the ensured day |
| BusinessDays.EnsureBusinessDayProperties | assets/js/theme/dispatchtimer.js:70-76 | a business day is kept; any other day moves to the next business day; ensuring twice is ensuring once |
| BusinessDays.CountSplit | assets/js/theme/dispatchtimer.js:81-84 | the business days in (lo, hi] are those in (lo, mid] plus those in (mid, hi] |
| BusinessDays.CountNone | assets/js/theme/dispatchtimer.js:81-84 | a range without business days counts zero |
| BusinessDays.CountToNext | assets/js/theme/dispatchtimer.js:57-64 | exactly one business day lies between a day and the next business day after it |
| BusinessDays.CountReachesBusinessDay | assets/js/theme/dispatchtimer.js:83 | a business day after `lo` is counted |
| BusinessDays.NthCount | assets/js/theme/dispatchtimer.js:78-86 | exactly n business days lie in (d, result] |
| BusinessDays.NthUnique | assets/js/theme/dispatchtimer.js:78-86 | conversely, a business day with exactly n business days in (d, it] is the result |
| BusinessDays.NthMonotone | assets/js/theme/dispatchtimer.js:78-86 | more business days give a strictly later day |
| Countdown.SplitSeconds | assets/js/theme/dispatchtimer.js:101-107 | days, hours < 24, minutes < 60 and seconds < 60 that add up to the seconds |
| Countdown.SplitSecondsUnique | assets/js/theme/dispatchtimer.js:101-107 | the split is the only normal one with that total |
| Countdown.DigitChar | assets/js/theme/dispatchtimer.js:108 | a digit below 10 is a decimal digit character |
| Countdown.NatToString | assets/js/theme/dispatchtimer.js:110-112 | a number's decimal text is a non-empty string of digits |
| Countdown.Pad2 | assets/js/theme/dispatchtimer.js:108 | `pad` gives a non-empty string of digits |
| Countdown.NatToStringValue | assets/js/theme/dispatchtimer.js:110-112 | the decimal text reads back as the number, without a leading zero |
| Countdown.Pad2Value | assets/js/theme/dispatchtimer.js:108 | below 100, `pad` gives two digits that read back as the number |
| Countdown.Fields | assets/js/theme/dispatchtimer.js:110-112 | two to four well-formed fields, the last in seconds |
| Countdown.FieldsShape | assets/js/theme/dispatchtimer.js:108-112 | the countdown leads with the days when there are any, else the hours when there are any, else the minutes, unpadded; every later field has exactly two digits |
| Countdown.FormatCountdown | assets/js/theme/dispatchtimer.js:99-113 | `00s` when nothing is left, otherwise the rendering of the remaining whole seconds |
| Countdown.DigitRun | assets/js/theme/dispatchtimer.js:110-112 | the leading digits of a string are within it |
| Countdown.ReadToken | assets/js/theme/dispatchtimer.js:110-112 | reading one field consumes input |
| Countdown.DigitRunOfField | assets/js/theme/dispatchtimer.js:110-112 | the digits of a field end at its unit letter |
| Countdown.ReadTokenOf | assets/js/theme/dispatchtimer.js:110-112 | a well-formed field is read back as itself |
| Countdown.TokenizeLast | assets/js/theme/dispatchtimer.js:110-112 | the last field alone reads back as one field |
| Countdown.TokenizeField | assets/js/theme/dispatchtimer.js:110-112 | a field, a space and more fields read back as that field followed by the others |
| Countdown.TokenizeJoin | assets/js/theme/dispatchtimer.js:110-112 | the space-joined fields read back as the fields |
| Countdown.TokensValueCons | assets/js/theme/dispatchtimer.js:102-107 | the value of fields is the first field's seconds plus the rest |
| Countdown.SecondsValue | assets/js/theme/dispatchtimer.js:112 | the padded seconds field is worth its seconds |
| Countdown.MinutesValue | assets/js/theme/dispatchtimer.js:112 | the minutes form is worth minutes·60 + seconds |
| Countdown.HoursValue | assets/js/theme/dispatchtimer.js:111 | the hours form is worth hours·3600 + minutes·60 + seconds |
| Countdown.DaysValue | assets/js/theme/dispatchtimer.js:110 | the days form is worth days·86400 + hours·3600 + minutes·60 + seconds |
| Countdown.FieldsValue | assets/js/theme/dispatchtimer.js:101-112 | the fields of a normal split are worth its total seconds |
| Countdown.RenderReadsBack | assets/js/theme/dispatchtimer.js:101-112 | reading the rendered countdown gives back its total seconds: the format loses nothing |
| Countdown.CountdownReadsBack | assets/js/theme/dispatchtimer.js:99-113 | `_formatCountdown(ms)` reads back as the whole seconds left, 0 when nothing is left |
| DispatchTimer.Configure | assets/js/theme/dispatchtimer.js:5-37 | each option given as a number (a list for the holidays) is used as given; a missing one takes its default: the built-in holidays, 4, 6 and 2 |
| DispatchTimer.DefaultConfiguration | assets/js/theme/dispatchtimer.js:5-37 | without options: the built-in holidays, a 4 to 6 day window and threshold 2, so the window is ordered and the tracked note shows |
| DispatchTimer.DefaultHolidayOrdinals | assets/js/theme/dispatchtimer.js:9-16 | the eighteen built-in holidays as day ordinals |
| DispatchTimer.Holidays2025Ordinals | assets/js/theme/dispatchtimer.js:10-12 | the 2025 holidays as day ordinals |
| DispatchTimer.Holidays2026Ordinals | assets/js/theme/dispatchtimer.js:13-15 | the 2026 holidays as day ordinals |
| DispatchTimer.NextCutoff | assets/js/theme/dispatchtimer.js:117-125 | the next cutoff is a 21:00 strictly after now and at most a day away |
| DispatchTimer.NextCutoffIsFirst | assets/js/theme/dispatchtimer.js:117-125 | no 21:00 lies between now and the next cutoff |
| DispatchTimer.CurrentCutoff | assets/js/theme/dispatchtimer.js:117-125 | `getCurrentCutoff` returns the next 21:00: today's before 21:00, tomorrow's from 21:00 on |
| DispatchTimer.CutoffDay | assets/js/theme/dispatchtimer.js:117-125 | the cutoff's day is today before 21:00 and tomorrow from 21:00 on |
| DispatchTimer.OrderBaseDateProperties | assets/js/theme/dispatchtimer.js:127-137 | the base date is a business day on or after the cutoff's day with no business day skipped, hence never before today |
| DispatchTimer.GetOrderBaseDate | assets/js/theme/dispatchtimer.js:127-137 | `getOrderBaseDate` is the first business day on or after today (tomorrow from 21:00 on) |
| DispatchTimer.DeliveryWindow | assets/js/theme/dispatchtimer.js:142-145 | the window runs from `courierMin` to `courierMax` business days after the base date, and is ordered when `courierMin <= courierMax` |
| DispatchTimer.WindowOrdered | assets/js/theme/dispatchtimer.js:144-145 | more business days never give an earlier day, negative counts included |
| DispatchTimer.DeliveryWindowProperties | assets/js/theme/dispatchtimer.js:144-145 | each end with a positive lead time is a business day exactly that many business days after the base date |
| DispatchTimer.IntToString | assets/js/theme/dispatchtimer.js:147 | a number's text is non-empty, made of digits and `-`, and starts with `-` exactly when it is negative |
| DispatchTimer.EstimateText | assets/js/theme/dispatchtimer.js:147 | the estimate is `courierMin`'s text, an en dash, `courierMax`'s text and ` working days`; the first en dash ends the first number |
| DispatchTimer.CountdownToCutoff | assets/js/theme/dispatchtimer.js:150-152 | the remaining time is positive and at most a day, and the countdown text reads back as its whole seconds |
| DispatchTimer.UpdateDisplay | assets/js/theme/dispatchtimer.js:140-172 | the displayed window and estimate text as above; the countdown is the rendering of the whole seconds to the next cutoff and reads back as them; the tracked note shows exactly when `courierMin >= trackedThreshold` |
| DispatchTimer.CountdownAtCutoff | assets/js/theme/dispatchtimer.js:121-124 | at exactly 21:00 the countdown is a full day, `1d 00h 00m 00s` |
| DispatchTimer.ChristmasOrder | assets/js/theme/dispatchtimer.js:127-137 | an order at 21:30 on 23 December 2025 has base date 29 December 2025, past the weekend and the three listed holidays |
| BrandNavigation.TrimStart | assets/js/theme/global/brand-navigation.js:4 | the suffix left after removing leading white space, starting with a character that is not white space |
| BrandNavigation.TrimEnd | assets/js/theme/global/brand-navigation.js:4 | the prefix left after removing trailing white space, ending with a character that is not white space |
| BrandNavigation.TrimSpec | assets/js/theme/global/brand-navigation.js:4 | `trim()` gives a string no longer than the name, with no white space at either end, empty exactly when the name is all white space |
| BrandNavigation.TrimFirst | assets/js/theme/global/brand-navigation.js:4 | the trimmed name is empty when the name is all white space, and otherwise starts with its first character that is not white space |
| BrandNavigation.TrimEndKeepsFirst | assets/js/theme/global/brand-navigation.js:4 | trimming the end keeps a first character that is not white space |
| BrandNavigation.GetFirstChar | assets/js/theme/global/brand-navigation.js:2-6 | at most one character |
| BrandNavigation.GetFirstCharEmpty | assets/js/theme/global/brand-navigation.js:2-6 | empty exactly when the name is missing or all white space |
| BrandNavigation.GetFirstCharAt | assets/js/theme/global/brand-navigation.js:2-6 | otherwise the upper-cased first character that is not white space, or `#` for a digit |
| BrandNavigation.Compare | assets/js/theme/global/brand-navigation.js:23-29 | the comparator: `All` first, then `#`, then `localeCompare`; `BrandNavigation.CompareIsRank` gives its order on labels |
| BrandNavigation.CompareIsRank | assets/js/theme/global/brand-navigation.js:23-29 | on two different labels the comparator never answers 0 and orders them by their position in the bar, so it is a strict total order |
| BrandNavigation.LabelAt | assets/js/theme/global/brand-navigation.js:13-16 | the label at each position of the bar |
| BrandNavigation.LabelsFromMembers | assets/js/theme/global/brand-navigation.js:22-29 | the labels listed from a position on are exactly the labels of the set at or after it |
| BrandNavigation.LabelsFromSpec | assets/js/theme/global/brand-navigation.js:22-29 | the labels of a set from a position on, each once, in strictly increasing position, and nothing else |
| BrandNavigation.RankSortedByComparator | assets/js/theme/global/brand-navigation.js:22-29 | a sequence in bar order is sorted by the comparator |
| BrandNavigation.RankSortedUnique | assets/js/theme/global/brand-navigation.js:22-29 | two sorted arrangements of the same labels are equal, so the comparator alone fixes the result of `sort` |
| BrandNavigation.SameMembersBothEmpty | assets/js/theme/global/brand-navigation.js:22 | two sequences with the same members are both empty or both not |
| BrandNavigation.RankSortedHead | assets/js/theme/global/brand-navigation.js:22-29 | the head of a sorted sequence comes first among its labels |
| BrandNavigation.LabelOfRank | assets/js/theme/global/brand-navigation.js:23-29 | two labels at the same position are equal |
| BrandNavigation.IndexLettersMembers | assets/js/theme/global/brand-navigation.js:14-19 | the collected letters are exactly the letters A–Z some brand is indexed under |
| BrandNavigation.IndexLettersStep | assets/js/theme/global/brand-navigation.js:15-18 | one more brand adds its index character when that is a letter A–Z |
| BrandNavigation.ButtonLettersShape | assets/js/theme/global/brand-navigation.js:13-29 | with brands, the bar starts with `All` and `#`, followed by the index letters in alphabetical order |
| BrandNavigation.LabelsFromIgnoresLowerRanks | assets/js/theme/global/brand-navigation.js:22-29 | the sorted tail depends only on the labels in it |
| BrandNavigation.ButtonLettersMembers | assets/js/theme/global/brand-navigation.js:13-19 | after `All` and `#` come exactly the letters some brand is indexed under, each once |
| BrandNavigation.ButtonLettersSorted | assets/js/theme/global/brand-navigation.js:22-29 | the bar is sorted by the comparator, and it is the only sorted arrangement of its labels |
| BrandNavigation.CreateAlphabetButtons | assets/js/theme/global/brand-navigation.js:8-29 | `createAlphabetButtons` returns no labels without brands, and otherwise the bar described above |
| BrandNavigation.FilterBrands | assets/js/theme/global/brand-navigation.js:37-47 | every entry with a link is shown exactly when the letter is `All` or the entry's index character; entries without a link are untouched |
| BrandNavigation.Filtered | assets/js/theme/global/brand-navigation.js:40-45 | one entry after `filterBrands`; `BrandNavigation.FilterProperties` gives its display |
| BrandNavigation.FilterProperties | assets/js/theme/global/brand-navigation.js:41-45 | `All` shows every linked brand; any other letter shows exactly the brands indexed under it; the display is `""` or `"none"` |
| BrandNavigation.EveryBrandHasOneButton | assets/js/theme/global/brand-navigation.js:13-45 | a brand indexed under a letter or `#` has a button, and apart from `All` only that button shows it |
| BrandNavigation.IndexOfAmpersand | assets/js/theme/global/brand-navigation.js:59 | `indexOf('&')` is the first `&`, and -1 exactly when there is none |
| BrandNavigation.SplitAfterAmpersand | assets/js/theme/global/brand-navigation.js:57-61 | a label is cut exactly when it has an `&`; the two parts concatenate back to the label, and the first ends at the first `&` |
| BrandNavigation.SplitIsFirstAmpersand | assets/js/theme/global/brand-navigation.js:59-61 | the cut is just after the first `&` |
| BrandNavigation.AddLineBreaksAfterAmpersands | assets/js/theme/global/brand-navigation.js:53-72 | every label with an `&` becomes its two parts with `<br>` between them; the others are unchanged |
| FooterAccordion.SectionAfterSetup | assets/js/theme/global/footer-accordion.js:12-21 | a complete section gets both flags false in the mobile view and both true otherwise; an incomplete one stays incomplete |
| FooterAccordion.Closed | assets/js/theme/global/footer-accordion.js:38-41 | a complete other section ends collapsed and closed; an incomplete one is left alone |
| FooterAccordion.Toggled | assets/js/theme/global/footer-accordion.js:46-47 | the clicked section's `aria-expanded` and `is-open` are both flipped |
| FooterAccordion.ToggleTwice | assets/js/theme/global/footer-accordion.js:46-47 | flipping twice restores the section |
| FooterAccordion.AfterSetup | assets/js/theme/global/footer-accordion.js:4-21 | setup keeps the number of sections |
| FooterAccordion.AfterClick | assets/js/theme/global/footer-accordion.js:28-47 | a click keeps the number of sections |
| FooterAccordion.Setup | assets/js/theme/global/footer-accordion.js:8-21 | `setupAccordions` gives every section its setup state, one at a time |
| FooterAccordion.Click | assets/js/theme/global/footer-accordion.js:28-47 | the click handler closes the other complete sections and flips its own, only in the mobile view |
| FooterAccordion.SetupStates | assets/js/theme/global/footer-accordion.js:12-21 | in the mobile view every complete section starts collapsed and closed, otherwise expanded and open; an incomplete section is untouched |
| FooterAccordion.SetupLastWins | assets/js/theme/global/footer-accordion.js:52-60 | a second setup, as a resize runs, gives the state of setting up once at the new width; at the same width, setting up twice is setting up once |
| FooterAccordion.ClickFrame | assets/js/theme/global/footer-accordion.js:29-38 | outside the mobile view a click changes nothing; an incomplete section is never changed |
| FooterAccordion.ClickStates | assets/js/theme/global/footer-accordion.js:31-47 | a mobile click flips both flags of its section and collapses every other complete section |
| FooterAccordion.ClickTwice | assets/js/theme/global/footer-accordion.js:31-47 | two mobile clicks on one section restore it and leave the others closed |
| FooterAccordion.AgreementKept | assets/js/theme/global/footer-accordion.js:16-47 | `aria-expanded` and `is-open` agree after setup, and a click keeps them agreeing |
| FooterAccordion.AtMostOneOpen | assets/js/theme/global/footer-accordion.js:34-47 | after a mobile click on a complete section, the open sections are that section if it was closed, and none otherwise |
| FooterAccordion.ClicksKeepOneOpen | assets/js/theme/global/footer-accordion.js:28-47 | from at most one open section, any run of mobile clicks keeps at most one open |
| FooterAccordion.AfterClicks | assets/js/theme/global/footer-accordion.js:28-47 | a run of clicks keeps the number of sections |
| FooterAccordion.MobileSetupAllClosed | assets/js/theme/global/footer-accordion.js:15-18 | setting up in the mobile view leaves no section open |

## Left out

- Time zones and daylight saving: every day is 86,400,000 ms and 21:00 is a fixed time of day. The local-time behaviour of `Date` is not modelled.
- CivilCalendar.ToDateOnly: days are unbounded integers and `new Date(y, m, d)` is the Gregorian formula for every year. Three JavaScript behaviours are not modelled. First, the `Date` constructor reads a year 0–99 as 1900 plus that year, which would move `_toDateOnly`, `getCurrentCutoff` and `getOrderBaseDate` (dispatchtimer.js lines 67, 119 and 129) by about 1900 years for instants in those years. Second, a `Date` beyond ±8.64·10^15 ms is invalid: its `getDay()` is NaN, so no day is a business day and the source's `while` loops would not end (a lead time of 10^8 business days gets there), while the model's walks always end. Third, `'' + n` switches to exponent notation from 10^21 on, which `DispatchTimer.IntToString` does not. None of these arises from a clock-driven `now` and the default options.
- Fractional and non-finite numbers: instants, lead times and the threshold are integers. `typeof x === 'number'` is an `Option<int>` that is present or not, so NaN, Infinity and fractional options are not modelled.
- `_formatNice` (`toLocaleDateString`), the fallback text built from it, and the estimate-with-dates text. The delivery dates are day ordinals instead.
- The DOM in `_updateDOM`: `getElementById`, `textContent` and `style.display`. The values it writes are the fields of `DispatchTimer.Display`.
- `startTimer`/`stopTimer`, `setInterval`, `DOMContentLoaded` and the global singleton: event-loop plumbing. `now` is a parameter instead of the clock.
- The holiday list given as an option is day ordinals, not `Date` objects. An empty list given as an option is kept, as `opts.holidays || …` does.
- BrandNavigation.ToUpper: only the ASCII letters a–z are upper-cased. `toUpperCase` also maps some other characters: `ı` to `I`, `ſ` to `S`, and `ß` or `ﬀ` to two letters, so that `/[A-Z]/` would accept them. The model does not index such names under a letter.
- BrandNavigation.GetFirstChar: `charAt(0)` works on UTF-16 code units, while a Dafny `char` is a whole Unicode scalar value. A name starting with a character outside the Basic Multilingual Plane is not modelled.
- BrandNavigation.LocaleCompare: `localeCompare` uses the browser's default locale. The model uses code-point order, which matches English and most locales on the letters A–Z. Locale-tailored orders are not modelled, such as Estonian's (Z between S and T) or Lithuanian's (Y before J).
- BrandNavigation.CreateAlphabetButtons: the sort is modelled by its unique result. `BrandNavigation.RankSortedUnique` shows any correct sort gives it, so the algorithm itself is left out. The button HTML (`map` to `html`) is not modelled either.
- BrandNavigation.AddLineBreaksAfterAmpersands: the method rewrites the labels unconditionally. In `init()` the rewriting only runs when the page has a `.brands-alphabet` container and at least one brand link (brand-navigation.js lines 51, 76 and 98). That gating is not modelled.
- The click delegation and the active-class toggling of the alphabet bar, the initial `filterBrands('All')`, and the re-initialisation on the brands tab (`setTimeout(init, 100)`).
- The `.navPages-action-moreIcon` icon that is appended again after the label is rewritten. `innerHTML` is modelled as the string it is set to.
- `window.innerWidth <= 768`: the mobile view is a boolean parameter.
- The footer's `cloneNode`/`replaceChild` listener replacement, and the 250 ms resize debounce. A resize is a new setup, and `FooterAccordion.SetupLastWins` shows the last setup decides the state.
- FooterAccordion.Section: a section missing its trigger or its content is `Incomplete`, and its flags are not modelled. The at-most-one-open properties speak of complete sections.
- The `aria-expanded` value before the first setup. After setup it is always `"true"` or `"false"`, which is the boolean `expanded`.
