/**
 * The countdown text of the dispatch timer: a number of milliseconds is cut into
 * whole seconds, split into days, hours, minutes and seconds, and rendered as
 * "2d 03h 04m 05s", "3h 04m 05s" or "4m 05s", with every unit after the leading one
 * padded to two digits.
 */
module Countdown {

  import opened Wrappers
  import opened Chars

  /** A duration split into units. */
  datatype Duration = Duration(days: nat, hours: nat, minutes: nat, seconds: nat)

  /** Every unit below days is below the next unit's size. */
  predicate IsNormal(p: Duration)
  {
    p.hours < 24 && p.minutes < 60 && p.seconds < 60
  }

  function TotalSeconds(p: Duration): nat
  {
    p.days * 86400 + p.hours * 3600 + p.minutes * 60 + p.seconds
  }

  /** The split of the source: days, then the hours of what is left, and so on. */
  function SplitSeconds(s: nat): (p: Duration)
    ensures IsNormal(p) && TotalSeconds(p) == s
  {
    var days := s / 86400;
    var s1 := s % 86400;
    var hh := s1 / 3600;
    var s2 := s1 % 3600;
    Duration(days, hh, s2 / 60, s2 % 60)
  }

  /** A normal duration is the split of its own total: the split is the only normal
      duration with that total. */
  lemma SplitSecondsUnique(p: Duration)
    requires IsNormal(p)
    ensures SplitSeconds(TotalSeconds(p)) == p
  {
    var s := TotalSeconds(p);
    var r := p.hours * 3600 + p.minutes * 60 + p.seconds;
    assert 0 <= r < 86400;
    assert s / 86400 == p.days && s % 86400 == r;
    var r2 := p.minutes * 60 + p.seconds;
    assert r / 3600 == p.hours && r % 3600 == r2;
    assert r2 / 60 == p.minutes && r2 % 60 == p.seconds;
  }

  // ---------- decimal digits ----------

  function DigitChar(d: nat): (c: char)
    requires d < 10
    ensures IsDigit(c)
  {
    (48 + d) as char
  }

  predicate AllDigits(s: string)
  {
    forall i :: 0 <= i < |s| ==> IsDigit(s[i])
  }

  /** The number a string of decimal digits stands for. */
  function DigitsValue(s: string): int
  {
    if s == [] then 0
    else DigitsValue(s[..|s| - 1]) * 10 + (s[|s| - 1] as int - 48)
  }

  /** Decimal notation of a number, as `'' + n` gives it for a non-negative integer. */
  function NatToString(n: nat): (s: string)
    ensures |s| >= 1 && AllDigits(s)
  {
    if n < 10 then [DigitChar(n)] else NatToString(n / 10) + [DigitChar(n % 10)]
  }

  /** `pad`: a leading zero below ten. */
  function Pad2(n: nat): (s: string)
    ensures |s| >= 1 && AllDigits(s)
  {
    (if n < 10 then "0" else "") + NatToString(n)
  }

  /** Decimal notation reads back as the number, with no leading zero. */
  lemma {:induction false} NatToStringValue(n: nat)
    ensures DigitsValue(NatToString(n)) == n
    ensures n > 0 ==> NatToString(n)[0] != '0'
  {
    if n >= 10 {
      NatToStringValue(n / 10);
      var s := NatToString(n);
      assert s[..|s| - 1] == NatToString(n / 10);
    }
  }

  /** A padded unit below 100 is exactly two digits and reads back as the unit. */
  lemma Pad2Value(n: nat)
    requires n < 100
    ensures |Pad2(n)| == 2 && DigitsValue(Pad2(n)) == n
  {
    NatToStringValue(n);
    if n < 10 {
      assert Pad2(n)[..1] == "0";
    } else {
      assert NatToString(n) == NatToString(n / 10) + [DigitChar(n % 10)];
      assert NatToString(n / 10) == [DigitChar(n / 10)];
    }
  }

  // ---------- rendering ----------

  /** One field of a countdown text: a run of digits and a unit letter, "03h". */
  datatype Token = Token(digits: string, unit: char)

  predicate IsUnit(u: char)
  {
    u == 'd' || u == 'h' || u == 'm' || u == 's'
  }

  predicate WellFormed(t: Token)
  {
    |t.digits| >= 1 && AllDigits(t.digits) && IsUnit(t.unit)
  }

  /** One field followed by a space and the rest of the text: "03h " + rest. */
  function Field(digits: string, u: char, rest: string): string
  {
    digits + [u] + (" " + rest)
  }

  /** Fields joined by single spaces. */
  function Join(ts: seq<Token>): string
    requires |ts| >= 1
    decreases |ts|
  {
    if |ts| == 1 then ts[0].digits + [ts[0].unit]
    else Field(ts[0].digits, ts[0].unit, Join(ts[1..]))
  }

  /** The fields `_formatCountdown` writes for a positive duration: it leads with
      days when there are any, else with hours when there are any, else with minutes,
      and pads every later unit to two digits. */
  function Fields(p: Duration): (ts: seq<Token>)
    ensures 2 <= |ts| <= 4
    ensures forall i :: 0 <= i < |ts| ==> WellFormed(ts[i])
    ensures ts[|ts| - 1].unit == 's'
  {
    var seconds := Token(Pad2(p.seconds), 's');
    if p.days > 0 then
      [Token(NatToString(p.days), 'd'), Token(Pad2(p.hours), 'h'), Token(Pad2(p.minutes), 'm'), seconds]
    else if p.hours > 0 then
      [Token(NatToString(p.hours), 'h'), Token(Pad2(p.minutes), 'm'), seconds]
    else
      [Token(NatToString(p.minutes), 'm'), seconds]
  }

  /** The leading field is the days when there are any, else the hours when there are
      any, else the minutes, written without padding; every later field has exactly
      two digits. */
  lemma FieldsShape(p: Duration)
    requires IsNormal(p)
    ensures Fields(p)[0].unit == (if p.days > 0 then 'd' else if p.hours > 0 then 'h' else 'm')
    ensures Fields(p)[0].digits
      == NatToString(if p.days > 0 then p.days else if p.hours > 0 then p.hours else p.minutes)
    ensures forall k :: 1 <= k < |Fields(p)| ==> |Fields(p)[k].digits| == 2
  {
    Pad2Value(p.hours);
    Pad2Value(p.minutes);
    Pad2Value(p.seconds);
  }

  function RenderDuration(p: Duration): string
  {
    Join(Fields(p))
  }

  /** `_formatCountdown`: "00s" when no time is left, otherwise the rendering of the
      whole seconds left. */
  method FormatCountdown(ms: int) returns (text: string)
    ensures ms <= 0 ==> text == "00s"
    ensures ms > 0 ==> text == RenderDuration(SplitSeconds(ms / 1000))
  {
    if ms <= 0 {
      return "00s";
    }
    var s := ms / 1000;
    var days := s / 86400;
    s := s % 86400;
    var hh := s / 3600;
    s := s % 3600;
    var mm := s / 60;
    var ss := s % 60;
    var p := SplitSeconds(ms / 1000);
    assert p == Duration(days, hh, mm, ss);
    var last := Pad2(ss) + "s";
    assert Join([Token(Pad2(ss), 's')]) == last;
    if days > 0 {
      ghost var ts := Fields(p);
      assert Join(ts[2..]) == Field(Pad2(mm), 'm', last) by {
        assert ts[2..][1..] == [Token(Pad2(ss), 's')];
      }
      assert Join(ts[1..]) == Field(Pad2(hh), 'h', Field(Pad2(mm), 'm', last)) by {
        assert ts[1..][1..] == ts[2..];
      }
      return Field(NatToString(days), 'd', Field(Pad2(hh), 'h', Field(Pad2(mm), 'm', last)));
    }
    if hh > 0 {
      ghost var ts := Fields(p);
      assert Join(ts[1..]) == Field(Pad2(mm), 'm', last) by {
        assert ts[1..][1..] == [Token(Pad2(ss), 's')];
      }
      return Field(NatToString(hh), 'h', Field(Pad2(mm), 'm', last));
    }
    ghost var ts := Fields(p);
    assert ts[1..] == [Token(Pad2(ss), 's')];
    return Field(NatToString(mm), 'm', last);
  }

  // ---------- reading a countdown back ----------

  /** The length of the run of digits at the start of a string. */
  function DigitRun(s: string): (k: nat)
    ensures k <= |s|
  {
    if s == [] || !IsDigit(s[0]) then 0 else 1 + DigitRun(s[1..])
  }

  /** Reads one field at the start of a text, and the text after its unit letter. */
  function ReadToken(s: string): (r: Option<(Token, string)>)
    ensures r.Some? ==> |r.value.1| < |s|
  {
    var k := DigitRun(s);
    if k == 0 || k == |s| || !IsUnit(s[k]) then None
    else Some((Token(s[..k], s[k]), s[k + 1..]))
  }

  /** Splits a countdown text into its fields: fields separated by single spaces,
      nothing before the first or after the last. */
  function Tokenize(s: string): Option<seq<Token>>
    decreases |s|
  {
    match ReadToken(s)
    case None => None
    case Some((t, rest)) =>
      if rest == [] then Some([t])
      else if rest[0] != ' ' then None
      else Prepend(t, Tokenize(rest[1..]))
  }

  function Prepend(t: Token, o: Option<seq<Token>>): Option<seq<Token>>
  {
    match o
    case None => None
    case Some(ts) => Some([t] + ts)
  }

  /** A count of the unit `u` in seconds. */
  function InSeconds(count: int, u: char): int
  {
    if u == 'd' then count * 86400
    else if u == 'h' then count * 3600
    else if u == 'm' then count * 60
    else count
  }

  /** The seconds that fields stand for, summed. */
  function TokensValue(ts: seq<Token>): int
  {
    if ts == [] then 0
    else InSeconds(DigitsValue(ts[0].digits), ts[0].unit) + TokensValue(ts[1..])
  }

  /** The number of seconds a countdown text stands for, if it is one. */
  function ParseCountdown(s: string): Option<int>
  {
    match Tokenize(s)
    case None => None
    case Some(ts) => Some(TokensValue(ts))
  }

  /** The digit run of a field stops at its unit. */
  lemma {:induction false} DigitRunOfField(digits: string, u: char, tail: string)
    requires AllDigits(digits) && IsUnit(u)
    ensures DigitRun(digits + [u] + tail) == |digits|
    decreases |digits|
  {
    var s := digits + [u] + tail;
    if digits != [] {
      assert s[1..] == digits[1..] + [u] + tail;
      DigitRunOfField(digits[1..], u, tail);
    }
  }

  /** A well-formed field reads back, leaving what follows its unit. */
  lemma ReadTokenOf(t: Token, tail: string)
    requires WellFormed(t)
    ensures ReadToken(t.digits + [t.unit] + tail) == Some((t, tail))
  {
    var s := t.digits + [t.unit] + tail;
    DigitRunOfField(t.digits, t.unit, tail);
    var k := |t.digits|;
    assert s[..k] == t.digits;
    assert s[k] == t.unit;
    assert s[k + 1..] == tail;
  }

  /** A well-formed field alone splits into itself. */
  lemma TokenizeLast(t: Token)
    requires WellFormed(t)
    ensures Tokenize(t.digits + [t.unit]) == Some([t])
  {
    ReadTokenOf(t, []);
    assert t.digits + [t.unit] + [] == t.digits + [t.unit];
  }

  /** A well-formed field, a space and a text that splits into `ts` split into the
      field followed by `ts`. */
  lemma TokenizeField(t: Token, more: string, ts: seq<Token>)
    requires WellFormed(t)
    requires Tokenize(more) == Some(ts)
    ensures Tokenize(Field(t.digits, t.unit, more)) == Some([t] + ts)
  {
    var tail := " " + more;
    ReadTokenOf(t, tail);
    assert tail[1..] == more;
  }

  /** Well-formed fields joined by spaces split back into the same fields. */
  lemma {:induction false} TokenizeJoin(ts: seq<Token>)
    requires |ts| >= 1
    requires forall i :: 0 <= i < |ts| ==> WellFormed(ts[i])
    ensures Tokenize(Join(ts)) == Some(ts)
    decreases |ts|
  {
    if |ts| == 1 {
      TokenizeLast(ts[0]);
      assert ts == [ts[0]];
    } else {
      var t, rest := ts[0], ts[1..];
      var more := Join(rest);
      TokenizeJoin(rest);
      TokenizeField(t, more, rest);
      assert Join(ts) == Field(t.digits, t.unit, more);
      assert ts == [t] + rest;
    }
  }

  lemma TokensValueCons(t: Token, ts: seq<Token>)
    ensures TokensValue([t] + ts) == InSeconds(DigitsValue(t.digits), t.unit) + TokensValue(ts)
  {
    assert ([t] + ts)[1..] == ts;
  }

  lemma SecondsValue(ss: nat)
    requires ss < 60
    ensures TokensValue([Token(Pad2(ss), 's')]) == ss
  {
    Pad2Value(ss);
    TokensValueCons(Token(Pad2(ss), 's'), []);
    assert [Token(Pad2(ss), 's')] + [] == [Token(Pad2(ss), 's')];
  }

  lemma MinutesValue(digits: string, mm: nat, ss: nat)
    requires DigitsValue(digits) == mm && ss < 60
    ensures TokensValue([Token(digits, 'm'), Token(Pad2(ss), 's')]) == mm * 60 + ss
  {
    var rest := [Token(Pad2(ss), 's')];
    SecondsValue(ss);
    TokensValueCons(Token(digits, 'm'), rest);
    assert [Token(digits, 'm')] + rest == [Token(digits, 'm'), Token(Pad2(ss), 's')];
  }

  lemma HoursValue(digits: string, hh: nat, mm: nat, ss: nat)
    requires DigitsValue(digits) == hh && mm < 60 && ss < 60
    ensures TokensValue([Token(digits, 'h'), Token(Pad2(mm), 'm'), Token(Pad2(ss), 's')])
         == hh * 3600 + mm * 60 + ss
  {
    var rest := [Token(Pad2(mm), 'm'), Token(Pad2(ss), 's')];
    Pad2Value(mm);
    MinutesValue(Pad2(mm), mm, ss);
    TokensValueCons(Token(digits, 'h'), rest);
    assert [Token(digits, 'h')] + rest
        == [Token(digits, 'h'), Token(Pad2(mm), 'm'), Token(Pad2(ss), 's')];
  }

  lemma DaysValue(dd: nat, hh: nat, mm: nat, ss: nat)
    requires hh < 24 && mm < 60 && ss < 60
    ensures TokensValue([Token(NatToString(dd), 'd'), Token(Pad2(hh), 'h'),
                         Token(Pad2(mm), 'm'), Token(Pad2(ss), 's')])
         == dd * 86400 + hh * 3600 + mm * 60 + ss
  {
    var rest := [Token(Pad2(hh), 'h'), Token(Pad2(mm), 'm'), Token(Pad2(ss), 's')];
    Pad2Value(hh);
    HoursValue(Pad2(hh), hh, mm, ss);
    NatToStringValue(dd);
    TokensValueCons(Token(NatToString(dd), 'd'), rest);
    assert [Token(NatToString(dd), 'd')] + rest
        == [Token(NatToString(dd), 'd'), Token(Pad2(hh), 'h'), Token(Pad2(mm), 'm'), Token(Pad2(ss), 's')];
  }

  /** The fields of a normal duration add up to its seconds. */
  lemma FieldsValue(p: Duration)
    requires IsNormal(p)
    ensures TokensValue(Fields(p)) == TotalSeconds(p)
  {
    if p.days > 0 {
      DaysValue(p.days, p.hours, p.minutes, p.seconds);
    } else if p.hours > 0 {
      NatToStringValue(p.hours);
      HoursValue(NatToString(p.hours), p.hours, p.minutes, p.seconds);
    } else {
      NatToStringValue(p.minutes);
      MinutesValue(NatToString(p.minutes), p.minutes, p.seconds);
    }
  }

  /** The countdown text of a normal duration reads back as its whole seconds. */
  lemma RenderReadsBack(p: Duration)
    requires IsNormal(p)
    ensures ParseCountdown(RenderDuration(p)) == Some(TotalSeconds(p))
  {
    TokenizeJoin(Fields(p));
    FieldsValue(p);
  }

  /** Every countdown text reads back as the whole seconds left (none when the time
      is up). */
  lemma CountdownReadsBack(ms: int)
    ensures ParseCountdown(if ms <= 0 then "00s" else RenderDuration(SplitSeconds(ms / 1000)))
         == Some(if ms <= 0 then 0 else ms / 1000)
  {
    if ms <= 0 {
      var t := Token(Pad2(0), 's');
      Pad2Value(0);
      TokenizeJoin([t]);
      assert Join([t]) == "00s";
      SecondsValue(0);
    } else {
      RenderReadsBack(SplitSeconds(ms / 1000));
    }
  }
}
