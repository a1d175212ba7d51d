/**
 * The UTC timestamps of the sync history (app/services/sync_history_service.py):
 * `datetime.isoformat` as the history file writes them, and
 * `datetime.fromisoformat` for the strings it reads back.
 */
module Timestamps {
  import opened Wrappers

  /** An aware UTC `datetime`, field by field. */
  datatype Timestamp = Timestamp(year: int, month: int, day: int, hour: int, minute: int, second: int, micro: int)

  predicate LeapYear(y: int) {
    y % 4 == 0 && (y % 100 != 0 || y % 400 == 0)
  }

  function DaysIn(year: int, month: int): int {
    if month == 2 then (if LeapYear(year) then 29 else 28)
    else if month in {4, 6, 9, 11} then 30
    else 31
  }

  /** The range checks `datetime` applies to its fields. */
  predicate Valid(t: Timestamp) {
    && 1 <= t.year <= 9999
    && 1 <= t.month <= 12
    && 1 <= t.day <= DaysIn(t.year, t.month)
    && 0 <= t.hour < 24
    && 0 <= t.minute < 60
    && 0 <= t.second < 60
    && 0 <= t.micro < 1000000
  }

  /** The position of `t` on the time line, in microseconds; it orders valid timestamps chronologically. */
  function Key(t: Timestamp): int {
    (((((t.year * 12 + (t.month - 1)) * 31 + (t.day - 1)) * 24 + t.hour) * 60 + t.minute) * 60 + t.second) * 1000000 + t.micro
  }

  function Pow10(n: nat): (r: nat)
    ensures r >= 1
  {
    if n == 0 then 1 else 10 * Pow10(n - 1)
  }

  predicate IsDigit(c: char) {
    '0' <= c <= '9'
  }

  predicate AllDigits(s: string) {
    forall i :: 0 <= i < |s| ==> IsDigit(s[i])
  }

  function Digit(d: int): (c: char)
    requires 0 <= d < 10
    ensures IsDigit(c)
  {
    ('0' as int + d) as char
  }

  /** The decimal value of a digit string. */
  function DigitsValue(s: string): nat
    requires AllDigits(s)
  {
    if |s| == 0 then 0
    else
      var init := s[..|s| - 1];
      assert forall i :: 0 <= i < |init| ==> init[i] == s[i];
      DigitsValue(init) * 10 + (s[|s| - 1] as int - '0' as int)
  }

  /** `%0*d`: `n` in decimal, zero-padded to `width` digits . */
  function Pad(n: nat, width: nat): (r: string)
    requires n < Pow10(width)
    ensures |r| == width && AllDigits(r)
  {
    if width == 0 then ""
    else
      var rest := Pad(n / 10, width - 1);
      var r := rest + [Digit(n % 10)];
      assert forall i :: 0 <= i < width - 1 ==> r[i] == rest[i];
      r
  }

  /** Reading back a zero-padded number yields the number. */
  lemma {:induction false} PadValue(n: nat, width: nat)
    requires n < Pow10(width)
    ensures DigitsValue(Pad(n, width)) == n
  {
    if width > 0 {
      var r := Pad(n, width);
      assert r[..width - 1] == Pad(n / 10, width - 1);
      PadValue(n / 10, width - 1);
    }
  }

  /** A number parsed from a field of exactly `width` digits. */
  function ParseField(s: string, width: nat): Option<nat> {
    if |s| == width && AllDigits(s) then Some(DigitsValue(s)) else None
  }

  lemma ParsePad(n: nat, width: nat)
    requires n < Pow10(width)
    ensures ParseField(Pad(n, width), width) == Some(n)
  {
    PadValue(n, width);
  }

  const UtcOffset: string := "+00:00"

  /** The fraction `isoformat` writes: nothing for a whole second, otherwise six digits. */
  function Fraction(micro: int): (r: string)
    requires 0 <= micro < 1000000
    ensures micro == 0 ==> r == ""
    ensures micro != 0 ==> |r| == 7 && r[0] == '.'
  {
    if micro == 0 then "" else "." + Pad(micro, 6)
  }

  /** The `YYYY-MM-DDTHH:MM:SS` part of `isoformat`. */
  function Clock(t: Timestamp): (s: string)
    requires Valid(t)
    ensures |s| == 19
  {
    Pad(t.year, 4) + "-" + Pad(t.month, 2) + "-" + Pad(t.day, 2) + "T"
      + Pad(t.hour, 2) + ":" + Pad(t.minute, 2) + ":" + Pad(t.second, 2)
  }

  /** `datetime.isoformat()` of an aware UTC timestamp: `YYYY-MM-DDTHH:MM:SS[.ffffff]+00:00`. */
  function IsoFormat(t: Timestamp): (s: string)
    requires Valid(t)
    ensures |s| == (if t.micro == 0 then 25 else 32)
  {
    Clock(t) + Fraction(t.micro) + UtcOffset
  }

  /** The fields of a `YYYY-MM-DDTHH:MM:SS` string, microseconds zero; None when the layout is wrong. */
  function ParseClock(c: string): Option<Timestamp> {
    if |c| != 19 || c[4] != '-' || c[7] != '-' || c[10] != 'T' || c[13] != ':' || c[16] != ':' then None
    else
      var year, month, day := ParseField(c[..4], 4), ParseField(c[5..7], 2), ParseField(c[8..10], 2);
      var hour, minute, second := ParseField(c[11..13], 2), ParseField(c[14..16], 2), ParseField(c[17..19], 2);
      if year.Some? && month.Some? && day.Some? && hour.Some? && minute.Some? && second.Some? then
        Some(Timestamp(year.value, month.value, day.value, hour.value, minute.value, second.value, 0))
      else None
  }

  /**
   * `datetime.fromisoformat` for the strings `isoformat` writes for UTC
   * timestamps: a fixed layout, fields within range, a UTC offset.
   */
  function FromIsoFormat(s: string): (r: Result<Timestamp>)
    ensures r.Ok? ==> Valid(r.value)
  {
    var clock := if |s| >= 19 then ParseClock(s[..19]) else None;
    var micro :=
      if |s| == 25 && s[19..] == UtcOffset then Some(0)
      else if |s| == 32 && s[19] == '.' && s[26..] == UtcOffset then ParseField(s[20..26], 6)
      else None;
    if clock.None? || micro.None? then Err("Invalid isoformat string: " + s)
    else
      var t := clock.value.(micro := micro.value);
      if Valid(t) then Ok(t) else Err("field out of range: " + s)
  }

  /** The clock part reads back to the fields it was written from. */
  lemma ClockRoundTrip(t: Timestamp)
    requires Valid(t)
    ensures ParseClock(Clock(t)) == Some(t.(micro := 0))
  {
    var c := Clock(t);
    assert c[..4] == Pad(t.year, 4);
    assert c[5..7] == Pad(t.month, 2);
    assert c[8..10] == Pad(t.day, 2);
    assert c[11..13] == Pad(t.hour, 2);
    assert c[14..16] == Pad(t.minute, 2);
    assert c[17..19] == Pad(t.second, 2);
    ParsePad(t.year, 4);
    ParsePad(t.month, 2);
    ParsePad(t.day, 2);
    ParsePad(t.hour, 2);
    ParsePad(t.minute, 2);
    ParsePad(t.second, 2);
  }

  /** Where the parts of `isoformat`'s output sit in the string. */
  lemma IsoParts(c: string, f: string, s: string)
    requires |c| == 19 && s == c + f + UtcOffset
    ensures s[..19] == c
    ensures |s| >= 25 && s[|s| - 6..] == UtcOffset
    ensures forall i :: 0 <= i < |f| ==> s[19 + i] == f[i]
  {
  }

  /** Reading back what `isoformat` wrote gives the same timestamp: the history keeps its times exactly. */
  lemma IsoRoundTrip(t: Timestamp)
    requires Valid(t)
    ensures FromIsoFormat(IsoFormat(t)) == Ok(t)
  {
    var s := IsoFormat(t);
    var f := Fraction(t.micro);
    IsoParts(Clock(t), f, s);
    ClockRoundTrip(t);
    if t.micro != 0 {
      assert s[20..26] == f[1..];
      ParsePad(t.micro, 6);
    }
  }
}
