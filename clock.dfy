/** The 12-hour clock text the service shows for an entry: the hour of the
    day (0..23) becomes 1..12 with a morning or evening suffix, followed by
    two-digit minutes (the conversion in `create_entry`, app.py). */
module Clock {
  import opened Text

  const Morning: string := "صباحاً"
  const Evening: string := "مساءً"

  predicate HourOfDay(hour: int) {
    0 <= hour < 24
  }

  predicate MinuteOfHour(minute: int) {
    0 <= minute < 60
  }

  /** The displayed hour: the one hour in 1..12 that agrees with the hour of
      the day modulo 12, so midnight and noon both show as 12. */
  function TwelveHour(hour: int): (h: int)
    requires HourOfDay(hour)
    ensures 1 <= h <= 12
    ensures h % 12 == hour % 12
    ensures h == 12 <==> hour == 0 || hour == 12
  {
    if hour < 12 then (if hour == 0 then 12 else hour)
    else (if hour > 12 then hour - 12 else hour)
  }

  /** Morning before noon, evening from noon on. */
  function Suffix(hour: int): (s: string)
    requires HourOfDay(hour)
  {
    if hour < 12 then Morning else Evening
  }

  /** The displayed hour and suffix pin the hour of the day down: the
      conversion loses nothing. */
  lemma TwelveHourInjective(a: int, b: int)
    requires HourOfDay(a) && HourOfDay(b)
    requires TwelveHour(a) == TwelveHour(b) && Suffix(a) == Suffix(b)
    ensures a == b
  {
    assert Morning[0] != Evening[0];
  }

  /** The step-by-step reassignment of `hour` and `ampm` in `create_entry`. */
  method ConvertHour(hourOfDay: int) returns (hour: int, ampm: string)
    requires HourOfDay(hourOfDay)
    ensures hour == TwelveHour(hourOfDay) && ampm == Suffix(hourOfDay)
  {
    hour := hourOfDay;
    if hour < 12 {
      ampm := Morning;
      if hour == 0 {
        hour := 12;
      }
    } else {
      ampm := Evening;
      if hour > 12 {
        hour := hour - 12;
      }
    }
  }

  /** `f"{hour}:{minute:02d} {ampm}"` after the conversion. */
  function ClockText(hour: int, minute: int): string
    requires HourOfDay(hour) && MinuteOfHour(minute)
  {
    NatToString(TwelveHour(hour)) + ":" + PadTwo(NatToString(minute)) + " " + Suffix(hour)
  }

  /** The text reads back: one or two digits of the displayed hour, a colon,
      exactly two digits of the minute, a space, then the suffix. */
  lemma ClockTextFields(hour: int, minute: int)
    requires HourOfDay(hour) && MinuteOfHour(minute)
    ensures var t := ClockText(hour, minute);
      var k := |t| - |Suffix(hour)| - 4;
      && 1 <= k <= 2 && t[k] == ':' && t[k + 3] == ' '
      && AllDigits(t[..k]) && ParseDigits(t[..k]) == TwelveHour(hour)
      && AllDigits(t[k + 1..k + 3]) && ParseDigits(t[k + 1..k + 3]) == minute
      && t[k + 4..] == Suffix(hour)
  {
    ParseNatToString(TwelveHour(hour));
    TwoDigitsOfSmall(minute);
    Layout(NatToString(TwelveHour(hour)), PadTwo(NatToString(minute)), Suffix(hour));
  }

  /** Where the fields of `hour + ":" + minute + " " + suffix` sit. */
  lemma Layout(hs: string, ms: string, suffix: string)
    requires |ms| == 2
    ensures var t := hs + ":" + ms + " " + suffix;
      var k := |hs|;
      && |t| == k + 4 + |suffix| && t[k] == ':' && t[k + 3] == ' '
      && t[..k] == hs && t[k + 1..k + 3] == ms && t[k + 4..] == suffix
  {
    var t := hs + ":" + ms + " " + suffix;
    var k := |hs|;
    assert t[..k] == hs;
    assert t[k + 1..k + 3] == ms;
    assert t[k + 4..] == suffix;
  }
}
