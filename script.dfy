/** The two text helpers of the browser journal (static/js/script.js):
    `toArabicNumber`, which writes each ASCII digit as an Arabic-Indic digit,
    and `formatTime`, which renders an hour and minute on the 12-hour clock
    in those digits. */
module Script {
  import opened Text
  import opened Clock

  /** The Arabic-Indic digit zero, U+0660; the other nine follow it. */
  const ArabicZero: int := 0x0660

  predicate IsArabicDigit(c: char) {
    ArabicZero <= c as int < ArabicZero + 10
  }

  /** `arabicNumbers[parseInt(digit)] || digit` for one character: an ASCII
      digit indexes the table, anything else parses to NaN, finds nothing and
      falls back to itself. */
  function ArabicDigit(c: char): (d: char)
    ensures IsDigit(c) ==> IsArabicDigit(d) && d as int - ArabicZero == DigitValue(c)
    ensures !IsDigit(c) ==> d == c
  {
    if IsDigit(c) then (ArabicZero + DigitValue(c)) as char else c
  }

  /** `toArabicNumber()`: split into characters, map each, join. */
  function ToArabicNumber(s: string): (r: string)
    ensures |r| == |s|
    ensures forall i :: 0 <= i < |s| ==> r[i] == ArabicDigit(s[i])
  {
    seq(|s|, i requires 0 <= i < |s| => ArabicDigit(s[i]))
  }

  /** Every ASCII digit is gone from the result; in text that had no
      Arabic-Indic digits, exactly the positions that held an ASCII digit
      now hold an Arabic-Indic one. */
  lemma NoAsciiDigitsLeft(s: string)
    ensures forall i :: 0 <= i < |s| ==> !IsDigit(ToArabicNumber(s)[i])
    ensures (forall i :: 0 <= i < |s| ==> !IsArabicDigit(s[i])) ==>
      forall i :: 0 <= i < |s| ==> (IsArabicDigit(ToArabicNumber(s)[i]) <==> IsDigit(s[i]))
  {
  }

  /** Reading Arabic-Indic digits back as ASCII. */
  function AsciiDigit(c: char): char {
    if IsArabicDigit(c) then ('0' as int + (c as int - ArabicZero)) as char else c
  }

  function ToAscii(s: string): string {
    seq(|s|, i requires 0 <= i < |s| => AsciiDigit(s[i]))
  }

  /** On text without Arabic-Indic digits the substitution is undone by
      reading the digits back. */
  lemma ToArabicNumberRoundTrip(s: string)
    requires forall i :: 0 <= i < |s| ==> !IsArabicDigit(s[i])
    ensures ToAscii(ToArabicNumber(s)) == s
  {
    var r := ToAscii(ToArabicNumber(s));
    assert forall i :: 0 <= i < |s| ==> r[i] == s[i];
  }

  /** `toArabicNumber(n)` of a number: its decimal digits, each written in
      Arabic-Indic. */
  lemma NumberInArabicDigits(n: nat)
    ensures |ToArabicNumber(NatToString(n))| == |NatToString(n)|
    ensures forall i :: 0 <= i < |NatToString(n)| ==> IsArabicDigit(ToArabicNumber(NatToString(n))[i])
  {
  }

  /** `str.replace(/\d/g, d => toArabicNumber(d))`: each ASCII digit is
      replaced by the conversion of that one digit, every other character is
      kept. */
  function ReplaceDigits(s: string): string {
    if s == [] then []
    else (if IsDigit(s[0]) then ToArabicNumber([s[0]]) else [s[0]]) + ReplaceDigits(s[1..])
  }

  /** Replacing digit by digit is the same as converting the whole text. */
  lemma {:induction false} ReplaceDigitsIsToArabicNumber(s: string)
    ensures ReplaceDigits(s) == ToArabicNumber(s)
  {
    if s != [] {
      ReplaceDigitsIsToArabicNumber(s[1..]);
      var head := if IsDigit(s[0]) then ToArabicNumber([s[0]]) else [s[0]];
      assert head == [ArabicDigit(s[0])];
      assert ToArabicNumber(s) == [ArabicDigit(s[0])] + ToArabicNumber(s[1..]);
    }
  }

  /** The displayed hour of `formatTime()`: `hours % 12`, with 0 shown as 12. */
  function JsHour(hours: int): int
    requires HourOfDay(hours)
  {
    if hours % 12 != 0 then hours % 12 else 12
  }

  /** `hours >= 12 ? 'مساءً' : 'صباحاً'` */
  function JsSuffix(hours: int): string
    requires HourOfDay(hours)
  {
    if hours >= 12 then Evening else Morning
  }

  /** `formatTime()` for the hours and minutes of the given time: the
      12-hour text, then every digit in it written in Arabic-Indic. */
  function FormatTime(hours: int, minutes: int): string
    requires HourOfDay(hours) && MinuteOfHour(minutes)
  {
    ReplaceDigits(NatToString(JsHour(hours)) + ":" + PadTwo(NatToString(minutes)) + " " + JsSuffix(hours))
  }

  /** The browser's hour arithmetic and the server's agree: `formatTime()`
      shows the same clock text `create_entry` stores, in Arabic-Indic
      digits, with the displayed hour in 1..12. */
  lemma FormatTimeMatchesServer(hours: int, minutes: int)
    requires HourOfDay(hours) && MinuteOfHour(minutes)
    ensures 1 <= JsHour(hours) <= 12 && JsHour(hours) == TwelveHour(hours)
    ensures JsSuffix(hours) == Suffix(hours)
    ensures FormatTime(hours, minutes) == ToArabicNumber(ClockText(hours, minutes))
  {
    ReplaceDigitsIsToArabicNumber(ClockText(hours, minutes));
  }

  /** The text `formatTime()` returns holds no ASCII digit, and is as long as
      the server's clock text. */
  lemma FormatTimeHasNoAsciiDigits(hours: int, minutes: int)
    requires HourOfDay(hours) && MinuteOfHour(minutes)
    ensures |FormatTime(hours, minutes)| == |ClockText(hours, minutes)|
    ensures forall i :: 0 <= i < |FormatTime(hours, minutes)| ==> !IsDigit(FormatTime(hours, minutes)[i])
  {
    FormatTimeMatchesServer(hours, minutes);
  }
}
