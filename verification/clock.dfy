/** Conversion of "HH:MM" times of day to seconds, with the one-day
    rollover used to place after-midnight services on the next day. */
module Clock {
  import opened Wrappers

  const SecondsInADay := 86400

  predicate IsDigit(c: char) {
    '0' <= c <= '9'
  }

  function DigitOf(c: char): int {
    c as int - '0' as int
  }

  predicate AllDigits(s: string) {
    forall k :: 0 <= k < |s| ==> IsDigit(s[k])
  }

  /** The value of a string of decimal digits, most significant first. */
  function DigitsValue(s: string): (r: nat)
    requires AllDigits(s)
  {
    if |s| == 0 then 0 else 10 * DigitsValue(s[..|s| - 1]) + DigitOf(s[|s| - 1])
  }

  /** Python's `int(...)` on a chunk of the time string: a non-empty run of
      decimal digits, anything else raises. */
  function ParseDecimal(s: string): (r: Option<nat>)
    ensures r.Some? <==> |s| > 0 && AllDigits(s)
    ensures |s| == 2 && r.Some? ==> r.value == 10 * DigitOf(s[0]) + DigitOf(s[1])
  {
    if |s| > 0 && AllDigits(s) then
      if |s| == 2 then
        assert s[..1][..0] == [];
        assert DigitsValue(s[..1]) == DigitOf(s[0]);
        Some(DigitsValue(s))
      else Some(DigitsValue(s))
    else None
  }

  /** `time_str[:2]` and `time_str[-2:]` of Python slicing. */
  function Head2(s: string): string {
    if |s| <= 2 then s else s[..2]
  }

  function Tail2(s: string): string {
    if |s| <= 2 then s else s[|s| - 2..]
  }

  /** The seconds since midnight that the hours and minutes of `s` name,
      before any rollover; `None` when either part is not a number. */
  function ClockSeconds(s: string): (r: Option<int>)
    ensures r.Some? ==> r.value >= 0
  {
    match (ParseDecimal(Head2(s)), ParseDecimal(Tail2(s)))
    case (Some(hh), Some(mm)) => Some(hh * 3600 + mm * 60)
    case _ => None
  }

  /** `time_to_seconds(time_str, t_ref)`: the clock seconds, moved to the next
      day when they fall before the reference `tRef`. `None` models the
      `ValueError` raised on a malformed time string. */
  function TimeToSeconds(s: string, tRef: int): (r: Option<int>)
    ensures r.Some? <==> ClockSeconds(s).Some?
    ensures r.Some? ==> (r.value == ClockSeconds(s).value <==> ClockSeconds(s).value >= tRef)
    ensures r.Some? ==> (r.value == SecondsInADay + ClockSeconds(s).value <==> ClockSeconds(s).value < tRef)
  {
    match ClockSeconds(s)
    case None => None
    case Some(seconds) => Some(if seconds >= tRef then seconds else SecondsInADay + seconds)
  }

  /** A five-character "HH:MM" string of digits. */
  predicate IsHhMm(s: string) {
    |s| == 5 && IsDigit(s[0]) && IsDigit(s[1]) && s[2] == ':' && IsDigit(s[3]) && IsDigit(s[4])
  }

  function Hours(s: string): int
    requires |s| == 5
  {
    10 * DigitOf(s[0]) + DigitOf(s[1])
  }

  function Minutes(s: string): int
    requires |s| == 5
  {
    10 * DigitOf(s[3]) + DigitOf(s[4])
  }

  /** A well-formed "HH:MM" never raises and is read as HH hours and MM minutes. */
  lemma HhMmClockSeconds(s: string)
    requires IsHhMm(s)
    ensures ClockSeconds(s) == Some(Hours(s) * 3600 + Minutes(s) * 60)
  {
    assert Head2(s) == [s[0], s[1]];
    assert Tail2(s) == [s[3], s[4]];
  }

  /** The conversion either keeps the clock seconds or adds exactly one day. */
  lemma RolloverIsZeroOrOneDay(s: string, tRef: int)
    requires TimeToSeconds(s, tRef).Some?
    ensures TimeToSeconds(s, tRef).value - ClockSeconds(s).value in {0, SecondsInADay}
  {
  }

  /** With reference 0 (the reference time of day itself) no day is added. */
  lemma NoRolloverFromMidnight(s: string)
    requires ClockSeconds(s).Some?
    ensures TimeToSeconds(s, 0) == ClockSeconds(s)
  {
  }

  /** For a reference inside the day, the converted time is never before it. */
  lemma NotBeforeReference(s: string, tRef: int)
    requires 0 <= tRef < SecondsInADay
    requires TimeToSeconds(s, tRef).Some?
    ensures TimeToSeconds(s, tRef).value >= tRef
  {
  }

  /** "00:10" against a 23:00 reference is ten past midnight of the next day. */
  lemma AfterMidnightExample()
    ensures TimeToSeconds("00:10", 23 * 3600) == Some(87000)
  {
    HhMmClockSeconds("00:10");
  }

  /** "08:10" against reference 0 is 08:10 of the same day. */
  lemma SameDayExample()
    ensures TimeToSeconds("08:10", 0) == Some(29400)
  {
    HhMmClockSeconds("08:10");
  }
}
