/**
 * Display helpers the web pages share: the text of a running time in
 * minutes, as the pages' `formatDuration` writes it ("2h 8m", "45m"), and a
 * reader for that text, which shows that the text determines the time.
 */
module Display {
  import opened Wrappers
  import opened Text

  /**
   * `minutes % 60` in JavaScript, whose remainder takes the sign of the
   * dividend: it differs from `minutes` by whole hours.
   */
  function Minutes(minutes: int): (r: int)
    ensures minutes >= 0 ==> 0 <= r < 60
    ensures minutes < 0 ==> -60 < r <= 0
    ensures (minutes - r) % 60 == 0
  {
    if minutes >= 0 then minutes % 60 else -((-minutes) % 60)
  }

  /** `Math.floor(m / 60)`; Dafny's division by a positive number already rounds down. */
  function Hours(minutes: int): int {
    minutes / 60
  }

  /**
   * The running-time text: "<hours>h <minutes>m" when the whole hours are
   * positive, "<minutes>m" otherwise.
   */
  function DurationText(minutes: int): (r: string)
    ensures |r| >= 2 && r[|r| - 1] == 'm'
  {
    var hours, mins := Hours(minutes), Minutes(minutes);
    if hours > 0 then IntToString(hours) + "h " + IntToString(mins) + "m" else IntToString(mins) + "m"
  }

  /** The number of decimal digits `s` starts with. */
  function LeadingDigits(s: string): (r: nat)
    ensures r <= |s|
    ensures forall i | 0 <= i < r :: IsDigit(s[i])
    ensures r < |s| ==> !IsDigit(s[r])
  {
    if s == [] || !IsDigit(s[0]) then 0 else 1 + LeadingDigits(s[1..])
  }

  /** Reads "<m>m", with decimal digits; anything else is `None`. */
  function ParseMinutes(s: string): Option<int> {
    var k := LeadingDigits(s);
    if k > 0 && s[k..] == "m" then Some(ParseDigits(s[..k])) else None
  }

  /** Reads a running-time text back: "<h>h <m>m" or "<m>m", with decimal digits; anything else is `None`. */
  function ParseDuration(s: string): Option<int> {
    var k := LeadingDigits(s);
    if k == 0 then None else ParseUnit(ParseDigits(s[..k]), s[k..])
  }

  /** What follows the first number `n`: "m" ends the text, "h " starts the minutes. */
  function ParseUnit(n: int, rest: string): Option<int> {
    if rest == "m" then Some(n)
    else if |rest| >= 2 && rest[..2] == "h " then
      match ParseMinutes(rest[2..])
      case None => None
      case Some(m) => Some(n * 60 + m)
    else None
  }

  /** Digits followed by a non-digit (or nothing) are read up to the non-digit. */
  lemma {:induction false} LeadingDigitsOf(d: string, t: string)
    requires forall i | 0 <= i < |d| :: IsDigit(d[i])
    requires t == [] || !IsDigit(t[0])
    ensures LeadingDigits(d + t) == |d|
    decreases |d|
  {
    if d != [] {
      assert (d + t)[1..] == d[1..] + t;
      LeadingDigitsOf(d[1..], t);
    }
  }

  /**
   * A running time that is not negative is read back from its text: the
   * whole hours and the minutes left over, below 60, make up the time again.
   */
  lemma DurationRoundTrip(minutes: nat)
    ensures ParseDuration(DurationText(minutes)) == Some(minutes)
    ensures Hours(minutes) * 60 + Minutes(minutes) == minutes && 0 <= Minutes(minutes) < 60
  {
    if Hours(minutes) > 0 {
      TextWithHours(minutes);
    } else {
      TextWithoutHours(minutes);
    }
  }

  /** With whole hours, the text is the hours' digits, "h ", the minutes' digits and "m". */
  lemma TextWithHours(minutes: nat)
    requires Hours(minutes) > 0
    ensures ParseDuration(DurationText(minutes)) == Some(minutes)
  {
    var hours, mins := Hours(minutes), Minutes(minutes);
    assert mins == minutes % 60;
    assert DurationText(minutes) == NatToString(hours) + "h " + NatToString(mins) + "m";
    ReadHoursMinutes(hours, mins);
  }

  /** Under an hour, the text is the minutes' digits and "m". */
  lemma TextWithoutHours(minutes: nat)
    requires Hours(minutes) <= 0
    ensures ParseDuration(DurationText(minutes)) == Some(minutes)
  {
    assert Minutes(minutes) == minutes;
    assert DurationText(minutes) == NatToString(minutes) + "m";
    ReadMinutes(minutes);
  }

  lemma ReadMinutes(mins: nat)
    ensures ParseDuration(NatToString(mins) + "m") == Some(mins)
  {
    ParseNatToString(mins);
    ReadDigitsM(NatToString(mins));
  }

  lemma ReadHoursMinutes(hours: nat, mins: nat)
    requires hours > 0
    ensures ParseDuration(NatToString(hours) + "h " + NatToString(mins) + "m") == Some(hours * 60 + mins)
  {
    ParseNatToString(hours);
    ParseNatToString(mins);
    ReadDigitsHM(NatToString(hours), NatToString(mins));
  }

  lemma ReadDigitsM(ms: string)
    requires |ms| > 0 && forall i | 0 <= i < |ms| :: IsDigit(ms[i])
    ensures ParseDuration(ms + "m") == Some(ParseDigits(ms))
  {
    var s := ms + "m";
    LeadingDigitsOf(ms, "m");
    assert s[..|ms|] == ms && s[|ms|..] == "m";
  }

  lemma ReadMinutesPart(ms: string)
    requires |ms| > 0 && forall i | 0 <= i < |ms| :: IsDigit(ms[i])
    ensures ParseMinutes(ms + "m") == Some(ParseDigits(ms))
  {
    var s := ms + "m";
    LeadingDigitsOf(ms, "m");
    assert s[..|ms|] == ms && s[|ms|..] == "m";
  }

  lemma ReadDigitsHM(hs: string, ms: string)
    requires |hs| > 0 && forall i | 0 <= i < |hs| :: IsDigit(hs[i])
    requires |ms| > 0 && forall i | 0 <= i < |ms| :: IsDigit(ms[i])
    ensures ParseDuration(hs + "h " + ms + "m") == Some(ParseDigits(hs) * 60 + ParseDigits(ms))
  {
    var tail := "h " + (ms + "m");
    Regroup(hs, "h ", ms, "m");
    assert !IsDigit(tail[0]);
    ReadNumberThen(hs, tail);
    ReadHoursUnit(ParseDigits(hs), ms + "m");
    ReadMinutesPart(ms);
  }

  /** A text starting with a number reads as that number followed by its unit. */
  lemma ReadNumberThen(hs: string, tail: string)
    requires |hs| > 0 && forall i | 0 <= i < |hs| :: IsDigit(hs[i])
    requires tail == [] || !IsDigit(tail[0])
    ensures ParseDuration(hs + tail) == ParseUnit(ParseDigits(hs), tail)
  {
    var s := hs + tail;
    LeadingDigitsOf(hs, tail);
    assert s[..|hs|] == hs && s[|hs|..] == tail;
  }

  /** After the hours, "h " introduces the minutes. */
  lemma ReadHoursUnit(n: int, rest: string)
    ensures ParseUnit(n, "h " + rest) == if ParseMinutes(rest).Some? then Some(n * 60 + ParseMinutes(rest).value) else None
  {
    var t := "h " + rest;
    assert t != "m";
    assert t[..2] == "h " && t[2..] == rest;
  }

  lemma Regroup(a: string, b: string, c: string, d: string)
    ensures a + b + c + d == a + (b + (c + d))
  {
  }
}
