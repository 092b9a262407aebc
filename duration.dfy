/**
  `format_duration`: a number of seconds as `M:SS`, or `H:MM:SS` from one
  hour on, and `0:00` for zero or a negative count.
 */
module Duration {

  import opened Wrappers
  import opened Text
  import opened Numerals

  function FormatDuration(seconds: int): string
  {
    if seconds <= 0 then "0:00"
    else
      var hours := seconds / 3600;
      var minutes := (seconds % 3600) / 60;
      var secs := seconds % 60;
      if hours > 0 then NatToString(hours) + ":" + Pad2(minutes) + ":" + Pad2(secs)
      else NatToString(minutes) + ":" + Pad2(secs)
  }

  /** A non-empty run of digits. */
  predicate IsNumeral(s: string)
  {
    s != "" && AllDigits(s)
  }

  /**
    Reading a clock reading back: two or three `:`-separated numerals, the
    last two counting minutes and seconds, as a number of seconds.
   */
  function ParseClock(r: string): Option<int>
  {
    ClockFields(Split(r, ":"))
  }

  /** The seconds that two or three numeral fields stand for. */
  function ClockFields(fields: seq<string>): Option<int>
  {
    if |fields| == 2 && IsNumeral(fields[0]) && IsNumeral(fields[1]) then
      Some(DigitsValue(fields[0]) * 60 + DigitsValue(fields[1]))
    else if |fields| == 3 && IsNumeral(fields[0]) && IsNumeral(fields[1]) && IsNumeral(fields[2]) then
      Some(ClockValue(DigitsValue(fields[0]), DigitsValue(fields[1]), DigitsValue(fields[2])))
    else None
  }

  /** The seconds in `h` hours, `m` minutes and `s` seconds. */
  function ClockValue(h: nat, m: nat, s: nat): int
  {
    h * 3600 + m * 60 + s
  }

  /** Splitting a run of digits, a colon and more on `:` puts the digits first. */
  lemma SplitAfterDigits(w: string, rest: string)
    requires AllDigits(w)
    ensures Split(w + ":" + rest, ":") == [w] + Split(rest, ":")
  {
    MarkAfterDigits(w, ":", rest);
    SplitAtFirst(w + ":" + rest, ":", |w|);
  }

  /** A run of digits holds no colon, so it splits into itself. */
  lemma SplitDigits(w: string)
    requires AllDigits(w)
    ensures Split(w, ":") == [w]
  {
    DigitsExclude(w, "", ":");
  }

  /** The reading of `m:ss`. */
  lemma ParseTwoFields(a: string, b: string)
    requires IsNumeral(a) && IsNumeral(b)
    ensures Split(a + ":" + b, ":") == [a, b]
  {
    SplitAfterDigits(a, b);
    SplitDigits(b);
  }

  /** The reading of `h:mm:ss`. */
  lemma ParseThreeFields(a: string, b: string, c: string)
    requires IsNumeral(a) && IsNumeral(b) && IsNumeral(c)
    ensures Split(a + ":" + b + ":" + c, ":") == [a, b, c]
  {
    assert a + ":" + b + ":" + c == a + ":" + (b + ":" + c);
    SplitAfterDigits(a, b + ":" + c);
    ParseTwoFields(b, c);
  }

  /** Reading back numerals `a:b` worth `total` seconds. */
  lemma ParseTwoNumerals(a: string, b: string, total: int)
    requires IsNumeral(a) && IsNumeral(b) && DigitsValue(a) * 60 + DigitsValue(b) == total
    ensures ParseClock(a + ":" + b) == Some(total)
  {
    ParseTwoFields(a, b);
    TwoFieldsWorth(a, b, total);
  }

  /** Reading back numerals `a:b:c` worth `total` seconds. */
  lemma ParseThreeNumerals(a: string, b: string, c: string, total: int)
    requires IsNumeral(a) && IsNumeral(b) && IsNumeral(c)
    requires ClockValue(DigitsValue(a), DigitsValue(b), DigitsValue(c)) == total
    ensures ParseClock(a + ":" + b + ":" + c) == Some(total)
  {
    ParseThreeFields(a, b, c);
    ThreeFieldsWorth(a, b, c, total);
  }

  /** Two numeral fields are worth their minutes and seconds. */
  lemma TwoFieldsWorth(a: string, b: string, total: int)
    requires IsNumeral(a) && IsNumeral(b) && DigitsValue(a) * 60 + DigitsValue(b) == total
    ensures ClockFields([a, b]) == Some(total)
  {
    var f := [a, b];
    assert |f| == 2 && f[0] == a && f[1] == b;
  }

  /** Three numeral fields are worth their hours, minutes and seconds. */
  lemma ThreeFieldsWorth(a: string, b: string, c: string, total: int)
    requires IsNumeral(a) && IsNumeral(b) && IsNumeral(c)
    requires ClockValue(DigitsValue(a), DigitsValue(b), DigitsValue(c)) == total
    ensures ClockFields([a, b, c]) == Some(total)
  {
    var f := [a, b, c];
    assert |f| == 3 && f[0] == a && f[1] == b && f[2] == c;
  }

  /** `str(n)` and `f"{n:02d}"` are numerals of the numbers they render. */
  lemma RenderedNumerals(n: nat, m: nat)
    ensures IsNumeral(NatToString(n)) && DigitsValue(NatToString(n)) == n
    ensures IsNumeral(Pad2(m)) && DigitsValue(Pad2(m)) == m
  {
    NatToStringRoundTrip(n);
    Pad2RoundTrip(m);
  }

  /** Hours, minutes within the hour and seconds within the minute add back up to the count. */
  lemma ClockFieldsSum(seconds: nat)
    ensures (seconds / 3600) * 3600 + ((seconds % 3600) / 60) * 60 + seconds % 60 == seconds
  {
    var q := seconds / 3600;
    var r := seconds % 3600;
    assert seconds == 3600 * q + r;
    assert r == 60 * (r / 60) + r % 60;
    assert seconds == 60 * (60 * q + r / 60) + r % 60;
    assert seconds % 60 == r % 60;
  }

  /** Under an hour there are no hours, and minutes and seconds add back up to the count. */
  lemma ShortFieldsSum(seconds: nat)
    requires seconds < 3600
    ensures seconds / 3600 == 0 && seconds % 3600 == seconds
    ensures (seconds / 60) * 60 + seconds % 60 == seconds
  {
  }

  /** From one hour on, the duration is three numerals worth the count. */
  lemma LongFields(seconds: int) returns (a: string, b: string, c: string)
    requires seconds >= 3600
    ensures FormatDuration(seconds) == a + ":" + b + ":" + c
    ensures IsNumeral(a) && IsNumeral(b) && IsNumeral(c)
    ensures ClockValue(DigitsValue(a), DigitsValue(b), DigitsValue(c)) == seconds
    ensures a == NatToString(seconds / 3600)
    ensures |b| == 2 && DigitsValue(b) < 60 && |c| == 2 && DigitsValue(c) < 60
  {
    var hours := seconds / 3600;
    var minutes := (seconds % 3600) / 60;
    var secs := seconds % 60;
    a, b, c := NatToString(hours), Pad2(minutes), Pad2(secs);
    RenderedNumerals(hours, minutes);
    RenderedNumerals(hours, secs);
    ClockFieldsSum(seconds);
  }

  /** Under an hour, a positive duration is two numerals worth the count. */
  lemma ShortFields(seconds: int) returns (a: string, b: string)
    requires 0 < seconds < 3600
    ensures FormatDuration(seconds) == a + ":" + b
    ensures IsNumeral(a) && IsNumeral(b)
    ensures DigitsValue(a) * 60 + DigitsValue(b) == seconds
    ensures a == NatToString(seconds / 60)
    ensures |b| == 2 && DigitsValue(b) < 60
  {
    ShortFieldsSum(seconds);
    a, b := NatToString(seconds / 60), Pad2(seconds % 60);
    RenderedNumerals(seconds / 60, seconds % 60);
  }

  /** Reading back a duration of an hour or more. */
  lemma LongRoundTrip(seconds: int)
    requires seconds >= 3600
    ensures ParseClock(FormatDuration(seconds)) == Some(seconds)
  {
    var a, b, c := LongFields(seconds);
    ParseThreeNumerals(a, b, c, seconds);
  }

  /** Reading back a positive duration under an hour. */
  lemma ShortRoundTrip(seconds: int)
    requires 0 < seconds < 3600
    ensures ParseClock(FormatDuration(seconds)) == Some(seconds)
  {
    var a, b := ShortFields(seconds);
    ParseTwoNumerals(a, b, seconds);
  }

  /**
    Reading the formatted duration back gives the number of seconds, every
    non-positive count reading as zero: nothing is lost or rounded.
   */
  lemma FormatDurationRoundTrip(seconds: int)
    ensures ParseClock(FormatDuration(seconds)) == Some(if seconds > 0 then seconds else 0)
  {
    if seconds <= 0 {
      ParseTwoNumerals("0", "00", 0);
      assert "0" + ":" + "00" == "0:00";
    } else if seconds < 3600 {
      ShortRoundTrip(seconds);
    } else {
      LongRoundTrip(seconds);
    }
  }

  /** The fields after the first have two digits each and stay under 60. */
  predicate MinuteFields(pieces: seq<string>)
  {
    forall k :: 1 <= k < |pieces| ==> |pieces[k]| == 2 && AllDigits(pieces[k]) && DigitsValue(pieces[k]) < 60
  }

  /**
    The hours field appears exactly from one hour on; the fields after the
    first always have exactly two digits and stay under 60, and the first
    field is the whole hours, or under an hour the whole minutes.
   */
  lemma FormatDurationFields(seconds: int)
    ensures var pieces := Split(FormatDuration(seconds), ":");
      (|pieces| == 3 <==> seconds >= 3600) &&
      (|pieces| == 2 <==> seconds < 3600)
    ensures MinuteFields(Split(FormatDuration(seconds), ":"))
    ensures Split(FormatDuration(seconds), ":")[0] ==
      NatToString(if seconds >= 3600 then seconds / 3600 else if seconds > 0 then seconds / 60 else 0)
  {
    if seconds <= 0 {
      ZeroPieces(seconds);
    } else if seconds < 3600 {
      ShortPieces(seconds);
    } else {
      LongPieces(seconds);
    }
  }

  /** A non-positive count prints as the two fields `0` and `00`. */
  lemma ZeroPieces(seconds: int)
    requires seconds <= 0
    ensures var pieces := Split(FormatDuration(seconds), ":");
      |pieces| == 2 && pieces[0] == NatToString(0) && MinuteFields(pieces)
  {
    ParseTwoFields("0", "00");
    assert "0" + ":" + "00" == "0:00";
    assert DigitsValue("00") == 0;
  }

  /** Under an hour, the fields are the whole minutes and the seconds. */
  lemma ShortPieces(seconds: int)
    requires 0 < seconds < 3600
    ensures var pieces := Split(FormatDuration(seconds), ":");
      |pieces| == 2 && pieces[0] == NatToString(seconds / 60) && MinuteFields(pieces)
  {
    var a, b := ShortFields(seconds);
    ParseTwoFields(a, b);
  }

  /** From an hour on, the fields are the whole hours, the minutes and the seconds. */
  lemma LongPieces(seconds: int)
    requires seconds >= 3600
    ensures var pieces := Split(FormatDuration(seconds), ":");
      |pieces| == 3 && pieces[0] == NatToString(seconds / 3600) && MinuteFields(pieces)
  {
    var a, b, c := LongFields(seconds);
    ParseThreeFields(a, b, c);
  }

  /** The durations of the record's tests: 3661 s, 65 s and 0 s. */
  lemma DurationExamples()
    ensures FormatDuration(3661) == "1:01:01"
    ensures FormatDuration(65) == "1:05"
    ensures FormatDuration(0) == "0:00"
  {
  }
}
