/**
 * The subtitle timestamp of `get_srt_time`: a millisecond offset printed as
 * `HH:MM:SS,mmm`. The clock part is `strftime('%H:%M:%S')` of `gmtime` of the
 * whole seconds, so the hour wraps at 24; the fraction is `ms % 1000` padded
 * to three digits.
 */
module SrtTime {
  import opened Wrappers
  import opened Decimal

  const MsPerSecond := 1000
  const MsPerDay := 86_400_000

  /** Two decimal digits, zero-padded (`%H`, `%M`, `%S`). */
  function Pad2(n: nat): (s: string)
    requires n < 100
    ensures |s| == 2 && IsDigit(s[0]) && IsDigit(s[1])
    ensures DigitValue(s[0]) * 10 + DigitValue(s[1]) == n
  {
    [DigitChar(n / 10), DigitChar(n % 10)]
  }

  /** Three decimal digits, zero-padded (`{x:03}`). */
  function Pad3(n: nat): (s: string)
    requires n < 1000
    ensures |s| == 3 && IsDigit(s[0]) && IsDigit(s[1]) && IsDigit(s[2])
    ensures DigitValue(s[0]) * 100 + DigitValue(s[1]) * 10 + DigitValue(s[2]) == n
  {
    assert n == (n / 100) * 100 + (n / 10 % 10) * 10 + n % 10;
    [DigitChar(n / 100), DigitChar(n / 10 % 10), DigitChar(n % 10)]
  }

  /**
   * `get_srt_time(ms)`. gmtime receives `ms / 1000.0` and keeps the whole
   * seconds rounded towards minus infinity; Dafny's `/` and `%` with a positive
   * divisor round the same way, so negative offsets come out as they do on a
   * POSIX C library (the previous day's clock).
   */
  function Format(ms: int): string {
    var secs := ms / MsPerSecond;
    var hours := secs / 3600 % 24;
    var minutes := secs / 60 % 60;
    var seconds := secs % 60;
    Pad2(hours) + ":" + Pad2(minutes) + ":" + Pad2(seconds) + "," + Pad3(ms % MsPerSecond)
  }

  /** The fields of a timestamp, read straight from the millisecond offset. */
  function Hours(ms: int): nat { ms / 3_600_000 % 24 }
  function Minutes(ms: int): nat { ms / 60_000 % 60 }
  function Seconds(ms: int): nat { ms / 1000 % 60 }
  function Millis(ms: int): nat { ms % 1000 }

  /** Reads a timestamp of the form `HH:MM:SS,mmm` back into milliseconds since midnight. */
  function Parse(s: string): Option<nat> {
    if |s| == 12 && s[2] == ':' && s[5] == ':' && s[8] == ','
       && (forall i | i in {0, 1, 3, 4, 6, 7, 9, 10, 11} :: 0 <= i < |s| && IsDigit(s[i]))
    then
      var h := DigitValue(s[0]) * 10 + DigitValue(s[1]);
      var m := DigitValue(s[3]) * 10 + DigitValue(s[4]);
      var sec := DigitValue(s[6]) * 10 + DigitValue(s[7]);
      var f := DigitValue(s[9]) * 100 + DigitValue(s[10]) * 10 + DigitValue(s[11]);
      Some(h * 3_600_000 + m * 60_000 + sec * 1000 + f)
    else
      None
  }

  /** The nested floors of gmtime and strftime agree with dividing the offset directly. */
  lemma FieldsFromMillis(ms: int)
    ensures ms / 1000 / 3600 == ms / 3_600_000
    ensures ms / 1000 / 60 == ms / 60_000
  {
    var secs := ms / 1000;
    var h := secs / 3600;
    assert ms == secs * 1000 + ms % 1000;
    assert secs == h * 3600 + secs % 3600;
    assert ms == h * 3_600_000 + (secs % 3600) * 1000 + ms % 1000;
    assert 0 <= (secs % 3600) * 1000 + ms % 1000 < 3_600_000;
    var mn := secs / 60;
    assert secs == mn * 60 + secs % 60;
    assert ms == mn * 60_000 + (secs % 60) * 1000 + ms % 1000;
    assert 0 <= (secs % 60) * 1000 + ms % 1000 < 60_000;
  }

  /**
   * The timestamp is `HH:MM:SS,mmm`, zero-padded, with H, M, S and mmm the
   * hour (mod 24), minute, second and millisecond of the offset.
   */
  lemma {:induction false} FormatLayout(ms: int)
    ensures var s := Format(ms);
      && |s| == 12 && s[2] == ':' && s[5] == ':' && s[8] == ','
      && s[0..2] == Pad2(Hours(ms)) && s[3..5] == Pad2(Minutes(ms))
      && s[6..8] == Pad2(Seconds(ms)) && s[9..12] == Pad3(Millis(ms))
  {
    FieldsFromMillis(ms);
  }

  /** Parsing a formatted timestamp gives back the offset modulo one day. */
  lemma {:induction false} ParseFormat(ms: int)
    ensures Parse(Format(ms)) == Some(ms % MsPerDay)
  {
    FormatLayout(ms);
    var s := Format(ms);
    assert s[0..2][0] == s[0] && s[0..2][1] == s[1];
    assert s[3..5][0] == s[3] && s[3..5][1] == s[4];
    assert s[6..8][0] == s[6] && s[6..8][1] == s[7];
    assert s[9..12][0] == s[9] && s[9..12][1] == s[10] && s[9..12][2] == s[11];
    assert Parse(s) == Some(Hours(ms) * 3_600_000 + Minutes(ms) * 60_000 + Seconds(ms) * 1000 + Millis(ms));
    DayDecomposition(ms);
  }

  lemma DayDecomposition(ms: int)
    ensures Hours(ms) * 3_600_000 + Minutes(ms) * 60_000 + Seconds(ms) * 1000 + Millis(ms) == ms % MsPerDay
  {
    FieldsModDay(ms);
    WithinDayDecomposition(ms % MsPerDay);
  }

  /** An offset within one day is the sum of its fields. */
  lemma WithinDayDecomposition(t: int)
    requires 0 <= t < MsPerDay
    ensures Hours(t) * 3_600_000 + Minutes(t) * 60_000 + Seconds(t) * 1000 + Millis(t) == t
  {
    assert Hours(t) == t / 3_600_000;
    assert t == (t / 1000) * 1000 + t % 1000;
    assert t / 1000 == (t / 60_000) * 60 + t / 1000 % 60;
    assert t / 60_000 == (t / 3_600_000) * 60 + t / 60_000 % 60;
  }

  /** Within the first day a timestamp reads back as the offset itself. */
  lemma ParseFormatWithinDay(ms: int)
    requires 0 <= ms < MsPerDay
    ensures Parse(Format(ms)) == Some(ms)
  {
    ParseFormat(ms);
    ModSmall(ms);
  }

  lemma ModSmall(ms: int)
    requires 0 <= ms < MsPerDay
    ensures ms % MsPerDay == ms
  {
  }

  /** Two offsets give the same timestamp exactly when they agree modulo one day. */
  lemma FormatInjectiveModDay(a: int, b: int)
    ensures Format(a) == Format(b) <==> a % MsPerDay == b % MsPerDay
  {
    ParseFormat(a);
    ParseFormat(b);
    if a % MsPerDay == b % MsPerDay {
      FormatLayout(a);
      FormatLayout(b);
      FieldsAgreeModDay(a, b);
      var sa, sb := Format(a), Format(b);
      assert sa == sa[0..2] + [':'] + sa[3..5] + [':'] + sa[6..8] + [','] + sa[9..12];
      assert sb == sb[0..2] + [':'] + sb[3..5] + [':'] + sb[6..8] + [','] + sb[9..12];
    }
  }

  /** The fields of an offset are those of its remainder modulo one day. */
  lemma FieldsModDay(ms: int)
    ensures Hours(ms) == Hours(ms % MsPerDay) && Minutes(ms) == Minutes(ms % MsPerDay)
    ensures Seconds(ms) == Seconds(ms % MsPerDay) && Millis(ms) == Millis(ms % MsPerDay)
  {
    var t := ms % MsPerDay;
    var q := ms / MsPerDay;
    assert ms == q * MsPerDay + t;
    assert ms / 1000 == q * 86400 + t / 1000;
    assert ms / 60_000 == q * 1440 + t / 60_000;
    assert ms / 3_600_000 == q * 24 + t / 3_600_000;
  }

  lemma FieldsAgreeModDay(a: int, b: int)
    requires a % MsPerDay == b % MsPerDay
    ensures Hours(a) == Hours(b) && Minutes(a) == Minutes(b)
    ensures Seconds(a) == Seconds(b) && Millis(a) == Millis(b)
  {
    FieldsModDay(a);
    FieldsModDay(b);
  }

  /** 4500 ms is printed `00:00:04,500`. */
  lemma ExampleFourAndAHalfSeconds()
    ensures Format(4500) == "00:00:04,500"
  {
    assert Pad2(0) == "00" && Pad2(4) == "04" && Pad3(500) == "500";
    assert Format(4500) == Pad2(0) + ":" + Pad2(0) + ":" + Pad2(4) + "," + Pad3(500);
  }

  /** 3661023 ms is printed `01:01:01,023`. */
  lemma ExampleOneHourOneMinute()
    ensures Format(3661023) == "01:01:01,023"
  {
    assert Pad2(1) == "01" && Pad3(23) == "023";
    assert Format(3661023) == Pad2(1) + ":" + Pad2(1) + ":" + Pad2(1) + "," + Pad3(23);
  }

  /** 9000 ms is printed `00:00:09,000`. */
  lemma ExampleNineSeconds()
    ensures Format(9000) == "00:00:09,000"
  {
    assert Pad2(0) == "00" && Pad2(9) == "09" && Pad3(0) == "000";
    assert Format(9000) == Pad2(0) + ":" + Pad2(0) + ":" + Pad2(9) + "," + Pad3(0);
  }

  /** 8950 ms is printed `00:00:08,950`. */
  lemma ExampleEightPointNineFiveSeconds()
    ensures Format(8950) == "00:00:08,950"
  {
    assert Pad2(0) == "00" && Pad2(8) == "08" && Pad3(950) == "950";
    assert Format(8950) == Pad2(0) + ":" + Pad2(0) + ":" + Pad2(8) + "," + Pad3(950);
  }

  /** 0 ms is printed `00:00:00,000`. */
  lemma ExampleZero()
    ensures Format(0) == "00:00:00,000"
  {
    assert Pad2(0) == "00" && Pad3(0) == "000";
    assert Format(0) == Pad2(0) + ":" + Pad2(0) + ":" + Pad2(0) + "," + Pad3(0);
  }

  /** 50 ms before the start is the previous day's last second: `23:59:59,950`. */
  lemma ExampleMinusFifty()
    ensures Format(-50) == "23:59:59,950"
  {
    assert Pad2(23) == "23" && Pad2(59) == "59" && Pad3(950) == "950";
    assert Format(-50) == Pad2(23) + ":" + Pad2(59) + ":" + Pad2(59) + "," + Pad3(950);
  }

  /** A whole day later the clock reads the same: the hour wraps at 24. */
  lemma ExampleNextDay()
    ensures Format(MsPerDay + 4500) == "00:00:04,500"
  {
    FormatInjectiveModDay(MsPerDay + 4500, 4500);
    ExampleFourAndAHalfSeconds();
  }
}
