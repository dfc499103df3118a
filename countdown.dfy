/**
 * The `HH:MM:SS` countdowns of App.tsx: the prompt-rotation timer of
 * `useCountdown` and the daily-ranking reset timer of `RankingView`.
 *
 * The clock is not read: the timers take the millisecond difference (or the
 * current UTC time in milliseconds) as an argument.
 */
module Countdown {
  import opened Wrappers
  import opened Decimal

  /** `Math.floor(n).toString().padStart(2, '0')` for `n >= 0`. */
  function Two(n: nat): (s: string)
    ensures |s| >= 2 && AllDigits(s)
    ensures n < 100 ==> |s| == 2
    ensures ParseDigits(s) == n
  {
    PaddedRoundTrip(n);
    PadStart2(NatToString(n))
  }


  /** `${h}:${m}:${s}` of three fields, minutes and seconds below 60: each field reads back. */
  function Clock(h: nat, m: nat, sec: nat): (t: string)
    requires m < 60 && sec < 60
    ensures ClockShape(t)
    ensures ParseDigits(t[..|t| - 6]) == h && ParseDigits(t[|t| - 5..|t| - 3]) == m && ParseDigits(t[|t| - 2..]) == sec
  {
    var a, b, c := Two(h), Two(m), Two(sec);
    var t := a + ":" + b + ":" + c;
    assert |b| == 2 && |c| == 2;
    assert t[..|t| - 6] == a;
    assert t[|t| - 5..|t| - 3] == b;
    assert t[|t| - 2..] == c;
    t
  }

  /**
   * The countdown text of a non-negative millisecond difference: whole hours,
   * then the minutes and the seconds left over, each below 60.
   */
  function FormatHMS(ms: nat): (t: string)
    ensures ClockShape(t)
  {
    FieldsBelow60(ms);
    Clock(ms / 3600000, (ms % 3600000) / 60000, (ms % 60000) / 1000)
  }

  /** Each field of the countdown text reads back as the field the timer computed. */
  lemma FormatHMSFields(ms: nat)
    ensures var t := FormatHMS(ms);
            ParseDigits(t[..|t| - 6]) == ms / 3600000
            && ParseDigits(t[|t| - 5..|t| - 3]) == (ms % 3600000) / 60000
            && ParseDigits(t[|t| - 2..]) == (ms % 60000) / 1000
  {
    FieldsBelow60(ms);
  }

  lemma FieldsBelow60(ms: nat)
    ensures (ms % 3600000) / 60000 < 60 && (ms % 60000) / 1000 < 60
  {
  }

  /**
   * Every character is a digit, except the two separators counted from the
   * right; the minutes and the seconds are two digits below 60.
   */
  predicate ClockShape(t: string) {
    |t| >= 8 && t[|t| - 3] == ':' && t[|t| - 6] == ':'
    && AllDigits(t[..|t| - 6]) && AllDigits(t[|t| - 5..|t| - 3]) && AllDigits(t[|t| - 2..])
    && ParseDigits(t[|t| - 5..|t| - 3]) < 60 && ParseDigits(t[|t| - 2..]) < 60
  }

  /**
   * Reads a clock text back as a number of whole seconds, fields taken from
   * the right so that the hours field may have any length.
   */
  function ParseHMS(t: string): (r: Option<nat>)
    ensures r.Some? <==> ClockShape(t)
  {
    if !ClockShape(t) then None
    else
      var h := ParseDigits(t[..|t| - 6]);
      var m := ParseDigits(t[|t| - 5..|t| - 3]);
      var s := ParseDigits(t[|t| - 2..]);
      Some(h * 3600 + m * 60 + s)
  }

  /** Euclidean division is determined by any quotient and remainder in range. */
  lemma DivUnique(x: int, d: int, q: int, r: int)
    requires d > 0 && x == d * q + r && 0 <= r < d
    ensures x / d == q && x % d == r
  {
    var q0, r0 := x / d, x % d;
    assert d * (q - q0) == r0 - r;
    if q > q0 {
      MulAtLeast(d, q - q0);
    } else if q < q0 {
      MulAtLeast(d, q0 - q);
    }
  }

  lemma MulAtLeast(d: int, k: int)
    requires d > 0 && k >= 1
    ensures d * k >= d
  {
    assert d * k == d * (k - 1) + d;
  }

  /** Each field of a millisecond count is a field of its whole seconds. */
  lemma FieldsBySeconds(ms: nat)
    ensures ms / 3600000 == (ms / 1000) / 3600
    ensures (ms % 3600000) / 60000 == ((ms / 1000) % 3600) / 60
    ensures (ms % 60000) / 1000 == (ms / 1000) % 60
  {
    var secs, u := ms / 1000, ms % 1000;
    var h, rest := secs / 3600, secs % 3600;
    var m, sec := rest / 60, rest % 60;
    assert secs == 3600 * h + rest && rest == 60 * m + sec;
    DivUnique(ms, 3600000, h, 1000 * rest + u);
    DivUnique(1000 * rest + u, 60000, m, 1000 * sec + u);
    DivUnique(ms, 60000, 60 * h + m, 1000 * sec + u);
    DivUnique(1000 * sec + u, 1000, sec, u);
  }

  /** Hours, minutes and seconds of a number of whole seconds: minutes and seconds below 60, adding back up. */
  lemma SecondsSplit(secs: nat)
    ensures (secs % 3600) / 60 < 60 && (secs % 3600) % 60 < 60
    ensures (secs / 3600) * 3600 + ((secs % 3600) / 60) * 60 + (secs % 3600) % 60 == secs
  {
    var h, rest := secs / 3600, secs % 3600;
    assert secs == 3600 * h + rest && 0 <= rest < 3600;
    assert rest == 60 * (rest / 60) + rest % 60;
  }

  /** The three fields: minutes and seconds below 60, and together the whole seconds of `ms`. */
  lemma FieldsOfHMS(ms: nat)
    ensures (ms % 3600000) / 60000 < 60 && (ms % 60000) / 1000 < 60
    ensures (ms / 3600000) * 3600 + ((ms % 3600000) / 60000) * 60 + (ms % 60000) / 1000 == ms / 1000
  {
    FieldsBySeconds(ms);
    SecondsSplit(ms / 1000);
  }

  /** The reader takes only the canonical split: `00:60:00` is not a clock text. */
  lemma SixtyMinutesRejected()
    ensures ParseHMS("00:60:00") == None && ParseHMS("01:00:00") == Some(3600)
  {
    var t := "00:60:00";
    assert t[|t| - 5..|t| - 3] == "60";
    assert ParseDigits("60") == 60 by {
      assert "60"[..1] == "6";
    }
    var u := "01:00:00";
    assert u[..|u| - 6] == "01" && u[|u| - 5..|u| - 3] == "00" && u[|u| - 2..] == "00";
    assert ParseDigits("01") == 1 by {
      assert "01"[..1] == "0";
    }
    assert ParseDigits("00") == 0 by {
      assert "00"[..1] == "0";
    }
  }

  /** Three fields joined by `:` read back as the seconds they stand for. */
  lemma ParseClock(h: nat, m: nat, sec: nat)
    requires m < 60 && sec < 60
    ensures ParseHMS(Clock(h, m, sec)) == Some(h * 3600 + m * 60 + sec)
  {
  }

  /** The countdown text reads back as the whole seconds left. */
  lemma ParseFormatHMS(ms: nat)
    ensures ParseHMS(FormatHMS(ms)) == Some(ms / 1000)
  {
    var h, m, sec := ms / 3600000, (ms % 3600000) / 60000, (ms % 60000) / 1000;
    FieldsOfHMS(ms);
    FormatHMSIsClock(ms);
    ParseClock(h, m, sec);
  }

  /** Two differences show the same text exactly when they have the same whole seconds. */
  lemma FormatHMSInjective(a: nat, b: nat)
    ensures FormatHMS(a) == FormatHMS(b) <==> a / 1000 == b / 1000
  {
    ParseFormatHMS(a);
    ParseFormatHMS(b);
    FieldsBySeconds(a);
    FieldsBySeconds(b);
  }

  /** What one tick of `useCountdown` does: reload the page, or show the time left. */
  datatype Display = Reload | Show(text: string)

  /** One tick of `useCountdown`, given `diff = next rotation - now` in milliseconds. */
  function CountdownTick(diff: int): (d: Display)
    ensures d.Reload? <==> diff <= 0
    ensures d.Show? ==> ParseHMS(d.text) == Some(diff / 1000)
  {
    if diff <= 0 then Reload
    else
      ParseFormatHMS(diff);
      Show(FormatHMS(diff))
  }

  /** `setUTCHours(24, 0, 0, 0)` on the current instant: the next UTC midnight. */
  function NextUtcMidnight(now: nat): (m: nat)
    ensures now < m <= now + 86400000 && m % 86400000 == 0
  {
    (now / 86400000 + 1) * 86400000
  }

  /** `24:00:00`, the text of a whole day. */
  lemma FullDayText()
    ensures FormatHMS(86400000) == "24:00:00"
  {
    FullDayFields();
    FullDayClock();
  }

  lemma FullDayFields()
    ensures FormatHMS(86400000) == Clock(24, 0, 0)
  {
    var ms := 86400000;
    assert ms / 3600000 == 24 && (ms % 3600000) / 60000 == 0 && (ms % 60000) / 1000 == 0;
    FormatHMSIsClock(ms);
  }

  lemma FormatHMSIsClock(ms: nat)
    ensures (ms % 3600000) / 60000 < 60 && (ms % 60000) / 1000 < 60
    ensures FormatHMS(ms) == Clock(ms / 3600000, (ms % 3600000) / 60000, (ms % 60000) / 1000)
  {
    FieldsBelow60(ms);
  }

  lemma FullDayClock()
    ensures Clock(24, 0, 0) == "24:00:00"
  {
    TwoExamples();
  }

  lemma TwoExamples()
    ensures Two(24) == "24" && Two(0) == "00"
  {
    assert NatToString(24) == NatToString(2) + [DigitChar(4)];
  }

  /**
   * One tick of the daily reset timer at UTC time `now`. The target is always
   * strictly ahead of `now`, so the branch for a non-positive difference, which
   * would move the target one more day ahead, is never taken.
   */
  function ResetTimerText(now: nat): (t: string)
    ensures ParseHMS(t) == Some((NextUtcMidnight(now) - now) / 1000)
  {
    var midnight := NextUtcMidnight(now);
    var diff := midnight - now;
    if diff <= 0 then
      assert false;
      ""
    else
      ParseFormatHMS(diff);
      FormatHMS(diff)
  }

  /** The reset timer shows at most a full day, and the full day exactly at UTC midnight. */
  lemma ResetTimerBounds(now: nat)
    ensures 0 < NextUtcMidnight(now) - now <= 86400000
    ensures ResetTimerText(now) == FormatHMS(NextUtcMidnight(now) - now)
    ensures ResetTimerText(now) == "24:00:00" <==> now % 86400000 == 0
  {
    MidnightDiff(now);
    ResetTextIsFormat(now);
    ResetFullDay(now);
  }

  /** The reset text is `24:00:00` exactly at a UTC midnight. */
  lemma ResetFullDay(now: nat)
    ensures ResetTimerText(now) == "24:00:00" <==> now % 86400000 == 0
  {
    var r := now % 86400000;
    var diff := 86400000 - r;
    MidnightDiff(now);
    ResetTextIsFormat(now);
    assert ResetTimerText(now) == FormatHMS(diff);
    FullDayTextIff(diff);
    FullDayOnlyAtMidnight(r);
    assert diff / 1000 == 86400 <==> r == 0;
  }

  lemma ResetTextIsFormat(now: nat)
    ensures ResetTimerText(now) == FormatHMS(NextUtcMidnight(now) - now)
  {
  }

  /** A difference is shown as `24:00:00` exactly when it holds 86400 whole seconds. */
  lemma FullDayTextIff(ms: nat)
    ensures FormatHMS(ms) == "24:00:00" <==> ms / 1000 == 86400
  {
    FullDayText();
    FormatHMSInjective(ms, 86400000);
  }

  /** The time to the next UTC midnight is a day less the time since the last one. */
  lemma MidnightDiff(now: nat)
    ensures NextUtcMidnight(now) - now == 86400000 - now % 86400000
  {
    var q, r := now / 86400000, now % 86400000;
    assert now == 86400000 * q + r;
    assert NextUtcMidnight(now) == 86400000 * q + 86400000;
  }

  /** A day less `r` milliseconds is a whole day of seconds only when `r` is 0. */
  lemma FullDayOnlyAtMidnight(r: nat)
    requires r < 86400000
    ensures (86400000 - r) / 1000 == 86400 <==> r == 0
  {
    if r != 0 {
      var secs := (86400000 - r) / 1000;
      assert 1000 * secs <= 86400000 - r < 86400000;
    }
  }
}
