/** `format_gap`, the backend's rendering of the distance to the leader,
    and `GapValue`, which reads a gap back and is the partner defined here to
    state that nothing is lost in rendering. */
module Gap {
  import opened Results
  import opened Text
  import opened PyBuiltins
  import opened LapTime

  /** `format_gap`: "-" for a time equal to the leader's; otherwise the
      difference as `+0.mmm` below a second, `+S.mmm` below a minute and
      `+M:SS.mmm` from a minute on. */
  function FormatGap(leaderMs: int, currentMs: int): (r: string)
    ensures (r == "-") <==> (leaderMs == currentMs)
    ensures r != "-" ==> |r| > 1 && r[0] == '+'
  {
    if leaderMs == currentMs then "-"
    else
      var gapMs := currentMs - leaderMs;
      if gapMs < 1000 then "+0." + ZFill(Str(gapMs), 3)
      else if gapMs < 60000 then
        var seconds := gapMs / 1000;
        var ms := gapMs % 1000;
        "+" + Str(seconds) + "." + ZFill(Str(ms), 3)
      else
        var minutes := gapMs / 60000;
        var remaining := gapMs % 60000;
        var seconds := remaining / 1000;
        var ms := remaining % 1000;
        "+" + Str(minutes) + ":" + ZFill(Str(seconds), 2) + "." + ZFill(Str(ms), 3)
  }

  /** Reads a gap back in milliseconds: "-" is no gap, and after the '+'
      the text is a lap time whose minutes may be left out. */
  function GapValue(gap: string): Option<int>
  {
    if gap == "-" then Some(0)
    else if |gap| > 0 && gap[0] == '+' then
      var body := gap[1..];
      match ParseLapTime(if ':' in body then body else "0:" + body)
      case Ok(ms) => Some(ms)
      case Err(_) => None
    else None
  }

  /** How `GapValue` reads a gap that starts with '+'. */
  lemma GapValueOfPlus(gap: string, text: string, v: int)
    requires |gap| > 1 && gap[0] == '+'
    requires text == if ':' in gap[1..] then gap[1..] else "0:" + gap[1..]
    requires ParseLapTime(text).Ok? && ParseLapTime(text).value == v
    ensures GapValue(gap).Some? && GapValue(gap).value == v
  {
  }

  /** The text `+S.mmm`: no ':' after the '+', so it is read as `0:S.mmm`. */
  lemma SecondsFormText(sec: string, ms: string)
    requires IsDigits(sec) && IsDigits(ms)
    ensures var gap := "+" + sec + "." + ms;
      |gap| > 1 && gap[0] == '+' && ':' !in gap[1..] && "0:" + gap[1..] == "0" + ":" + sec + "." + ms
  {
    var gap := "+" + sec + "." + ms;
    assert gap[1..] == sec + "." + ms;
    DigitsExclude(sec, ':');
    DigitsExclude(ms, ':');
  }

  /** The text `+M:SS.mmm`: a ':' after the '+', so it is read as it stands. */
  lemma MinutesFormText(mins: string, sec: string, ms: string)
    ensures var gap := "+" + mins + ":" + sec + "." + ms;
      |gap| > 1 && gap[0] == '+' && ':' in gap[1..] && gap[1..] == mins + ":" + sec + "." + ms
  {
    var gap := "+" + mins + ":" + sec + "." + ms;
    assert gap[1..] == mins + ":" + sec + "." + ms;
    assert gap[1..][|mins|] == ':';
  }

  /** A three-digit fraction is its own millisecond count. */
  lemma FractionOfThree(ms: string)
    requires |ms| == 3 && IsDigits(ms)
    ensures FractionMillis(ms) == Value(ms)
  {
    assert Pow10(0) == 1;
  }

  /** A gap of the form `+S.mmm` reads back as S seconds and mmm milliseconds. */
  lemma ReadSecondsForm(sec: string, ms: string)
    requires |sec| > 0 && IsDigits(sec) && |ms| == 3 && IsDigits(ms)
    ensures var r := GapValue("+" + sec + "." + ms);
      r.Some? && r.value == Value(sec) * 1000 + Value(ms)
  {
    SecondsFormText(sec, ms);
    var zero := "0";
    ValueOfOne('0');
    assert Value(zero) == 0;
    FractionOfThree(ms);
    ParseOfDigits(zero, sec, ms);
    GapValueOfPlus("+" + sec + "." + ms, zero + ":" + sec + "." + ms, Value(sec) * 1000 + Value(ms));
  }

  /** A gap of the form `+M:SS.mmm` reads back as M minutes, SS seconds and
      mmm milliseconds. */
  lemma ReadMinutesForm(mins: string, sec: string, ms: string)
    requires |mins| > 0 && IsDigits(mins) && |sec| == 2 && IsDigits(sec)
    requires |ms| == 3 && IsDigits(ms)
    ensures var r := GapValue("+" + mins + ":" + sec + "." + ms);
      r.Some? && r.value == Value(mins) * 60000 + Value(sec) * 1000 + Value(ms)
  {
    MinutesFormText(mins, sec, ms);
    FractionOfThree(ms);
    ParseOfDigits(mins, sec, ms);
    GapValueOfPlus("+" + mins + ":" + sec + "." + ms, mins + ":" + sec + "." + ms,
                   Value(mins) * 60000 + Value(sec) * 1000 + Value(ms));
  }

  lemma GapBelowSecond(d: int)
    requires 0 < d < 1000
    ensures var r := GapValue("+0." + ZFill(Str(d), 3)); r.Some? && r.value == d
  {
    var z := ZFill(Str(d), 3);
    ZFillNat(d, 3);
    var zero := "0";
    ValueOfOne('0');
    assert Value(zero) == 0;
    assert "+0." + z == "+" + zero + "." + z;
    ReadSecondsForm(zero, z);
  }

  lemma GapBelowMinute(d: int)
    requires 1000 <= d < 60000
    ensures var r := GapValue("+" + Str(d / 1000) + "." + ZFill(Str(d % 1000), 3));
      r.Some? && r.value == d
  {
    ZFillNat(d % 1000, 3);
    ReadSecondsForm(Str(d / 1000), ZFill(Str(d % 1000), 3));
  }

  lemma GapFromMinute(d: int)
    requires 60000 <= d
    ensures var r := GapValue("+" + Str(d / 60000) + ":" + ZFill(Str(d % 60000 / 1000), 2) + "."
                              + ZFill(Str(d % 60000 % 1000), 3));
      r.Some? && r.value == d
  {
    var rem := d % 60000;
    ZFillNat(rem / 1000, 2);
    ZFillNat(rem % 1000, 3);
    ReadMinutesForm(Str(d / 60000), ZFill(Str(rem / 1000), 2), ZFill(Str(rem % 1000), 3));
  }

  /** Rendering a non-negative gap loses nothing: reading it back gives the
      difference of the two times. */
  lemma GapRoundTrip(leaderMs: int, currentMs: int)
    requires leaderMs <= currentMs
    ensures var r := GapValue(FormatGap(leaderMs, currentMs));
      r.Some? && r.value == currentMs - leaderMs
  {
    var d := currentMs - leaderMs;
    if d == 0 {
    } else if d < 1000 {
      GapBelowSecond(d);
    } else if d < 60000 {
      GapBelowMinute(d);
    } else {
      GapFromMinute(d);
    }
  }

  /** The layout of a positive gap `d`: a '+', a three-digit millisecond
      field after the last '.', a leading "0" exactly below a second, and a
      ':' exactly from a minute on. The three forms are `+0.mmm`, `+S.mmm`
      with digit seconds, and `+M:SS.mmm` with digit minutes and two seconds
      digits below 60. */
  predicate GapLayout(r: string, d: int)
  {
    |r| >= 6 && r[0] == '+' && r[|r| - 4] == '.' && IsDigits(r[|r| - 3..]) &&
    ((d < 1000) <==> r[1] == '0') &&
    ((d < 60000) <==> ':' !in r) &&
    (d < 1000 ==> r[..3] == "+0." && |r| == 6) &&
    (1000 <= d < 60000 ==> IsDigits(r[1..|r| - 4])) &&
    (d >= 60000 ==> |r| >= 9 && r[|r| - 7] == ':' && IsDigits(r[|r| - 6..|r| - 4]) &&
                    IsDigits(r[1..|r| - 7]) && Value(r[|r| - 6..|r| - 4]) < 60)
  }

  lemma SecondsFormLayout(sec: string, ms: string, d: int)
    requires |sec| > 0 && IsDigits(sec) && |ms| == 3 && IsDigits(ms)
    requires d < 60000 && ((d < 1000) <==> sec[0] == '0')
    requires d < 1000 ==> sec == "0"
    ensures GapLayout("+" + sec + "." + ms, d)
  {
    var r := "+" + sec + "." + ms;
    assert r[1] == sec[0];
    assert r[1..|r| - 4] == sec;
    assert r[|r| - 4] == '.';
    assert r[|r| - 3..] == ms;
    DigitsExclude(sec, ':');
    DigitsExclude(ms, ':');
    assert ':' !in r;
  }

  lemma MinutesFormLayout(mins: string, sec: string, ms: string, d: int)
    requires |mins| > 0 && IsDigits(mins) && mins[0] != '0' && |sec| == 2 && IsDigits(sec)
    requires |ms| == 3 && IsDigits(ms) && d >= 60000 && Value(sec) < 60
    ensures GapLayout("+" + mins + ":" + sec + "." + ms, d)
  {
    var r := "+" + mins + ":" + sec + "." + ms;
    var n := |r|;
    assert n == |mins| + 8;
    assert r[1] == mins[0];
    assert r[1..n - 7] == mins by {
      assert forall k :: 0 <= k < |mins| ==> r[1 + k] == mins[k];
    }
    assert r[n - 7] == ':';
    assert r[n - 6..n - 4] == sec by {
      assert r[n - 6] == sec[0] && r[n - 5] == sec[1];
    }
    assert r[n - 4] == '.';
    assert r[n - 3..] == ms by {
      assert forall k :: 0 <= k < 3 ==> r[n - 3 + k] == ms[k];
    }
    assert ':' in r;
    assert IsDigits(r[1..n - 7]) && IsDigits(r[n - 6..n - 4]) && IsDigits(r[n - 3..]);
    assert Value(r[n - 6..n - 4]) < 60;
  }

  /** Every positive gap has that layout. */
  lemma GapShape(leaderMs: int, currentMs: int)
    requires leaderMs < currentMs
    ensures GapLayout(FormatGap(leaderMs, currentMs), currentMs - leaderMs)
  {
    var d := currentMs - leaderMs;
    if d < 1000 {
      ZFillNat(d, 3);
      assert "+0." + ZFill(Str(d), 3) == "+" + "0" + "." + ZFill(Str(d), 3);
      SecondsFormLayout("0", ZFill(Str(d), 3), d);
    } else if d < 60000 {
      ZFillNat(d % 1000, 3);
      SecondsFormLayout(Str(d / 1000), ZFill(Str(d % 1000), 3), d);
    } else {
      var rem := d % 60000;
      ZFillNat(rem / 1000, 2);
      ZFillNat(rem % 1000, 3);
      MinutesFormLayout(Str(d / 60000), ZFill(Str(rem / 1000), 2), ZFill(Str(rem % 1000), 3), d);
    }
  }

  /** A time faster than the leader's, which a sorted listing never holds,
      is rendered with the sign inside the fraction: `+0.-…`. */
  lemma GapOfFasterTime(leaderMs: int, currentMs: int)
    requires currentMs < leaderMs
    ensures FormatGap(leaderMs, currentMs)[..4] == "+0.-"
  {
    var s := Str(currentMs - leaderMs);
    assert s[0] == '-';
    assert ZFill(s, 3)[0] == '-';
  }
}
