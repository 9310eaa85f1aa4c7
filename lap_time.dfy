/** The backend's time parser `parse_lap_time`, which turns the `M:SS.f`
    text an admin types into integer milliseconds, and what it computes on
    digit fields. */
module LapTime {
  import opened Results
  import opened Text
  import opened PyBuiltins

  /** The one message every parse failure carries. */
  const InvalidTimeFormat: string := "Invalid time format. Use MM:SS.mmm (e.g., 1:23.456)"

  /** The text after the '.', right-padded with '0' and cut to three
      characters, as the backend hands it to `int()`. */
  function MillisField(fraction: string): (r: string)
    ensures |r| == 3
  {
    Prefix(LJust(fraction, 3, '0'), 3)
  }

  /** `parse_lap_time`: split on ':' into minutes and the rest, split the
      rest on '.' into seconds and fraction, and add the three up. Any
      failure, of a split or of `int()`, is the same error. */
  function ParseLapTime(timeStr: string): (r: Result<int, string>)
    ensures r.Err? ==> r.error == InvalidTimeFormat
    ensures r.Ok? ==> Count(timeStr, ':') == 1
  {
    var parts := Split(timeStr, ':');
    if |parts| != 2 then Err(InvalidTimeFormat)
    else
      match Int(parts[0])
      case None => Err(InvalidTimeFormat)
      case Some(minutes) =>
        var secondsParts := Split(parts[1], '.');
        if |secondsParts| != 2 then Err(InvalidTimeFormat)
        else
          match (Int(secondsParts[0]), Int(MillisField(secondsParts[1])))
          case (Some(seconds), Some(millis)) => Ok(minutes * 60000 + seconds * 1000 + millis)
          case _ => Err(InvalidTimeFormat)
  }

  /** A parse succeeds only if the text after the single ':' holds exactly one '.'. */
  lemma ParseNeedsOneDot(timeStr: string)
    requires ParseLapTime(timeStr).Ok?
    ensures Count(Split(timeStr, ':')[1], '.') == 1
  {
  }

  lemma DigitsExclude(s: string, c: char)
    requires IsDigits(s) && !IsDigit(c)
    ensures c !in s
  {
    assert forall i :: 0 <= i < |s| ==> s[i] != c;
  }

  /** The milliseconds a digit fraction stands for: its first three digits
      as the leading digits of the count, so ".4" is 400 and ".45" is 450. */
  function FractionMillis(fraction: string): nat
    requires IsDigits(fraction)
  {
    if |fraction| <= 3 then Value(fraction) * Pow10(3 - |fraction|) else Value(fraction[..3])
  }

  /** A fraction stands for less than a second. */
  lemma FractionMillisBound(fraction: string)
    requires IsDigits(fraction)
    ensures 0 <= FractionMillis(fraction) < 1000
  {
    assert Pow10(1) == 10 && Pow10(2) == 100 && Pow10(3) == 1000;
    if |fraction| <= 3 {
      ValueBound(fraction);
      var v := Value(fraction);
      if |fraction| == 0 {
        assert FractionMillis(fraction) == v * 1000 && v < 1;
      } else if |fraction| == 1 {
        assert FractionMillis(fraction) == v * 100 && v < 10;
      } else if |fraction| == 2 {
        assert FractionMillis(fraction) == v * 10 && v < 100;
      } else {
        assert FractionMillis(fraction) == v * 1 && v < 1000;
      }
    } else {
      ValueBound(fraction[..3]);
    }
  }

  /** The field the backend hands to `int()` holds exactly those
      milliseconds: padding appends zeros, cutting drops digits past the third. */
  lemma MillisFieldOfDigits(fraction: string)
    requires IsDigits(fraction)
    ensures IsDigits(MillisField(fraction))
    ensures Value(MillisField(fraction)) == FractionMillis(fraction)
  {
    if |fraction| < 3 {
      var padded := LJust(fraction, 3, '0');
      assert padded == fraction + Zeros(3 - |fraction|);
      ValueTrailingZeros(fraction, 3 - |fraction|);
    }
  }

  /** How a parse assembles its result from the two splits and the three
      `int()` calls. */
  lemma ParseFromParts(timeStr: string, minutes: string, rest: string, seconds: string,
                       fraction: string, m: int, sec: int, ms: int)
    requires Split(timeStr, ':') == [minutes, rest]
    requires Split(rest, '.') == [seconds, fraction]
    requires Int(minutes) == Some(m) && Int(seconds) == Some(sec)
    requires Int(MillisField(fraction)).Some? && Int(MillisField(fraction)).value == ms
    ensures ParseLapTime(timeStr).Ok? && ParseLapTime(timeStr).value == m * 60000 + sec * 1000 + ms
  {
  }

  /** How a text of digit fields splits on ':' and then on '.'. */
  lemma SplitFields(minutes: string, seconds: string, fraction: string)
    requires IsDigits(minutes) && IsDigits(seconds) && IsDigits(fraction)
    ensures Split(minutes + ":" + seconds + "." + fraction, ':') == [minutes, seconds + "." + fraction]
    ensures Split(seconds + "." + fraction, '.') == [seconds, fraction]
  {
    var rest := seconds + "." + fraction;
    assert minutes + ":" + seconds + "." + fraction == minutes + [':'] + rest;
    DigitsExclude(minutes, ':');
    DigitsExclude(seconds, ':');
    DigitsExclude(fraction, ':');
    assert ':' !in rest;
    SplitOnce(minutes, ':', rest);
    DigitsExclude(seconds, '.');
    DigitsExclude(fraction, '.');
    assert rest == seconds + ['.'] + fraction;
    SplitOnce(seconds, '.', fraction);
  }

  /** For digit minutes, seconds and fraction the parse is
      minutes * 60000 + seconds * 1000 + the fraction's milliseconds. No
      range is enforced on any field and the fraction may be empty. */
  lemma ParseOfDigits(minutes: string, seconds: string, fraction: string)
    requires |minutes| > 0 && IsDigits(minutes)
    requires |seconds| > 0 && IsDigits(seconds)
    requires IsDigits(fraction)
    ensures var r := ParseLapTime(minutes + ":" + seconds + "." + fraction);
      r.Ok? && r.value == Value(minutes) * 60000 + Value(seconds) * 1000 + FractionMillis(fraction)
  {
    SplitFields(minutes, seconds, fraction);
    MillisFieldOfDigits(fraction);
    IntOfDigits(minutes);
    IntOfDigits(seconds);
    IntOfDigits(MillisField(fraction));
    ParseFromParts(minutes + ":" + seconds + "." + fraction, minutes, seconds + "." + fraction,
                   seconds, fraction, Value(minutes), Value(seconds), Value(MillisField(fraction)));
  }

  /** The parse of a text that splits on ':' into digit minutes and digit
      seconds '.' digit fraction. */
  lemma ParseOfSplit(timeStr: string, minutes: string, seconds: string, fraction: string)
    requires |minutes| > 0 && IsDigits(minutes)
    requires |seconds| > 0 && IsDigits(seconds)
    requires IsDigits(fraction)
    requires Split(timeStr, ':') == [minutes, seconds + "." + fraction]
    ensures ParseLapTime(timeStr).Ok?
    ensures ParseLapTime(timeStr).value == Value(minutes) * 60000 + Value(seconds) * 1000 + FractionMillis(fraction)
  {
    DigitsExclude(seconds, '.');
    DigitsExclude(fraction, '.');
    assert seconds + "." + fraction == seconds + ['.'] + fraction;
    SplitOnce(seconds, '.', fraction);
    MillisFieldOfDigits(fraction);
    IntOfDigits(minutes);
    IntOfDigits(seconds);
    IntOfDigits(MillisField(fraction));
    ParseFromParts(timeStr, minutes, seconds + "." + fraction,
                   seconds, fraction, Value(minutes), Value(seconds), Value(MillisField(fraction)));
  }

  /** How a text with a '-' after the '.' splits on ':' and then on '.'. */
  lemma SplitNegativeFraction(minutes: string, seconds: string, digits: string)
    requires IsDigits(minutes) && IsDigits(seconds) && IsDigits(digits)
    ensures Split(minutes + ":" + seconds + ".-" + digits, ':') == [minutes, seconds + "." + ("-" + digits)]
    ensures Split(seconds + "." + ("-" + digits), '.') == [seconds, "-" + digits]
  {
    var fraction := "-" + digits;
    var rest := seconds + "." + fraction;
    assert minutes + ":" + seconds + ".-" + digits == minutes + [':'] + rest;
    DigitsExclude(minutes, ':');
    DigitsExclude(seconds, ':');
    DigitsExclude(digits, ':');
    assert ':' !in rest;
    SplitOnce(minutes, ':', rest);
    DigitsExclude(seconds, '.');
    DigitsExclude(digits, '.');
    assert rest == seconds + ['.'] + fraction;
    SplitOnce(seconds, '.', fraction);
  }

  /** A '-' and one or two digits are padded to three characters, which
      `int()` reads as minus the digits' value scaled to that width. */
  lemma NegativeMillisField(digits: string)
    requires 0 < |digits| <= 2 && IsDigits(digits)
    ensures Int(MillisField("-" + digits)).Some?
    ensures Int(MillisField("-" + digits)).value == -(Value(digits) * Pow10(2 - |digits|))
  {
    var padded := digits + Zeros(2 - |digits|);
    assert MillisField("-" + digits) == "-" + padded;
    ValueTrailingZeros(digits, 2 - |digits|);
    IntOfNegative(padded);
  }

  /** The parse of a text that splits on ':' into digit minutes and digit
      seconds '.' '-' one or two digits. */
  lemma ParseOfNegativeSplit(timeStr: string, minutes: string, seconds: string, digits: string)
    requires |minutes| > 0 && IsDigits(minutes)
    requires |seconds| > 0 && IsDigits(seconds)
    requires 0 < |digits| <= 2 && IsDigits(digits)
    requires Split(timeStr, ':') == [minutes, seconds + "." + ("-" + digits)]
    requires Split(seconds + "." + ("-" + digits), '.') == [seconds, "-" + digits]
    ensures ParseLapTime(timeStr).Ok?
    ensures ParseLapTime(timeStr).value == Value(minutes) * 60000 + Value(seconds) * 1000 - Value(digits) * Pow10(2 - |digits|)
  {
    var ms := -(Value(digits) * Pow10(2 - |digits|));
    NegativeMillisField(digits);
    IntOfDigits(minutes);
    assert Int(minutes) == Some(Value(minutes));
    IntOfDigits(seconds);
    assert Int(seconds) == Some(Value(seconds));
    ParseFromParts(timeStr, minutes, seconds + "." + ("-" + digits), seconds, "-" + digits,
                   Value(minutes), Value(seconds), ms);
  }

  /** `int()` takes a sign, and so does the fraction: after a '-' one or
      two digits are padded to three characters and the milliseconds they
      stand for are subtracted, so "1:23.-5" is 83000 - 50 ms. */
  lemma ParseOfNegativeFraction(minutes: string, seconds: string, digits: string)
    requires |minutes| > 0 && IsDigits(minutes)
    requires |seconds| > 0 && IsDigits(seconds)
    requires 0 < |digits| <= 2 && IsDigits(digits)
    ensures var r := ParseLapTime(minutes + ":" + seconds + ".-" + digits);
      r.Ok? && r.value == Value(minutes) * 60000 + Value(seconds) * 1000 - Value(digits) * Pow10(2 - |digits|)
  {
    SplitNegativeFraction(minutes, seconds, digits);
    ParseOfNegativeSplit(minutes + ":" + seconds + ".-" + digits, minutes, seconds, digits);
  }
}
