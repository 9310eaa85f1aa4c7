/** Concrete inputs and outputs of the backend's time helpers, as its tests
    and its documentation give them. */
module LapTimeExamples {
  import opened Results
  import opened Text
  import opened PyBuiltins
  import opened LapTime
  import opened Gap

  /** Sample texts, from the backend's tests and its documentation. */
  const Sample: string := "1:25.123"
  const OneDigitFraction: string := "1:23.4"
  const TwoDigitFraction: string := "1:23.45"
  const SixtySeconds: string := "1:60.000"
  const LongFraction: string := "1:23.4567"
  const SignedFraction: string := "1:23.-5"
  const MissingDot: string := "1:23"
  const MissingColon: string := "123.456"
  const Invalid: string := "invalid_time"
  const SeparatorPadded: string := [0x1C as char] + "1:23.456"

  /** The value the backend's tests expect: "1:25.123" is 85123 ms. */
  lemma ParseSample()
    ensures ParseLapTime(Sample).Ok? && ParseLapTime(Sample).value == 85123
  {
    ValueOfOne('1');
    ValueOfTwo('2', '5');
    ValueOfThree('1', '2', '3');
    assert Sample == "1" + ":" + "25" + "." + "123";
    ParseOfDigits("1", "25", "123");
  }

  /** A one-digit fraction counts tenths: "1:23.4" is 83400 ms. */
  lemma ParseOneDigitFraction()
    ensures ParseLapTime(OneDigitFraction).Ok? && ParseLapTime(OneDigitFraction).value == 83400
  {
    ValueOfOne('1');
    ValueOfTwo('2', '3');
    ValueOfOne('4');
    assert Pow10(1) == 10;
    assert Pow10(2) == 100;
    assert OneDigitFraction == "1" + ":" + "23" + "." + "4";
    ParseOfDigits("1", "23", "4");
  }

  /** A two-digit fraction counts hundredths: "1:23.45" is 83450 ms. */
  lemma ParseTwoDigitFraction()
    ensures ParseLapTime(TwoDigitFraction).Ok? && ParseLapTime(TwoDigitFraction).value == 83450
  {
    ValueOfOne('1');
    ValueOfTwo('2', '3');
    ValueOfTwo('4', '5');
    assert Pow10(1) == 10;
    assert TwoDigitFraction == "1" + ":" + "23" + "." + "45";
    ParseOfDigits("1", "23", "45");
  }

  /** Seconds are not range-checked: "1:60.000" is accepted as 120000 ms. */
  lemma ParseUncheckedSeconds()
    ensures ParseLapTime(SixtySeconds).Ok? && ParseLapTime(SixtySeconds).value == 120000
  {
    ValueOfOne('1');
    ValueOfTwo('6', '0');
    ValueOfThree('0', '0', '0');
    assert SixtySeconds == "1" + ":" + "60" + "." + "000";
    ParseOfDigits("1", "60", "000");
  }

  /** Digits past the third are cut: "1:23.4567" is 83456 ms. */
  lemma ParseLongFraction()
    ensures ParseLapTime(LongFraction).Ok? && ParseLapTime(LongFraction).value == 83456
  {
    ValueOfOne('1');
    ValueOfTwo('2', '3');
    ValueOfThree('4', '5', '6');
    assert "4567"[..3] == "456";
    assert LongFraction == "1" + ":" + "23" + "." + "4567";
    ParseOfDigits("1", "23", "4567");
  }

  /** An empty fraction is zero milliseconds: "1:23." is accepted as 83000 ms. */
  lemma ParseEmptyFraction(minutes: string, seconds: string)
    requires |minutes| > 0 && IsDigits(minutes) && |seconds| > 0 && IsDigits(seconds)
    ensures var r := ParseLapTime(minutes + ":" + seconds + ".");
      r.Ok? && r.value == Value(minutes) * 60000 + Value(seconds) * 1000
  {
    assert minutes + ":" + seconds + "." == minutes + ":" + seconds + "." + [];
    ParseOfDigits(minutes, seconds, []);
  }

  /** `int()` takes a sign, so a fraction may carry one: "1:23.-5" pads
      the fraction to "-50" and is 1 * 60000 + 23 * 1000 - 50 = 82950 ms. */
  lemma ParseSignedFraction()
    ensures ParseLapTime(SignedFraction).Ok? && ParseLapTime(SignedFraction).value == 82950
  {
    ValueOfOne('1');
    ValueOfTwo('2', '3');
    ValueOfOne('5');
    assert Pow10(1) == 10;
    assert SignedFraction == "1" + ":" + "23" + ".-" + "5";
    ParseOfNegativeFraction("1", "23", "5");
  }

  /** Inputs the backend's tests expect to be refused: no '.' after the ':',
      and no ':' at all. */
  lemma ParseRejectsMissingDot()
    ensures ParseLapTime(MissingDot) == Err(InvalidTimeFormat)
  {
    var minutes, rest := "1", "23";
    assert MissingDot == minutes + [':'] + rest;
    SplitOnce(minutes, ':', rest);
    SplitAbsent(rest, '.');
  }

  lemma ParseRejectsMissingColon()
    ensures ParseLapTime(MissingColon) == Err(InvalidTimeFormat)
  {
    SplitAbsent(MissingColon, ':');
  }

  lemma ParseRejectsEmpty()
    ensures ParseLapTime("") == Err(InvalidTimeFormat)
  {
    SplitAbsent("", ':');
  }

  lemma ParseRejectsWord()
    ensures ParseLapTime(Invalid) == Err(InvalidTimeFormat)
  {
    SplitAbsent(Invalid, ':');
  }

  /** A field padded with an information separator (U+001C) is refused:
      `int()` does not strip it, though `str.isspace()` counts it as white
      space. */
  lemma ParseRejectsSeparatorPadding()
    ensures ParseLapTime(SeparatorPadded) == Err(InvalidTimeFormat)
  {
    var minutes, rest := [0x1C as char, '1'], "23.456";
    assert SeparatorPadded == minutes + [':'] + rest;
    SplitOnce(minutes, ':', rest);
    IntRejectsLeadingJunk(minutes);
  }

  /** A 544 ms deficit is rendered below a second. */
  lemma GapBelowSecondExample()
    ensures FormatGap(83456, 84000) == "+0.544"
  {
    assert NatToStr(5) == "5" && NatToStr(54) == "54";
    assert Str(544) == "544";
  }

  /** A tie with the leader is rendered as "-". */
  lemma GapTieExample()
    ensures FormatGap(83456, 83456) == "-"
  {
  }

  /** A 1667 ms deficit is rendered in seconds. */
  lemma GapBelowMinuteExample()
    ensures FormatGap(83456, 85123) == "+1.667"
  {
    var d := 85123 - 83456;
    assert d / 1000 == 1 && d % 1000 == 667;
    assert NatToStr(6) == "6" && NatToStr(66) == "66";
    assert Str(1) == "1" && Str(667) == "667";
    assert "+" + "1" + "." + "667" == "+1.667";
  }

  /** A 65007 ms deficit is rendered in minutes, with padded seconds and milliseconds. */
  lemma GapFromMinuteExample()
    ensures FormatGap(60000, 125007) == "+1:05.007"
  {
    var d := 125007 - 60000;
    assert d / 60000 == 1 && d % 60000 == 5007 && 5007 / 1000 == 5 && 5007 % 1000 == 7;
    assert Str(1) == "1" && Str(5) == "5" && Str(7) == "7";
    assert ZFill("5", 2) == "05" && ZFill("7", 3) == "007";
    assert "+" + "1" + ":" + "05" + "." + "007" == "+1:05.007";
  }

  /** The layout admits only what `format_gap` writes: a padded seconds
      field below a second, or a space before the seconds, is not a gap. */
  lemma GapLayoutRejectsPadding()
    ensures !GapLayout("+00.544", 544)
    ensures !GapLayout("+ 1.667", 1667)
  {
    assert |"+00.544"| == 7;
    assert "+ 1.667"[1..3] == " 1" && !IsDigit(' ');
  }
}
