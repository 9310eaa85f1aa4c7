/** A time the parser accepts but the store cannot hold. */
module LapStoreExamples {
  import opened Text
  import opened PyBuiltins
  import opened LapTime
  import opened LapStore

  /** From 153722867280913 minutes on ("153722867280913:00.000" is
      9223372036854780000 ms) a time is beyond the largest BSON integer: a
      create or an update with it answers 500 and stores nothing. */
  lemma ParseBeyondInt64(m: nat)
    requires m >= 153722867280913
    ensures var r := ParseLapTime(Str(m) + ":00.000");
      r.Ok? && r.value == m * 60000 && !FitsInt64(r.value)
  {
    StrDigits(m);
    ValueOfTwo('0', '0');
    ValueOfThree('0', '0', '0');
    assert Str(m) + ":00.000" == Str(m) + ":" + "00" + "." + "000";
    ParseOfDigits(Str(m), "00", "000");
  }
}
