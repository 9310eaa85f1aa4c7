/** The client-side checks of the admin page: the add form
    (`AdminPanel.handleSubmit`) and the edit dialog (`EditDialog.handleSave`)
    check the driver name and the lap time before anything is sent, and
    decide which team to send. */
module AdminForm {
  import opened Results
  import opened Text
  import opened LapTime
  import opened Entries
  import opened LapStore

  /** The characters `String.prototype.trim` removes: the ECMAScript white
      space and line terminators. */
  predicate IsJsSpace(c: char)
  {
    var k := c as int;
    0x09 <= k <= 0x0D || k == 0x20 || k == 0xA0 || k == 0x1680 || 0x2000 <= k <= 0x200A
    || k == 0x2028 || k == 0x2029 || k == 0x202F || k == 0x205F || k == 0x3000 || k == 0xFEFF
  }

  /** `s.trim()`: the text between the first and the last character that
      is not white space, or "" when there is none. */
  function Trim(s: string): (r: string)
    ensures |r| <= |s|
    ensures |r| > 0 ==> !IsJsSpace(r[0]) && !IsJsSpace(r[|r| - 1])
    ensures r == [] <==> forall i :: 0 <= i < |s| ==> IsJsSpace(s[i])
  {
    var l := StripLeft(s, IsJsSpace);
    StripLeftShape(s, IsJsSpace);
    StripRightShape(l, IsJsSpace);
    StripEmpty(s, IsJsSpace);
    Strip(s, IsJsSpace)
  }

  /** The seconds and fraction `SS.f` after the ':' of a lap time: two
      digits, a '.', and one to three digits. */
  predicate SecondsAndFraction(t: string)
  {
    4 <= |t| <= 6 && IsDigits(t[..2]) && t[2] == '.' && IsDigits(t[3..])
  }

  /** `/^\d{1,2}:\d{2}\.\d{1,3}$/.test(s)`: one or two digits, a ':', then
      the seconds and fraction, with nothing before or after. `\d` is an
      ASCII digit, and without the `m` flag `$` is only the end of the text. */
  predicate MatchesLapTimeRegex(s: string)
    ensures MatchesLapTimeRegex(s) ==> 6 <= |s| <= 9 && IsDigit(s[0]) && IsDigit(s[|s| - 1])
  {
    (|s| > 1 && s[1] == ':' && IsDigits(s[..1]) && SecondsAndFraction(s[2..])) ||
    (|s| > 2 && s[2] == ':' && IsDigits(s[..2]) && SecondsAndFraction(s[3..]))
  }

  /** The three digit fields of a lap time the regex accepts. */
  function RegexFields(s: string): (fields: (string, string, string))
    requires MatchesLapTimeRegex(s)
    ensures var (minutes, seconds, fraction) := fields;
      1 <= |minutes| <= 2 && IsDigits(minutes) &&
      |seconds| == 2 && IsDigits(seconds) &&
      1 <= |fraction| <= 3 && IsDigits(fraction)
  {
    var k := if s[1] == ':' then 1 else 2;
    var t := s[k + 1..];
    (s[..k], t[..2], t[3..])
  }

  /** A text the regex accepts is its three fields with ':' and '.' between
      them, and nothing else. */
  lemma RegexLayout(s: string)
    requires MatchesLapTimeRegex(s)
    ensures var (minutes, seconds, fraction) := RegexFields(s);
      s == minutes + ":" + seconds + "." + fraction
  {
    var k := if s[1] == ':' then 1 else 2;
    var t := s[k + 1..];
    assert s == s[..k] + ":" + t[..2] + "." + t[3..];
  }

  /** Conversely, every text of that layout is accepted. */
  lemma RegexAcceptsFields(minutes: string, seconds: string, fraction: string)
    requires 1 <= |minutes| <= 2 && IsDigits(minutes)
    requires |seconds| == 2 && IsDigits(seconds)
    requires 1 <= |fraction| <= 3 && IsDigits(fraction)
    ensures MatchesLapTimeRegex(minutes + ":" + seconds + "." + fraction)
  {
    var s := minutes + ":" + seconds + "." + fraction;
    var k := |minutes|;
    assert s[..k] == minutes;
    assert s[k + 1..] == seconds + "." + fraction;
    assert s[k + 1..][..2] == seconds;
    assert s[k + 1..][3..] == fraction;
    if k == 2 {
      assert s[1] == minutes[1] && IsDigit(minutes[1]);
    }
  }

  /** The regex admits no white space at either end, so a text it accepts
      is its own `trim()`: the value sent is the value checked. */
  lemma RegexRejectsPadding(s: string)
    requires MatchesLapTimeRegex(s)
    ensures |s| > 0 && !IsJsSpace(s[0]) && !IsJsSpace(s[|s| - 1])
    ensures Trim(s) == s && Trim(s) != []
  {
    var (minutes, seconds, fraction) := RegexFields(s);
    RegexLayout(s);
    assert s[0] == minutes[0];
    assert s[|s| - 1] == fraction[|fraction| - 1];
    StripUnchanged(s, IsJsSpace);
  }

  /** Every lap time the form accepts is accepted by the backend's parser,
      as minutes * 60000 + seconds * 1000 + the scaled fraction. */
  lemma RegexTimesParse(s: string)
    requires MatchesLapTimeRegex(s)
    ensures ParseLapTime(s).Ok?
    ensures var (minutes, seconds, fraction) := RegexFields(s);
      ParseLapTime(s).value == Value(minutes) * 60000 + Value(seconds) * 1000 + FractionMillis(fraction)
  {
    var (minutes, seconds, fraction) := RegexFields(s);
    RegexSplit(s);
    ParseOfSplit(s, minutes, seconds, fraction);
  }

  /** How a text the regex accepts splits on ':'. */
  lemma RegexSplit(s: string)
    requires MatchesLapTimeRegex(s)
    ensures var (minutes, seconds, fraction) := RegexFields(s);
      Split(s, ':') == [minutes, seconds + "." + fraction]
  {
    var (minutes, seconds, fraction) := RegexFields(s);
    RegexLayout(s);
    SplitFields(minutes, seconds, fraction);
  }

  /** A time the form accepts lies below 100 minutes and its fraction
      counts at most 999 ms; the seconds are not range-checked. */
  lemma RegexTimesBounded(s: string)
    requires MatchesLapTimeRegex(s)
    ensures ParseLapTime(s).Ok? && 0 <= ParseLapTime(s).value <= 99 * 60000 + 99 * 1000 + 999
  {
    var (minutes, seconds, fraction) := RegexFields(s);
    RegexTimesParse(s);
    ValueBound(minutes);
    ValueBound(seconds);
    FractionMillisBound(fraction);
    assert Pow10(1) == 10 && Pow10(2) == 100;
    var m, sec, f := Value(minutes), Value(seconds), FractionMillis(fraction);
    assert m <= 99 && sec <= 99 && f <= 999;
    assert m * 60000 <= 99 * 60000 && sec * 1000 <= 99 * 1000;
  }

  const NameMissing: string := "Bitte Fahrername eingeben"
  const TimeMissing: string := "Bitte Rundenzeit eingeben"
  const BadTimeOnAdd: string := "Ungültiges Zeitformat. Bitte MM:SS.mmm verwenden (z.B. 1:23.456)"
  const BadTimeOnEdit: string := "Ungültiges Zeitformat"

  /** The team sent: the trimmed text when teams are shown and it is not
      empty, `null` otherwise (`showTeam ? team.trim() || null : null`). */
  function TeamToSend(showTeam: bool, team: string): (r: Option<string>)
    ensures r.Some? <==> showTeam && Trim(team) != []
    ensures r.Some? ==> r.value == Trim(team)
  {
    if showTeam && Trim(team) != [] then Some(Trim(team)) else None
  }

  /** `AdminPanel.handleSubmit`: the name is checked first, then that a
      time is given, then the time's format; the text shown in a toast
      stands for a rejection. */
  function HandleSubmit(driverName: string, team: string, lapTime: string, showTeam: bool)
    : (r: Result<LapEntryCreate, string>)
    ensures Trim(driverName) == [] ==> r == Err(NameMissing)
    ensures Trim(driverName) != [] && Trim(lapTime) == [] ==> r == Err(TimeMissing)
    ensures r.Ok? <==> Trim(driverName) != [] && MatchesLapTimeRegex(lapTime)
    ensures r.Ok? ==> r.value == LapEntryCreate(Trim(driverName), TeamToSend(showTeam, team), lapTime)
  {
    if Trim(driverName) == [] then Err(NameMissing)
    else if Trim(lapTime) == [] then Err(TimeMissing)
    else if !MatchesLapTimeRegex(lapTime) then Err(BadTimeOnAdd)
    else
      RegexRejectsPadding(lapTime);
      Ok(LapEntryCreate(Trim(driverName), TeamToSend(showTeam, team), Trim(lapTime)))
  }

  /** `EditDialog.handleSave`: the name check and the format check; every
      field is sent, with a blank team sent as `null`. */
  function HandleSave(driverName: string, team: string, lapTime: string, showTeam: bool)
    : (r: Result<LapEntryUpdate, string>)
    ensures Trim(driverName) == [] ==> r == Err(NameMissing)
    ensures r.Ok? <==> Trim(driverName) != [] && MatchesLapTimeRegex(lapTime)
    ensures r.Ok? ==> r.value == LapEntryUpdate(Some(Trim(driverName)), TeamToSend(showTeam, team), Some(lapTime))
  {
    if Trim(driverName) == [] then Err(NameMissing)
    else if !MatchesLapTimeRegex(lapTime) then Err(BadTimeOnEdit)
    else
      RegexRejectsPadding(lapTime);
      Ok(LapEntryUpdate(Some(Trim(driverName)), TeamToSend(showTeam, team), Some(Trim(lapTime))))
  }

  /** The two forms accept the same inputs and send the same fields: the
      add form's blank-time check never rejects what the regex would pass. */
  lemma FormsAgree(driverName: string, team: string, lapTime: string, showTeam: bool)
    ensures HandleSubmit(driverName, team, lapTime, showTeam).Ok? == HandleSave(driverName, team, lapTime, showTeam).Ok?
    ensures HandleSubmit(driverName, team, lapTime, showTeam).Ok? ==>
      var c, u := HandleSubmit(driverName, team, lapTime, showTeam).value, HandleSave(driverName, team, lapTime, showTeam).value;
      u == LapEntryUpdate(Some(c.driverName), c.team, Some(c.lapTimeDisplay))
  {
  }

  /** What the form sends, the backend stores: a submitted lap is created
      with the milliseconds the form's own reading of the fields gives. */
  lemma SubmittedLapsAreCreated(driverName: string, team: string, lapTime: string, showTeam: bool)
    requires HandleSubmit(driverName, team, lapTime, showTeam).Ok?
    ensures var c := HandleSubmit(driverName, team, lapTime, showTeam).value;
      var (minutes, seconds, fraction) := RegexFields(lapTime);
      ParseLapTime(c.lapTimeDisplay).Ok? &&
      ParseLapTime(c.lapTimeDisplay).value == Value(minutes) * 60000 + Value(seconds) * 1000 + FractionMillis(fraction)
  {
    RegexTimesParse(lapTime);
  }

  /** Blanking the team in the edit dialog sends `null`, which the backend
      reads as "unchanged": a lap that has a team keeps it. */
  lemma EditCannotClearTeam(e: LapEntry, driverName: string, team: string, lapTime: string, showTeam: bool)
    requires e.team.Some? && Trim(team) == []
    requires HandleSave(driverName, team, lapTime, showTeam).Ok?
    ensures var u := HandleSave(driverName, team, lapTime, showTeam).value;
      Updated(e, u).Ok? && Updated(e, u).value.team == e.team
  {
    var u := HandleSave(driverName, team, lapTime, showTeam).value;
    RegexTimesParse(lapTime);
    assert u.lapTimeDisplay == Some(lapTime);
  }
}
