# F1 Fast Lap Challenge: lap-time leaderboard model

This project models the leaderboard logic of the F1 Fast Lap Challenge, a small web
application where an admin enters drivers' lap times and a public page shows them ranked.
The model is written in Dafny.

The backend part (`backend/server.py`) covers five things:

- `parse_lap_time` turns a `M:SS.f` text into whole milliseconds. It uses Python's
  `str.split`, `int()`, `ljust` and slicing, which are modelled for ASCII input, with the
  limits listed under "Left out" (`text.dfy`, `py_builtins.dfy`, `lap_time.dfy`).
- `format_gap` renders the distance to the leader as `-`, `+0.mmm`, `+S.mmm` or
  `+M:SS.mmm`. `GapValue` reads such a gap back, and is used to show that nothing is lost
  (`gap.dfy`).
- The ranking loops of `get_all_laps`, `export_csv` and `export_pdf_data` are methods with
  `while` loops. Each is proved against one specification, `Standings`: the lap at
  position i gets place i + 1 and the gap to the first lap (`leaderboard.dfy`).
- The handlers `create_lap_entry`, `get_lap_entry`, `update_lap_entry`, `delete_lap_entry`
  and `delete_all_laps` work on a class `LapStore` that holds a map from lap id to stored
  lap. The class invariant is that every lap is filed under its own id, that its stored
  milliseconds are the parse of its display text, and that they fit the signed 64-bit
  integer a BSON document holds (`lap_store.dfy`).
- `entries.dfy` holds the records the handlers exchange.
- Concrete inputs and outputs are in `lap_time_examples.dfy` (the parser and `format_gap`),
  `leaderboard_examples.dfy` (a board) and `lap_store_examples.dfy` (a time the store
  cannot hold).

The frontend part (`frontend/src/App.js`) covers the admin forms and the rank classes:

- The add form and the edit dialog trim the driver name, check the lap time with
  `/^\d{1,2}:\d{2}\.\d{1,3}$/` and decide which team to send (`admin_form.dfy`).
- The rank badge and the row are marked for places 1–3 (`rank_badges.dfy`).

What the code does, and the model with it:

- it sets no tie-break among equal times: they come in whatever order the store's sort
  gives;
- it checks no seconds range, so `1:60.000` parses as 120000 ms;
- every field goes through `int()`, which takes a sign, so `1:23.-5` pads the fraction to
  `-50` and parses as 82950 ms;
- it checks no upper bound either: a time beyond a signed 64-bit integer parses, and
  then the store's driver cannot encode it, so the create or update answers 500 and
  writes nothing;
- it cuts a fraction longer than 3 digits to 3, and reads an empty fraction as 0;
- the listings never parse again, and use the stored `lap_time_ms`;
- any lap tied with the leader shows the gap `-`, not only the leader.

## Model

| member | source | states |
|---|---|---|
| `Text.Split` | backend/server.py:67-72 | `str.split(sep)` gives one piece more than there are separators |
| `Text.SplitJoin` | backend/server.py:67-72 | no piece of `str.split(sep)` contains `sep`, and joining the pieces with `sep` gives back the text |
| `PyBuiltins.IntOfDigits` | backend/server.py:71-78 | `int()` of a non-empty ASCII digit string is its decimal value |
| `PyBuiltins.Int` | backend/server.py:71 | `int()` accepts no text without a digit in it |
| `PyBuiltins.IntRejectsLeadingJunk` | backend/server.py:71 | a text whose first character is not white space, a sign or a digit is rejected; the separators U+001C..U+001F are not white space for `int()` |
| `PyBuiltins.Str` | backend/server.py:90-102 | `str(n)` is never empty |
| `PyBuiltins.StrDigits` | backend/server.py:90-102 | `str(n)` is the decimal digits of the magnitude, after a '-' for a negative number |
| `PyBuiltins.IntOfNegative` | backend/server.py:71 | `int()` of '-' followed by digits is minus their value |
| `PyBuiltins.IntOfStr` | backend/server.py:71 | `int()` reads back every number `str()` writes |
| `PyBuiltins.ZFill` | backend/server.py:92-102 | `s.zfill(w)` is max(len(s), w) long |
| `PyBuiltins.ZFillShape` | backend/server.py:92-102 | on a shorter string `zfill` keeps a leading sign in front, inserts only '0's after it, and ends with the rest of the string unchanged |
| `PyBuiltins.LJust` | backend/server.py:78 | `s.ljust(w, f)` is max(len(s), w) long, starts with `s` and is `f` after it |
| `PyBuiltins.Prefix` | backend/server.py:78 | `s[:n]` is the first min(len(s), n) characters of `s` |
| `PyBuiltins.ZFillNat` | backend/server.py:92-102 | `str(n).zfill(w)` of a number below 10^w is exactly w digits that read back as n |
| `LapTime.ParseLapTime` | backend/server.py:63-83 | every failure, of either split or of any `int()`, is the single "Invalid time format" error, and a success needs exactly one ':' |
| `LapTime.ParseNeedsOneDot` | backend/server.py:72-75 | a successful parse has exactly one '.' after the ':' |
| `LapTime.MillisFieldOfDigits` | backend/server.py:78 | the right-padded, 3-character cut of a digit fraction reads as its milliseconds: `.4` is 400, `.45` is 450, digits past the third are dropped |
| `LapTime.FractionMillisBound` | backend/server.py:78 | a digit fraction stands for 0–999 ms |
| `LapTime.ParseOfSplit` | backend/server.py:67-81 | a text that splits on ':' into digit minutes and digit seconds '.' digit fraction parses to minutes*60000 + seconds*1000 + scaled fraction |
| `LapTime.ParseOfDigits` | backend/server.py:63-81 | for digit minutes, seconds and fraction the parse succeeds with minutes*60000 + seconds*1000 + scaled fraction, with no range check on any field |
| `LapTimeExamples.ParseSample` | backend/server.py:63-81 | "1:25.123" parses to 85123 ms |
| `LapTimeExamples.ParseOneDigitFraction` | backend/server.py:78 | "1:23.4" parses to 83400 ms |
| `LapTimeExamples.ParseTwoDigitFraction` | backend/server.py:78 | "1:23.45" parses to 83450 ms |
| `LapTimeExamples.ParseUncheckedSeconds` | backend/server.py:77 | "1:60.000" is accepted as 120000 ms |
| `LapTimeExamples.ParseLongFraction` | backend/server.py:78 | "1:23.4567" is accepted as 83456 ms |
| `LapTimeExamples.ParseEmptyFraction` | backend/server.py:72-81 | "M:SS." is accepted, with a fraction of 0 ms |
| `LapTimeExamples.ParseRejectsMissingDot` | backend/server.py:72-75 | "1:23" is rejected with the fixed error |
| `LapTimeExamples.ParseRejectsSeparatorPadding` | backend/server.py:71 | a minutes field led by U+001C is refused with the fixed error |
| `LapTimeExamples.ParseRejectsMissingColon` | backend/server.py:67-69 | "123.456" is rejected with the fixed error |
| `LapTimeExamples.ParseRejectsEmpty` | backend/server.py:67-69 | "" is rejected with the fixed error |
| `LapTimeExamples.ParseRejectsWord` | backend/server.py:67-69 | "invalid_time" is rejected with the fixed error |
| `LapTime.NegativeMillisField` | backend/server.py:78 | a fraction of '-' and one or two digits is padded to three characters that `int()` reads as minus the digits scaled to two places: `-5` is -50 |
| `LapTime.SplitNegativeFraction` | backend/server.py:67-75 | a text `M:SS.-d` splits on ':' into the minutes and the rest, and the rest on '.' into the seconds and the signed fraction |
| `LapTime.ParseOfNegativeSplit` | backend/server.py:63-81 | a text splitting into digit minutes and digit seconds '.' '-' one or two digits parses, with the fraction's milliseconds subtracted |
| `LapTime.ParseOfNegativeFraction` | backend/server.py:63-81 | `M:SS.-d` with one or two digits d parses to minutes*60000 + seconds*1000 minus d scaled to two places |
| `LapTimeExamples.ParseSignedFraction` | backend/server.py:71-81 | "1:23.-5" is accepted as 82950 ms |
| `LapStoreExamples.ParseBeyondInt64` | backend/server.py:63-81 | from 153722867280913 minutes on a time parses, to minutes*60000 ms, but lies beyond a signed 64-bit integer |
| `Gap.FormatGap` | backend/server.py:85-102 | the gap is "-" exactly when the two times are equal; otherwise it starts with '+' |
| `Gap.GapRoundTrip` | backend/server.py:85-102 | for a time not faster than the leader's, reading the rendered gap back gives exactly the difference |
| `Gap.GapShape` | backend/server.py:90-102 | a positive gap has a three-digit millisecond field after a '.'; below a second it is exactly `+0.mmm`; below a minute it is `+S.mmm` with digit seconds not led by '0'; from a minute on it is `+M:SS.mmm` with digit minutes and two seconds digits below 60 |
| `Gap.GapOfFasterTime` | backend/server.py:90-92 | a time faster than the leader's is rendered "+0.-…", the sign kept inside the fraction by `zfill` |
| `LapTimeExamples.GapTieExample` | backend/server.py:87-88 | equal times give "-" |
| `LapTimeExamples.GapBelowSecondExample` | backend/server.py:91-92 | a 544 ms gap is "+0.544" |
| `LapTimeExamples.GapBelowMinuteExample` | backend/server.py:93-96 | a 1667 ms gap is "+1.667" |
| `LapTimeExamples.GapFromMinuteExample` | backend/server.py:97-102 | a 65007 ms gap is "+1:05.007" |
| `LapTimeExamples.GapLayoutRejectsPadding` | backend/server.py:90-96 | "+00.544" and "+ 1.667" do not have a gap's layout, though `int()` would read them |
| `Leaderboard.Fetched` | backend/server.py:143 | `to_list(1000)` keeps the first min(N, 1000) laps of the sorted result, in order |
| `Leaderboard.GetAllLaps` | backend/server.py:140-160 | one response per fetched lap, in order; it carries the lap's own fields, and its place and gap are those of `Standings` |
| `Leaderboard.ExportCsv` | backend/server.py:237-258 | a header row, then one row per fetched lap whose place and gap cells are those of `Standings`, with a missing team as an empty cell |
| `Leaderboard.ExportPdfData` | backend/server.py:268-285 | one record per fetched lap, with the place and gap of `Standings` and the lap's name, team and display text, stamped with the export time |
| `Leaderboard.NoLapsNoStandings` | backend/server.py:146-148 | an empty store gives an empty board |
| `Leaderboard.StandingAt` | backend/server.py:146-157 | the lap at position i of the listing is placed i + 1, with the gap from the first lap's time to its own |
| `Leaderboard.RanksAreOneToN` | backend/server.py:148-156 | there are min(N, 1000) places; they strictly increase, and together they are exactly 1..N |
| `Leaderboard.LeaderHasNoGap` | backend/server.py:146-157 | the first lap is placed 1 and has the gap "-" |
| `Leaderboard.DashExactlyOnTies` | backend/server.py:157 | a lap shows "-" exactly when its time equals the first lap's, whatever its place |
| `Leaderboard.GapsMeasureFromLeader` | backend/server.py:143-157 | on a sorted listing every gap reads back as the lap's time minus the leader's, and a positive one is `+0.mmm`, `+S.mmm` or `+M:SS.mmm` by its size, with digit fields |
| `Leaderboard.GapAt` | backend/server.py:143-157 | on a sorted listing one lap's gap reads back as its time minus the leader's, and a positive one is `+0.mmm`, `+S.mmm` or `+M:SS.mmm` by its size, with digit fields |
| `Leaderboard.GapsNonDecreasing` | backend/server.py:143-157 | on a sorted listing the gaps, read back, never decrease down the board |
| `LeaderboardExamples.TiedBoard` | backend/server.py:143-158 | laps at 83456, 83456 and 84000 ms get places 1, 2, 3 and gaps "-", "-", "+0.544" |
| `LeaderboardExamples.SingleLapBoard` | backend/server.py:146-157 | a single lap is placed 1 with the gap "-" |
| `LapStore.LeaderIsFastest` | backend/server.py:143 | the first lap of a sorted listing of the store has the smallest time in the store |
| `LapStore.BuildUpdateData` | backend/server.py:189-203 | `update_data` holds exactly the fields the update gives, with the parsed milliseconds beside a new display text; it is empty only for an empty update; a bad time fails with 400 |
| `LapStore.SetFields` | backend/server.py:206 | `$set` never changes a lap's id or creation time, changes nothing for an empty `update_data`, and keeps the time and display when neither is named |
| `LapStore.Updated` | backend/server.py:189-206 | an update fails exactly when it gives a display text that does not parse, and then with 400 and the fixed message |
| `LapStore.SetUpdateData` | backend/server.py:205-206 | writing `update_data` with `$set` gives the lap that `Updated` describes field by field |
| `LapStore.UpdateKeepsIdentity` | backend/server.py:189-206 | an update never changes a lap's id or creation time |
| `LapStore.UpdateKeepsTimeConsistent` | backend/server.py:197-201 | after an update the stored milliseconds are still the parse of the display text, and they change only together with it |
| `LapStore.UpdateCannotClearTeam` | backend/server.py:194-195 | an update never takes a team away, and one without a team leaves it as it is |
| `LapStore.EmptyUpdateChangesNothing` | backend/server.py:205 | an update that gives no field leaves the lap unchanged |
| `LapStore.UpdateStep` | backend/server.py:189-206 | `$set` of `update_data` gives the lap `Updated` describes, under the same id; if the stored time was its display's parse, the new one is too; an empty `update_data` leaves the store as it is |
| `LapStore.StoreLap` | backend/server.py:127 | filing a lap whose time is its display's parse and fits a signed 64-bit integer, under its own id, keeps the store invariant |
| `LapStore.LapStore.Write` | backend/server.py:127-206 | a write succeeds exactly when the lap's time fits a signed 64-bit integer, and then files the lap under its id; a failed write changes nothing; the store invariant is kept |
| `LapStore.LapStore.CreateLapEntry` | backend/server.py:109-138 | a bad time gives 400 and stores nothing; a time beyond a signed 64-bit integer gives 500 and stores nothing; otherwise the lap is stored with `lap_time_ms` = the parse of its display text and answered with place 0 and gap "" |
| `LapStore.LapStore.GetLapEntry` | backend/server.py:162-179 | on a consistent store, answers the stored lap with place 0 and gap "" exactly when its id is stored, otherwise 404 |
| `LapStore.LapStore.UpdateLapEntry` | backend/server.py:181-219 | an unknown id gives 404, a bad time gives 400, and a new time beyond a signed 64-bit integer gives 500; none of them changes the store; otherwise only that lap changes, to what `Updated` describes, and the answer is the stored lap |
| `LapStore.LapStore.DeleteLapEntry` | backend/server.py:221-229 | removes exactly the named lap, or answers 404 and changes nothing |
| `LapStore.LapStore.DeleteAllLaps` | backend/server.py:231-235 | empties the store |
| `AdminForm.Trim` | frontend/src/App.js:136 | `trim()` is no longer than the text, starts and ends with a character that is not white space, and is empty exactly when the text is all white space |
| `AdminForm.MatchesLapTimeRegex` | frontend/src/App.js:147-148 | an accepted text is 6 to 9 characters long and starts and ends with a digit |
| `AdminForm.RegexFields` | frontend/src/App.js:147 | the fields of a text the regex accepts are 1–2 digits, 2 digits and 1–3 digits |
| `AdminForm.RegexLayout` | frontend/src/App.js:147 | a text the regex accepts is its three fields with ':' and '.' between them, and nothing else |
| `AdminForm.RegexSplit` | backend/server.py:67 | a text the regex accepts splits on ':' into its minutes and its seconds '.' fraction |
| `AdminForm.RegexAcceptsFields` | frontend/src/App.js:147 | every text of that layout is accepted by the regex |
| `AdminForm.RegexRejectsPadding` | frontend/src/App.js:147-159 | a text the regex accepts has no white space at either end, so the trimmed value sent equals the value checked |
| `AdminForm.RegexTimesParse` | frontend/src/App.js:147-159 | every time the regex accepts is accepted by `parse_lap_time`, with minutes*60000 + seconds*1000 + scaled fraction |
| `AdminForm.RegexTimesBounded` | frontend/src/App.js:147 | a time the regex accepts parses to at most 99:99.999 worth of milliseconds |
| `AdminForm.TeamToSend` | frontend/src/App.js:158 | a team is sent exactly when teams are shown and the trimmed team is not empty, and it is sent trimmed; otherwise `null` |
| `AdminForm.HandleSubmit` | frontend/src/App.js:133-160 | a blank name is rejected first, then a blank time; the form accepts exactly when the name is not blank and the untrimmed time matches the regex; it sends the trimmed name, the team rule's team and the time |
| `AdminForm.HandleSave` | frontend/src/App.js:253-272 | the same name check and regex; it sends every field, with the team rule's team |
| `AdminForm.FormsAgree` | frontend/src/App.js:253-263 | the add form and the edit dialog accept the same inputs and send the same values |
| `AdminForm.SubmittedLapsAreCreated` | frontend/src/App.js:155-160 | a submitted lap's display text parses on the backend to the time the form's fields denote |
| `AdminForm.EditCannotClearTeam` | frontend/src/App.js:268-271 | blanking the team in the edit dialog sends `null`, so the backend keeps the lap's team |
| `RankBadges.RankBadgeClass` | frontend/src/App.js:48-53 | places 1, 2 and 3 get `rank-1`, `rank-2` and `rank-3`; every other place gets `rank-default` |
| `RankBadges.EntryRowClass` | frontend/src/App.js:64 | a row gets `top-<rank>` exactly when its place is at most 3 |
| `RankBadges.BadgeMatchesRow` | frontend/src/App.js:48-64 | for places from 1 on, a row is a top row exactly when its badge is not the default one, and exactly when its place is at most 3 |
| `RankBadges.PodiumRows` | frontend/src/App.js:48-64 | on any board only the first three rows are top rows with coloured badges |

## Left out

- MongoDB and motor calls, the FastAPI router, CORS, logging and the shutdown hook are I/O
  and framework wiring. The collection is a map from id to stored lap. Of the driver's BSON
  encoding the model keeps the 64-bit range of `lap_time_ms`. The uncaught `OverflowError`
  becomes FastAPI's 500 answer.
- `LapStore.LapStore.CreateLapEntry` and `LapStore.LapStore.UpdateLapEntry` do not model
  MongoDB's 16 MiB document limit. The model has no encoded size for a document. A
  `driver_name` or `team` long enough to pass the limit makes `insert_one` or `update_one`
  raise, and the code answers 500 and writes nothing. The model stores that lap.
- The store's sort on `lap_time_ms` is not an algorithm of the code. The listings receive
  its result, and `SortedByTime` / `IsSortedListing` describe it. The order of equal times
  is left open, as the code gives no tie-break key.
- `uuid4` and `datetime.now` become parameters, because they are randomness and a clock.
  `CreateLapEntry` requires a fresh id, in line with `uuid4` uniqueness.
- `csv.writer` quoting and `StreamingResponse` are library calls. The CSV is the list of
  rows handed to `writerow`.
- React rendering, hook state, toasts, axios calls, `window.open`, printing and the PDF HTML
  template are UI and network.
- `PyBuiltins.Int`: Python's `int()` also accepts non-ASCII Unicode decimal digits. The model
  accepts only ASCII digits, with sign, surrounding white space and single underscores. Its
  white-space class is the C `isspace` set below U+007F and Python's Unicode white space
  from U+007F on.
- `PyBuiltins.Int` does not model the integer string conversion limit of Python 3.11 and
  later (`sys.get_int_max_str_digits()`, 4300 digits by default, configurable at run time):
  a field of more than 4300 digits makes the code answer 400, and the model parses it.
- `PyBuiltins.Str` does not model that limit either: for a gap of more than 4300 digits
  `format_gap` raises in the code, and the model renders it.
- Pydantic's type coercion of request bodies is not modelled: fields arrive with their types.
- Finding by id: `find_one` and `delete_one` match the `id` field, and the model looks up
  or removes the map key. Both name the same lap, because the store invariant, which every
  handler requires, files each lap under its own id.
- The auth, e-mail, event, track and upload endpoints that the repository's tests exercise
  are not part of this model.
