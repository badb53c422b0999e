# Reminder bot core in Dafny

This project models the core of a Discord reminder bot written in TypeScript, and proves properties of that model. The core covers:

- the relative-duration parser (`3d2h1m`);
- the absolute-date normaliser (`fri 11:05`, `3/7/2026 17:06`);
- the pass that announces due reminders and re-arms periodic ones;
- the `reminder`, `periodicreminder`, `delay`, `list` and `clear` commands;
- the in-memory reminder table with its configuration values;
- the small formatting helpers;
- the splitting of a chat message into a command name and arguments.

Modules follow the source files:

| module | file | form |
|---|---|---|
| `Strings` | (shared helpers) | functions and lemmas: digits, `split`, `join`, ASCII `toLowerCase` |
| `Calendar` | stand-in for moment-timezone | functions and lemmas |
| `Parsers` | src/parsers.ts | `ParseRelativeTime` and `AddUnits` are methods with loops proved against `RelativeTimeSpec`; the absolute-date code is pure functions |
| `Data` | src/data.ts | class `ReminderData`: the module variables and the Firebase paths become fields, and every setter states its whole new state |
| `Events` | src/events.ts | `AnnounceReminders` walks a key order and deletes or re-arms entries in place, proved against `AfterPass`, `Announcements` and `LastAnnounced` |
| `Utils` | src/utils.ts | `Chunk` is a loop; the rest are functions |
| `ReminderCommands` | src/remindercommands.ts | each command is a method on `ReminderData`, proved against a pure decision function |
| `Handler` | src/handler.ts | pure functions |
| `ParserExamples` | src/tests/asserts.ts | the test expectations as lemmas, plus a few more |

`Calendar` uses one fixed zone, UTC+0, on the proleptic Gregorian calendar:

- an instant is an integer number of milliseconds since the Unix epoch;
- days, hours and minutes have fixed lengths, and a week is 7 days;
- day numbers and civil dates convert both ways, and every converted date exists;
- adding months keeps the day of the month, clamped to the last day of the target month, and keeps the time of day;
- a year is 12 months.

The tests use Europe/Lisbon in winter, which is UTC+0. Reading `DD/MM/YYYY HH:mm` gives moment's "Invalid date" when a field overflows. Its weekday numbering has Sunday as 0.

Some behaviour of the code is easy to misread, and the model keeps it as written:

- Units apply in the order they appear in the input (object-key insertion order, src/parsers.ts:31). `ParserExamples.MonthThenDayExample` and `ParserExamples.DayThenMonthExample` show both orders: `1mo1d` from 30 January gives 1 March, while `1d1mo` gives 28 February.
- Reminders carry no occurrence counter, `list` has no categories beyond periodic and one-shot, and it has no paging.
- Renewal skips `w`/`week`, although the parser accepts them. The model keeps this: `Events.WeeklyOnlyIsDueAgain` shows that a reminder stored with only weeks is re-armed five seconds in the past.

## Model

| member | source | states |
|---|---|---|
| Parsers.Tokenize | src/parsers.ts:16 | every token of the `/[0-9]+\|[A-Za-z]+/g` match is a non-empty run of digits or of ASCII letters |
| Parsers.TokenizeConcat | src/parsers.ts:16 | tokenising the concatenation of alternating digit and letter runs gives exactly those runs back |
| Parsers.TokenizeDigitRun | src/parsers.ts:16 | a maximal digit run at the front is one token, followed by the tokens of the rest |
| Parsers.TokenizeLetterRun | src/parsers.ts:16 | a maximal letter run at the front is one token, followed by the tokens of the rest |
| Parsers.TokenizeSeparator | src/parsers.ts:16 | a character that is neither digit nor letter (such as `.`) separates tokens and is dropped |
| Parsers.Lookup | src/parsers.ts:22 | the dictionary has an entry for a unit exactly when some stored pair has that raw key |
| Parsers.Pairs | src/parsers.ts:19-27 | the loop's stride of 2 yields half as many (value, unit) pairs as tokens |
| Parsers.TimeValuesOf | src/parsers.ts:26 | `timeValues` has one entry per pair, keyed by the raw unit token, in insertion order |
| Parsers.FoldEntriesAppend | src/parsers.ts:31-42 | stepping a date through two lists of entries one after the other is the same as stepping through their concatenation |
| Parsers.ApplyUnitsStep | src/parsers.ts:31-42 | applying one more known unit adds its value in that unit to the date reached so far |
| Parsers.ApplyUnitsAppend | src/parsers.ts:31-42 | applying units in input order splits at any point: the second part is added to the date the first part reached |
| Parsers.ParseRelativeTime | src/parsers.ts:15-45 | the two loops return `RelativeTimeSpec`: invalid unless the tokens form positive (value, unit) pairs with distinct raw units and known aliases; otherwise `start` with each unit added in input order, plus the dictionary |
| Parsers.AddUnits | src/parsers.ts:29-44 | the second loop adds every stored unit in insertion order, and any unknown alias makes the result invalid (also when it comes after valid pairs) |
| Parsers.AcceptedExtend | src/parsers.ts:22-26 | a pair with a positive value and a new unit extends the accepted prefix by one dictionary entry |
| Parsers.InvalidWhenPairFails | src/parsers.ts:22-23 | if the guard fires at any stride (missing unit, repeated unit, NaN or value at most 0), the whole result is invalid |
| Parsers.OddTokensInvalid | src/parsers.ts:16-23 | no tokens at all, or an odd number of tokens, is invalid |
| Parsers.NonPositiveInvalid | src/parsers.ts:22 | a value token that is a letter run (other than `Infinity`, see "Left out") or equals 0 makes the input invalid |
| Parsers.UnknownUnitInvalid | src/parsers.ts:33-41 | any unit token outside the 12 case-sensitive aliases makes the input invalid |
| Parsers.RepeatedUnitInvalid | src/parsers.ts:22 | the same raw unit token at two positions makes the input invalid |
| Parsers.ValidTimeValues | src/parsers.ts:26-44 | on success, pair k of the dictionary is (unit token 2k+1, value of digit token 2k), every value is positive, and every lookup returns its own value |
| Parsers.RelativeValidWhen | src/parsers.ts:15-45 | conversely, tokens that spell distinct known units with positive values are accepted with exactly that dictionary and date |
| Parsers.LookupDistinct | src/parsers.ts:26 | with distinct keys, looking up a stored key returns its value |
| Parsers.WeekdayNumber | src/parsers.ts:70-80 | the `switch` yields 0..6 for weekday names, -2 for `today` and -1 otherwise |
| Parsers.ZeroPad | src/parsers.ts:115-118 | `zeroPad` of a numeral is all digits |
| Parsers.ZeroPadTwo | src/parsers.ts:115-118 | for values below 100, `zeroPad` gives exactly two digits whose value is the input |
| Parsers.ZeroPadYear | src/parsers.ts:96 | a year read as `D/M/YYYY` keeps its value and is four digits exactly when it is at least 1000 |
| Parsers.IntToStringYear | src/parsers.ts:92 | `now.year()` printed in decimal is four digits exactly for the years 1000..9999 |
| Parsers.ZeroFillYear | src/parsers.ts:84 | the `YYYY` of moment's format is four digits exactly for the years 0..9999 |
| Parsers.DigitsAtMost99 | src/parsers.ts:63 | a one- or two-digit field is below 100 |
| Parsers.DigitsAtMost9999 | src/parsers.ts:64 | a four-digit field is below 10000 |
| Parsers.NoSlashOrSpace | src/parsers.ts:112 | a numeral contains neither `/` nor a space, so the assembled text splits back where it was joined |
| Parsers.WeekdayNextOccurrence | src/parsers.ts:86-87 | a weekday name moves 1 to 7 days ahead to the first day with that weekday, so the current weekday moves a full week |
| Parsers.AbsoluteTimeMeaning | src/parsers.ts:47-57 | `parseAbsoluteTime` is invalid exactly when the date argument is not recognised or its year does not come out as four digits; otherwise it is the named date at the named time as moment reads it, with no other range check |
| Parsers.AbsoluteShapeIsWhole | src/parsers.ts:50 | whenever the unanchored shape test passes, the whole converted text is exactly one `DD/MM/YYYY HH:mm` |
| Parsers.ConvertTimeMeaning | src/parsers.ts:99-110 | `Hh` becomes `HH:00` and `H:MM` becomes `HH:MM` with `isTimeInputted`; anything else becomes `06:00` without it; the text holds the hour and minute of `ClockOf` |
| Parsers.DateFieldsMeaning | src/parsers.ts:68-97 | the date fields exist exactly when a date is named; day and month are two digits holding the named day and month; the year field is four digits exactly when the year fits |
| Parsers.ShapeIffFourDigitYear | src/parsers.ts:50 | an assembled `DD/MM/Y HH:MM` passes the shape test exactly when `Y` is four digits |
| Parsers.ReadBack | src/parsers.ts:54 | the canonical text reads back field by field from fixed positions |
| Parsers.NoShapeWithoutDate | src/parsers.ts:50-51 | the `invalid` placeholder date never passes the shape test, whatever the time |
| Calendar.DaysInMonth | src/parsers.ts:35 | every month has 28 to 31 days |
| Calendar.CivilRoundTrip | src/parsers.ts:84 | converting an existing date to its day number and back gives that date |
| Calendar.DaysRoundTrip | src/parsers.ts:84 | converting any day number to its date and back gives that day number |
| Calendar.CivilDateExists | src/parsers.ts:84 | the date of any day number has a month in 1..12 and a day within that month's length |
| Calendar.Weekday | src/parsers.ts:86 | `weekday()` lies in 0..6 |
| Calendar.DayShift | src/parsers.ts:87 | adding whole days moves the day number by that many and keeps the time of day |
| Calendar.WeekdayShift | src/parsers.ts:87 | adding j days moves the weekday by j modulo 7 |
| Calendar.AddFixedLength | src/parsers.ts:36-39 | minutes, hours and days have fixed lengths, and a week is 7 days |
| Calendar.AddYearIsTwelveMonths | src/parsers.ts:34 | adding n years is adding 12n months |
| Calendar.AddMonthsCivil | src/parsers.ts:35 | adding months gives the date in the target month with the day of month clamped to that month's length, at the same time of day |
| Calendar.FromCivil | src/parsers.ts:54 | strict reading of `DD/MM/YYYY HH:mm` is valid exactly when the month is 1..12, the day exists in that month, the minute is 0..59 and the hour is 0..23 (or 24:00) |
| Calendar.FromCivilDate | src/parsers.ts:54 | a valid strict reading falls on the date it names at the hour and minute it names; 24:00 is the first instant of the next day |
| Calendar.ZeroFillValue | src/parsers.ts:84 | zero-filling keeps a non-negative value, has the requested width unless the numeral is longer, and starts with `-` for a negative value |
| Events.RenewReminder | src/events.ts:33-49 | the renewed reminder differs only in `timestamp`: the clock plus each stored offset in stored order, minus five seconds |
| Events.UnknownKeySkipped | src/events.ts:38-44 | a stored key outside `year/y/month/mo/day/d/hour/h/minute/m` is passed over |
| Events.RenewMatchesParse | src/events.ts:36-45 | without weeks, renewal adds exactly what the parser added for the same dictionary |
| Events.WeeklyOnlyIsDueAgain | src/events.ts:36-48 | a dictionary of weeks only re-arms at the clock minus five seconds, so such a reminder is due again at once |
| Events.WeekOnly | src/events.ts:38-44 | `w`/`week` entries leave the renewal date unchanged |
| Events.VisitReminder | src/events.ts:12-28 | one key: untouched if not due; deleted unannounced if its channel is gone; otherwise announced, with the last message set to its text, then re-armed if periodic or deleted |
| Events.AnnounceReminders | src/events.ts:7-31 | after the pass the table is `AfterPass`, the messages sent are `Announcements` in key order, the last message is the last one announced, and the table is saved |
| Events.PartialStep | src/events.ts:12-28 | visiting a key applies that key's outcome and leaves every other entry as it was |
| Events.NotDueUntouched | src/events.ts:15 | a reminder with `timestamp > now` is still in the table, unchanged |
| Events.DueOutcome | src/events.ts:17-27 | a due reminder stays exactly when it is periodic and its channel exists, and then only its timestamp changes; the pass adds no key |
| Events.LastMessageIsLastSent | src/events.ts:25-26 | the last message of a pass exists exactly when something was sent, and it is the text of the reminder whose announcement was sent last |
| Events.AnnouncedAreDue | src/events.ts:15-25 | every announcement sent is the mention and text of a due reminder whose channel exists |
| Utils.PadDigits | src/utils.ts:165-167 | `pad` adds a character exactly when the value is below 10, keeps the value, and gives two characters for 0..99 |
| Utils.Clamp | src/utils.ts:172-174 | with min at most max the result lies in [min, max] and equals the value when it is already in range; otherwise it is the bound that was crossed |
| Utils.MinutesAreSeconds | src/utils.ts:135-144 | `minutes(n)` is `seconds(60n)`, `seconds(n)` is n*1000, and adding n minutes to an instant adds `minutes(n)` |
| Utils.MentionRoundTrip | src/utils.ts:121-130 | the id reads back from a user or channel mention, and a user mention never equals a channel mention |
| Utils.Chunk | src/utils.ts:230-238 | for length > 0 the chunks concatenate back to the input, none is empty, all but the last have exactly `length` characters, and there are ceil(n/length) of them |
| Utils.CeilingDivision | src/utils.ts:233-235 | a loop that takes `length` characters per round runs ceil(n/length) rounds |
| Utils.PrepareTimeUnit | src/utils.ts:226-228 | the phrase is the amount, a space and the word, with one more `s` exactly when amount > 1 |
| Utils.PhraseParts | src/utils.ts:206-223 | the units mentioned all have positive amounts and come from largest to smallest |
| Utils.PhraseIsRenderedParts | src/utils.ts:206-223 | the phrase is the list of mentioned units joined with `, ` and a final ` and `, or `less than a minute` when the list is empty |
| Utils.PhraseSelection | src/utils.ts:206-223 | all diffs 0 gives `less than a minute`; `monthDiff > 0` mentions only months and days; otherwise `dayDiff > 2` mentions only days |
| Utils.StepDiffsDecompose | src/utils.ts:185-203 | after the month step, the day, hour and minute diffs are the largest whole units below the gap, with hours below 24 and minutes below 60 |
| ReminderCommands.Validate | src/remindercommands.ts:237-250 | a reminder passes exactly when its text has at most 1000 characters and it is 60 000 ms to 365 days ahead |
| ReminderCommands.ValidateOrder | src/remindercommands.ts:237-250 | the checks reply in source order: too long, then too soon, then too late |
| ReminderCommands.RelativeStoresWhen | src/remindercommands.ts:211-266 | `in` stores a reminder exactly when in a server, with 3 or more args, a valid duration and a valid text and target |
| ReminderCommands.RelativeStoredReminder | src/remindercommands.ts:234-264 | the stored reminder has the parsed date and the joined text; only periodic ones get `name = args[0]`, `rawTime = args[1]` and the parser's dictionary |
| ReminderCommands.BuildRelativeTimeReminder | src/remindercommands.ts:211-275 | the reply and the table are those of `RelativeDecision`; a stored reminder goes under the fresh push key in memory and in the store, and nothing else changes |
| ReminderCommands.InvalidDateStoredAsWritten | src/remindercommands.ts:302-336 | as written, `at 31/02/2030 10:00 hello` passes the shape check and stores moment's Invalid date as its timestamp |
| ReminderCommands.ShapeOfLongDate | src/remindercommands.ts:278 | `31/02/2030 10:00` has the shape the check accepts |
| ReminderCommands.AbsoluteStoredReminder | src/remindercommands.ts:287-336 | a stored `at` reminder has 4 or more args, passes the shape test and the window, and has the parsed instant and the joined text; it agrees with the code wherever the date is valid; an invalid date stores nothing |
| ReminderCommands.BuildAbsoluteTimeReminder | src/remindercommands.ts:287-340 | the reply and the table are those of `AbsoluteDecision`, under the fresh push key, and nothing else changes |
| ReminderCommands.ReminderDispatch | src/remindercommands.ts:26-48 | a non-owner, fewer than 3 args, or a first arg other than `in`/`at` stores nothing; a non-owner gets no reply; `reminder` never stores a periodic or named reminder |
| ReminderCommands.ReminderCommand | src/remindercommands.ts:26-48 | the reply and the table are those of `ReminderDecision`, and nothing else changes |
| ReminderCommands.PeriodicNamed | src/remindercommands.ts:52-67 | `periodicreminder` stores only for the owner with 3 or more args, a periodic reminder named `args[0]` repeating every `args[1]` |
| ReminderCommands.PeriodicReminder | src/remindercommands.ts:52-67 | the reply and the table are those of `PeriodicDecision`, and nothing else changes |
| ReminderCommands.DelayRepeatsLast | src/remindercommands.ts:71-92 | `delay` stores the last announced text as a one-shot reminder at the parsed duration and echoes it; with no last message, or an empty one, nothing is stored |
| ReminderCommands.Delay | src/remindercommands.ts:71-92 | the reply and the table are those of `DelayDecision` on the current last message, and nothing else changes |
| ReminderCommands.Group | src/remindercommands.ts:105-107 | each group holds only reminders of its kind |
| ReminderCommands.GroupsPartition | src/remindercommands.ts:105-107 | the two groups together are a permutation of the table's reminders |
| ReminderCommands.InsertMultiset | src/remindercommands.ts:118 | inserting adds exactly that reminder |
| ReminderCommands.InsertSorted | src/remindercommands.ts:118 | inserting into a list sorted by timestamp keeps it sorted |
| ReminderCommands.InsertWithTime | src/remindercommands.ts:118 | inserting keeps reminders with equal timestamps in their original order |
| ReminderCommands.SortByTimeFacts | src/remindercommands.ts:118 | the sort is ascending by timestamp, a permutation, and stable |
| ReminderCommands.Truncate | src/remindercommands.ts:139 | text of at most 1990 characters is sent unchanged; longer text is its first 1990 characters followed by ` (...)` |
| ReminderCommands.ListOpening | src/remindercommands.ts:109-130 | an empty table replies that there are no reminders; non-periodic reminders come first under their header; without them the periodic header and lines are the whole text |
| ReminderCommands.PartitionByKind | src/remindercommands.ts:101-107 | the loop yields exactly the periodic and non-periodic groups in key order |
| ReminderCommands.AppendLines | src/remindercommands.ts:120-124 | the `forEach` appends one line per reminder, in order, to the text so far |
| ReminderCommands.LinesStep | src/remindercommands.ts:120-124 | one more reminder appends exactly its line |
| ReminderCommands.List | src/remindercommands.ts:96-140 | the owner gets `ListReply`: each group sorted by timestamp, non-periodic first, truncated; others get no reply |
| ReminderCommands.LastMatchNone | src/remindercommands.ts:161-167 | no key is found exactly when no periodic reminder has a name equal to the argument ignoring case |
| ReminderCommands.LastMatchSome | src/remindercommands.ts:161-165 | the key found is the last matching key in key order |
| ReminderCommands.ClearIgnoresCase | src/remindercommands.ts:162 | names that lower-case alike find the same key |
| ReminderCommands.Clear | src/remindercommands.ts:144-175 | a match deletes exactly that one key from memory and from the store; no match, no argument or a non-owner leaves both unchanged, each with its own reply |
| Data.JsRemRange | src/data.ts:83 | JavaScript's `%` is the Euclidean remainder for a non-negative dividend, and lies in (-n, 0] for a negative one |
| Data.IdPeriod | src/data.ts:18 | ids repeat every 5001 steps |
| Data.ReminderData.constructor | src/data.ts:14-20 | the table is empty, there is no last message, `latestId` is -1 and no timezone is set |
| Data.ReminderData.LoadImmediate | src/data.ts:30-35 | every variable is read from the store; a missing timezone falls back to the owner's |
| Data.ReminderData.SaveImmediate | src/data.ts:40-42 | the store's table becomes the in-memory table |
| Data.ReminderData.SaveReminders | src/data.ts:48-50 | the store's table becomes the given table |
| Data.ReminderData.SaveReminder | src/data.ts:44-46 | the reminder is pushed under a fresh key, which is returned |
| Data.ReminderData.DeleteReminder | src/data.ts:52-54 | the key is removed from the store only; the in-memory table is untouched |
| Data.ReminderData.SetReminder | src/data.ts:60-62 | the table gains the reminder under the pushed key, in memory and in the store, and every other entry is unchanged |
| Data.ReminderData.SetLastReminderMessage | src/data.ts:64-71 | `getLastReminderMessage` then returns the value just set, and the store holds it too |
| Data.ReminderData.SetTimezone | src/data.ts:73-80 | `getTimezone` then returns the value just set, and the store holds it too |
| Data.ReminderData.GenerateId | src/data.ts:82-85 | `latestId` grows by one without wrapping; the id returned is (latestId + 1) mod 5001, which lies in 0..5000 when `latestId >= -1`; NaN stays NaN |
| Handler.CommandTable | src/handler.ts:12 | a name runs a command exactly when it is a key of the merged table, and each alias runs the same function as its long name |
| Handler.NonEmpty | src/handler.ts:19 | after the filter no piece is empty, and each piece came from the split |
| Handler.SplitCommandPieces | src/handler.ts:19-21 | no argument is empty or holds a space; the prefixed name followed by the arguments is exactly the list of pieces |
| Handler.PiecesKeepText | src/handler.ts:19 | the pieces hold every character of the content except spaces, in order, and there is none only when the content is all spaces |
| Handler.SplitCommandJoin | src/handler.ts:19-21 | a prefixed name and arguments written with single spaces split back into that name and those arguments |
| Handler.HandleCommandRuns | src/handler.ts:18-24 | a command runs exactly when its name is in the table, with the pieces after the name as its arguments |
| Strings.JoinSplit | src/handler.ts:19 | joining the pieces of a split with the separator gives the text back |
| Strings.SplitJoin | src/handler.ts:19 | splitting pieces joined by a separator they lack gives the pieces back |
| Strings.DigitsValueOfNatToString | src/parsers.ts:117 | the decimal numeral of n reads back as n |
| Strings.LeadingZeros | src/parsers.ts:116 | `parseInt` ignores leading zeros |
| Strings.ToLowerNoUpper | src/parsers.ts:70 | lower-casing text without upper-case letters leaves it unchanged |
| ParserExamples.UnknownUnitExample | src/tests/asserts.ts:30 | `1x` is invalid |
| ParserExamples.LettersOnlyExample | src/tests/asserts.ts:31 | `abcd` is invalid |
| ParserExamples.DecimalPointExample | src/tests/asserts.ts:32 | `1.1d` is invalid |
| ParserExamples.ZeroValueExample | src/tests/asserts.ts:33 | `1d0m` is invalid |
| ParserExamples.UnknownSecondUnitExample | src/tests/asserts.ts:34 | `1d1x` is invalid although its first pair is valid |
| ParserExamples.OneMinuteExample | src/tests/asserts.ts:35-36 | `1m` from 02/02/2025 00:00 is 00:01 with `{m: 1}` |
| ParserExamples.DaysHoursMinutesExample | src/tests/asserts.ts:37-38 | `3d2h1m` is 05/02/2025 02:01 with `{d: 3, h: 2, m: 1}` |
| ParserExamples.AllUnitsExample | src/tests/asserts.ts:39-40 | `3y2w1mo6d12h36m` is 22/03/2028 12:36 with all six entries in input order |
| ParserExamples.UpperCaseUnitExample | src/parsers.ts:33-41 | `1D` is invalid: unit matching is case-sensitive |
| ParserExamples.RepeatedUnitExample | src/parsers.ts:22 | `1d1d` is invalid |
| ParserExamples.TwoAliasesExample | src/parsers.ts:22-37 | `1d1day` is valid, adds both, and keeps both keys |
| ParserExamples.MonthThenDayExample | src/parsers.ts:31-42 | `1mo1d` from 30/01/2025 is 01/03/2025 |
| ParserExamples.DayThenMonthExample | src/parsers.ts:31-42 | `1d1mo` from 30/01/2025 is 28/02/2025, so the order of the units matters |
| ParserExamples.WordWithoutTime | src/tests/asserts.ts:42 | `abcd` without a time is invalid |
| ParserExamples.WordWithBareNumber | src/tests/asserts.ts:43 | `abcd 23` is invalid |
| ParserExamples.LongDateKept | src/tests/asserts.ts:44-45 | `02/02/2026 17:06` is kept as given, with a time |
| ParserExamples.LongDatePadsMonth | src/tests/asserts.ts:46-47 | `02/6/2026` pads the month |
| ParserExamples.LongDatePadsBoth | src/tests/asserts.ts:48-49 | `3/7/2026` pads day and month |
| ParserExamples.ShortDateOneDigits | src/tests/asserts.ts:50-51 | `1/3` is 01/03 of `now`'s year |
| ParserExamples.ShortDateDecember | src/tests/asserts.ts:52-53 | `02/12` is 02/12/2025 |
| ParserExamples.ShortDatePadsDay | src/tests/asserts.ts:54-55 | `6/12` is 06/12/2025 |
| ParserExamples.ShortDateDefaultTime | src/tests/asserts.ts:56-57 | `03/02` without a time is 06:00 without `isTimeInputted` |
| ParserExamples.ShortDateTodayNoRollover | src/parsers.ts:92 | `02/02` stays in 2025 (the test expects 2026) |
| ParserExamples.ShortDatePastNoRollover | src/parsers.ts:92 | `5/1` stays in 2025 although that date has passed (the test expects 2026) |
| ParserExamples.ShortDatePastHourForm | src/parsers.ts:92 | `10/1 12h` is 10/01/2025 12:00 (the test expects 2026) |
| ParserExamples.LongDateDefaultTime | src/tests/asserts.ts:64-65 | `02/02/2027` without a time is 06:00 |
| ParserExamples.SundayMovesAWeek | src/tests/asserts.ts:66-67 | on a Sunday, `sun` is seven days ahead |
| ParserExamples.MondayNextDay | src/tests/asserts.ts:68-69 | `Mon` is the next day |
| ParserExamples.TuesdayUpperCase | src/tests/asserts.ts:70-71 | `TUE` is recognised regardless of case |
| ParserExamples.WednesdayShort | src/tests/asserts.ts:72-73 | `wed` is three days ahead |
| ParserExamples.ThursdayLong | src/tests/asserts.ts:74-75 | `thursday` is four days ahead |
| ParserExamples.FridayLong | src/tests/asserts.ts:76-77 | `friday` is five days ahead |
| ParserExamples.SaturdayShort | src/tests/asserts.ts:78-79 | `sat` is six days ahead |
| ParserExamples.TodayWithTime | src/tests/asserts.ts:80-81 | `today 11:05` is today at 11:05 |
| ParserExamples.TodayDefaultTime | src/tests/asserts.ts:82-83 | `today` without a time is today at 06:00 |
| ParserExamples.TomorrowNotRecognised | src/parsers.ts:70-79 | `tmrw` is invalid, since no case names it (the test expects the next day) |
| ParserExamples.FridayDefaultTime | src/tests/asserts.ts:86-87 | `fri` without a time is Friday at 06:00 |
| ParserExamples.LongTimeOneDigitHour | src/tests/asserts.ts:88-89 | `7:15` pads the hour |
| ParserExamples.HourFormOneDigit | src/tests/asserts.ts:90-91 | `4h` is 04:00 |
| ParserExamples.HourFormTwoDigits | src/tests/asserts.ts:92-93 | `16h` is 16:00 |
| ParserExamples.HourFormUpperCase | src/tests/asserts.ts:94-95 | `17H` is 17:00 |
| ParserExamples.NoRangeCheck | src/parsers.ts:50-56 | `31/02/2030 10:00` passes the shape test and is valid, holding moment's Invalid date |

## Left out

- Discord I/O: sending messages, embeds and files, and channel lookup. Each command returns its reply as a value. The set of channels that still exist is a parameter of the announcement pass, and every send succeeds.
- The `help` command and the meta commands (`checkreminders`, `load`, `save`, `invite`) build an embed, do owner-gated I/O, or call a child process. They appear only as entries of the command table.
- Firebase: the store is a set of fields of `ReminderData`. `push` is a fresh-key oracle: the caller passes a key that is not yet stored. Its asynchrony and failures are left out.
- Timers and concurrency: the `setInterval` schedules and overlapping asynchronous passes. One pass runs at a time.
- The clock: `moment()` and `now` are parameters.
- Iteration order of `for ... in` over the table is a parameter: a sequence of the table's keys.
- Time zones and DST: one fixed UTC+0 zone. `userTz()` and the `tz` argument do not change the result.
- ReminderCommands.AbsoluteDecision: moment's lenient parse of the raw `at` text is a parameter, `parsed`, constrained only on the canonical `DD/MM/YYYY HH:mm` shape. moment's diff in months, `monthDiff`, is likewise a parameter.
- Utils.StepDiffsDecompose: moment's month difference is a parameter, so only the day, hour and minute steps are derived.
- Date formatting for `list` and the command echoes (`dddd, MMMM Do YYYY, HH:mm` and the relative phrase) is passed in as functions.
- Text lengths count characters, not UTF-16 code units, and `toLowerCase` lowers ASCII letters only.
- Parsers.NumberOf: reads every digit run exactly, and every letter run as NaN. In JavaScript `Number("Infinity")` is Infinity, which passes the guard at src/parsers.ts:22 as a positive value, and a digit run of more than 308 digits is Infinity too; shorter long runs lose precision. The model has no infinite or rounded values.
- Calendar.Add: instants are unbounded integers. moment gives "Invalid date" for an addition with an infinite amount or a result beyond ±8.64e15 ms (the JavaScript Date range); the model always gives an instant.
- Parsers.ParseRelativeTime: because of the two gaps above, `Infinity-d` and durations that leave the Date range (such as `300000y`) are valid with an "Invalid date" in the source. The model returns invalid for `Infinity-d` and a valid out-of-range instant for `300000y`.
- Parsers.AddUnits: an addition past the Date range gives an out-of-range instant in the model, not "Invalid date".
- Parsers.NonPositiveInvalid: holds for every letter run in the model, but the source accepts the letter run `Infinity` as a positive value.
- Events.RenewReminder: an offset that takes the renewal past the Date range gives an integer timestamp in the model, where the source stores NaN and re-arms it to NaN on every later pass.
- ReminderCommands.RelativeStoresWhen: the source also stores a reminder with a NaN timestamp for `in Infinity-d text` and `in 300000y text`, because NaN passes both window checks at src/remindercommands.ts:242-250, and replies "set for Invalid date". The model replies that the time is invalid for the first, and too late for the second.
- ReminderCommands.BuildRelativeTimeReminder: inherits the NaN-timestamp gap of RelativeStoresWhen.
- ReminderCommands.PeriodicReminder: inherits the NaN-timestamp gap of RelativeStoresWhen.
- ReminderCommands.Delay: inherits the NaN-timestamp gap of RelativeStoresWhen.
- ReminderCommands.BuildAbsoluteTimeReminder: follows the corrected `AbsoluteDecision` of "## Findings". A date that passes the shape check but does not exist (`at 31/02/2030 10:00 hello`) is rejected as an invalid time, where the source stores it with a NaN timestamp and replies "set for Invalid date". The as-written timestamp is `AbsoluteTimestampAsWritten`.
- ReminderCommands.ReminderCommand: dispatches to the two builders above, so it has both gaps: the NaN path of `in` and the corrected decision of `at`.
- Inherited `Object.prototype` names (`constructor`, `toString`, ...) as dictionary or command-table keys are not modelled. The parser rejects them as units in any case.
- Two test expectations contradict the code, and the model follows the code. src/tests/asserts.ts:58-63 expects `D/M` to roll over to next year; see ParserExamples.ShortDateTodayNoRollover and its neighbours. src/tests/asserts.ts:84-85 expects `tmrw` to be recognised; see ParserExamples.TomorrowNotRecognised.
- Utils.Chunk: requires `length > 0`. With a length of 0 or less the source loop never ends.
- Utils.Minutes and Utils.Seconds have no contract of their own; Utils.MinutesAreSeconds states them.
- ReminderCommands.List: builds both groups first and then formats them, rather than sorting each array in place.
- `latestId` loaded as `undefined` is None, standing for NaN. `++` keeps it NaN, and the id returned is then None.

## Findings

| source | as written | input that shows it | evidently intended | confidence | as-written member | corrected member |
|---|---|---|---|---|---|---|
| src/remindercommands.ts:302-336 | a date that passes the shape check but does not exist becomes moment's Invalid date, and its NaN timestamp passes every window check (NaN comparisons are false), so the reminder is stored with a NaN timestamp | `at 31/02/2030 10:00 hello` | reject an invalid date like any other invalid time | not executed | ReminderCommands.InvalidDateStoredAsWritten | ReminderCommands.AbsoluteStoredReminder |
