# htp: the clue builder and the evaluator, in Dafny

htp reads human time phrases such as "9 pm", "2 hours ago", "last friday at 19:43",
"yesterday" or "2020-12-25T19:43:42" and turns each into a point in time. It works in
two stages, and this project models both.

- **The clue builder** (`src/parser.rs`). It starts from the rule sequence the grammar
  produces for a phrase: pairs of a rule name and the text it matched. It turns that
  sequence into exactly one *time clue* or a *parse error*. It uses five recognisers for
  the closed word classes (weekday, am/pm, shortcut day, modifier, unit), a reader for
  times of day, and one positional match over the whole sequence.
- **The evaluator** (`src/interpreter.rs`). It turns a time clue and a reference instant
  ("now") into an instant or an *evaluation error*. `check_hms` is the only place where
  hour, minute and second are range-checked and where PM adds twelve hours.
  `evaluate_time_clue` does the date arithmetic:
  - the Monday of now's week;
  - last/next weekday;
  - today/yesterday/tomorrow;
  - relative offsets in fixed units;
  - the optional roll to the next day;
  - ISO date-times.

Files:

- `wrappers.dfy`: `Option` and `Result`.
- `integers.dfy`: Rust's `str::parse` for `u32`, `usize` (64-bit) and `i32`.
- `grammar.dfy`: the rule names and the `(Rule, string)` token.
- `clues.dfy`: `TimeClue`, its enumerations and `ParseError`.
- `parser.dfy`: the clue builder.
- `parser_examples.dfy`: the builder's own test cases.
- `calendar.dfy`: the proleptic Gregorian calendar and the day numbering.
- `interpreter.dfy`: the evaluator.

Every stage of the builder is split in two:

- a *structural matcher* (`MatchHms`, `MatchDay`, `MatchClue`) that says which pattern of
  the source's `match` the tokens fit and which texts it binds;
- an *arm builder* (`ReadHms`, `BuildDay`, `BuildClue`) that reads those texts in the order
  the source does, with errors propagated like Rust's `?`.

An instant is modelled as three numbers:

- a local day number, where day 0 is 1970-01-01;
- a second of that day;
- the fixed UTC offset of now's zone.

The weekday index is `(day + 3) % 7`, with Monday as 0.

## Model

| member | source | states |
|---|---|---|
| Integers.ParseUnsigned | src/parser.rs:163 | a `u32`/`usize` parse never exceeds the type's maximum and rejects the empty text and a lone `+` |
| Integers.ParseUnsignedAccepts | src/parser.rs:163 | an accepted text is decimal digits after at most one leading `+` |
| Integers.ParseUnsignedDecimal | src/parser.rs:163 | every value of the type is read back from its decimal text, with or without a `+` |
| Integers.ParseUnsignedLeadingZero | src/parser.rs:163 | a leading zero does not change what is read ("07" reads as 7) |
| Integers.ParseUnsignedTooLarge | src/parser.rs:211 | digits whose value exceeds the type's maximum are rejected |
| Integers.ParseSigned | src/parser.rs:267 | an `i32` parse stays in range, and a negative result comes from a text starting with `-` |
| Integers.ParseSignedDecimal | src/parser.rs:267 | every `i32` is read back from its signed decimal text |
| Parser.WeekdayFrom | src/parser.rs:40-51 | a rejected text fails with `UnknownWeekday` carrying that same text |
| Parser.WeekdayFromSpec | src/parser.rs:40-51 | a text gives weekday `w` exactly when it is `w`'s full lowercase name or its three-letter abbreviation |
| Parser.AmOrPmFrom | src/parser.rs:82-88 | a rejected text fails with `UnknownAMPM` carrying that text |
| Parser.AmOrPmFromSpec | src/parser.rs:82-88 | exactly "am" and "pm" are accepted, each to its marker |
| Parser.ShortcutDayFrom | src/parser.rs:97-104 | a rejected text fails with `UnknownShortcutDay` carrying that text |
| Parser.ShortcutDayFromSpec | src/parser.rs:97-104 | exactly "today", "yesterday" and "tomorrow" are accepted, each to its day |
| Parser.ModifierFrom | src/parser.rs:112-118 | a rejected text fails with `UnknownModifier` carrying that text |
| Parser.ModifierFromSpec | src/parser.rs:112-118 | exactly "last" and "next" are accepted |
| Parser.QuantifierFrom | src/parser.rs:129-138 | a rejected text fails with `UnknownQuantifier` carrying that text |
| Parser.QuantifierFromSpec | src/parser.rs:129-138 | a text gives unit `q` exactly when it is one of `q`'s spellings ("min"; "hours"/"hour"/"h"; "days"/"day"/"d"; "weeks"/"week"/"w"; "months"/"month") |
| Parser.ReadU32 | src/parser.rs:163-164 | `h.parse()?` into `u32`: succeeds exactly when the parse does, with its value, and fails with `ParseInt` otherwise |
| Parser.ReadUsize | src/parser.rs:211 | the count is read as a `usize`, failing with `ParseInt` exactly when the parse fails |
| Parser.ReadI32 | src/parser.rs:267 | the year is read as an `i32`, failing with `ParseInt` exactly when the parse fails |
| Parser.MatchHms | src/parser.rs:160-196 | a pattern of the time-of-day reader binds one to three numbers |
| Parser.MatchHmsExact | src/parser.rs:162-194 | a matched pattern binds every token, in order |
| Parser.MatchHmsTokens | src/parser.rs:162-194 | the tokens of each of the six patterns are matched by that pattern |
| Parser.MatchHmsShape | src/parser.rs:160-196 | the tokens match a pattern exactly when they are one to three `hms` tokens, optionally followed by one `am_or_pm` |
| Parser.MatchHmsBinds | src/parser.rs:162-194 | the pattern binds the texts of the `hms` tokens, in order, and the trailing am/pm text exactly when there is one |
| Parser.ReadAmPm | src/parser.rs:177-194 | the am/pm word is read when present; an unknown word fails with `UnknownAMPM` |
| Parser.ReadHms | src/parser.rs:162-194 | an arm builds a `Time` whose fields fit `u32` |
| Parser.ReadHmsSpec | src/parser.rs:162-194 | each field is the number as written, or 0 when absent; the read fails exactly when a number or the am/pm word does; a bad number is `ParseInt` and is reported before the am/pm word; with every number good, an unknown am/pm word fails with `UnknownAMPM` carrying that word |
| Parser.ParseTimeHms | src/parser.rs:160-197 | a success is a `Time` with fields that fit `u32` |
| Parser.ParseTimeHmsSpec | src/parser.rs:160-197 | `UnexpectedNonMatchingPattern` exactly for shapes other than the six; otherwise the fields are the numbers as written with no range check, am/pm is present exactly when the tokens end in one; a number that is not a `u32` gives `ParseInt`; with good numbers, an unknown trailing am/pm word gives `UnknownAMPM` with its text and a known one (or none) gives success; no other error arises |
| Parser.TimePart | src/parser.rs:224-227 | the time part of a day-at arm is the time read with its am/pm, or the reader's error |
| Parser.ParseCanonicalTime | src/parser.rs:160-197 | any time whose fields fit `u32`, written out as tokens with or without am/pm, is read back unchanged |
| Parser.DropAmPm | src/parser.rs:160-197 | removing a valid trailing am/pm changes neither the outcome, the error nor the fields read |
| Parser.MatchDay | src/parser.rs:222-261 | a day-at pattern binds every token, rule by rule |
| Parser.MatchDayTokens | src/parser.rs:223-260 | the tokens of each day-at pattern match it and no earlier pattern |
| Parser.BuildDay | src/parser.rs:223-260 | modifier+weekday gives `RelativeDayAt`, weekday gives `SameWeekDayAt`, shortcut gives `ShortcutDayAt`, carrying the recognisers' readings of the words; it succeeds exactly when the time part (if any) and every word read; a time-part error is reported first, then an unknown modifier (`UnknownModifier`), weekday (`UnknownWeekday`) or shortcut (`UnknownShortcutDay`), each carrying its text; with a time part the time and am/pm are the reader's, without one both are `None` |
| Parser.ParseDayAt | src/parser.rs:222-262 | any other shape after `mday` is `UnexpectedNonMatchingPattern`; a success is a day-at clue |
| Parser.MatchClue | src/parser.rs:204-283 | a pattern is framed by `time_clue` and `EOI`, its form rule is the second token, and it binds the tokens between them |
| Parser.MatchClueTokens | src/parser.rs:205-281 | the tokens of every outer pattern match it |
| Parser.BuildRelative | src/parser.rs:209-220 | succeeds exactly when the count is a `usize` and the unit is known, with that count and unit; a bad count is `ParseInt`, reported before the unit; a good count with an unknown unit is `UnknownQuantifier` carrying the unit's text |
| Parser.ReadDate | src/parser.rs:267-269 | year, month and day are read as `i32`, `u32`, `u32`; any failure is `ParseInt` |
| Parser.BuildIso | src/parser.rs:264-274 | the time part is read first and its error reported first; after a good time part, a year, month or day that does not parse is `ParseInt`; when both read, the result is the ISO clue of the date read and the time's fields, its am/pm dropped |
| Parser.BuildClue | src/parser.rs:205-281 | each outer pattern builds a clue of its own family; the date-only form builds midnight |
| Parser.ParseTimeClue | src/parser.rs:199-284 | a sequence not framed by `time_clue` … `EOI`, or fitting no pattern, is `UnexpectedNonMatchingPattern`; the rule after `time_clue` names the family of the clue built |
| Parser.BuildModWeekdayTime | src/parser.rs:223-231 | `modifier weekday time …` builds the `RelativeDayAt` of the words and the time read |
| Parser.BuildWeekdayTime | src/parser.rs:241-248 | `weekday time …` builds the `SameWeekDayAt` of the word and the time read |
| Parser.BuildShortcutTime | src/parser.rs:249-256 | `shortcut_day time …` builds the `ShortcutDayAt` of the word and the time read |
| Parser.BuildCanonicalRelativeDayAt | src/parser.rs:223-236 | every `RelativeDayAt` clue is built from its canonical day-at tokens |
| Parser.BuildCanonicalSameWeekDayAt | src/parser.rs:237-248 | every `SameWeekDayAt` clue is built from its canonical day-at tokens |
| Parser.BuildCanonicalShortcutDayAt | src/parser.rs:249-260 | every `ShortcutDayAt` clue is built from its canonical day-at tokens |
| Parser.BuildCanonicalRelative | src/parser.rs:209-220 | every relative clue is built from its canonical tokens |
| Parser.BuildCanonicalDayAt | src/parser.rs:221-263 | every day-at clue is built from its canonical tokens |
| Parser.ReadCanonicalDate | src/parser.rs:267-269 | a date whose fields fit their types is read back from its canonical texts |
| Parser.BuildIsoOf | src/parser.rs:264-274 | the ISO arm builds the clue of the date and time read |
| Parser.BuildCanonicalIso | src/parser.rs:264-274 | every ISO clue is built from its canonical tokens |
| Parser.BuildCanonicalClue | src/parser.rs:205-281 | every producible clue is built from its canonical pattern |
| Parser.ParseRender | src/parser.rs:199-284 | every clue the builder can produce is produced: parsing its canonical token sequence gives it back |
| Parser.DateFormReorders | src/parser.rs:275-281 | `day month year` gives `ISO((year, month, day), (0, 0, 0))` when all three read, and `ParseInt` otherwise |
| Parser.MatchIsoForm | src/parser.rs:264 | the ISO pattern binds the three date texts and the time part |
| Parser.MatchDayAtForm | src/parser.rs:221 | the day-at pattern binds everything between `mday` and `EOI` |
| Parser.ParseTimeForm | src/parser.rs:205-207 | a sequence framed as a time clue parses exactly as its time part does, so the time reader's errors (`ParseInt`, `UnknownAMPM`, `UnexpectedNonMatchingPattern`) are the clue's |
| Parser.ParseRelativeForm | src/parser.rs:208-219 | a sequence framed as a relative clue parses as `BuildRelative` on its count and unit texts, so `ParseInt` and `UnknownQuantifier` are the clue's errors |
| Parser.ParseIsoForm | src/parser.rs:264-274 | an ISO sequence is parsed by the ISO arm on its bound texts |
| Parser.ParseDayAtForm | src/parser.rs:221-263 | a day-at sequence is parsed by the inner match on the tokens after `mday` |
| Parser.BuildIsoDropsAmPm | src/parser.rs:265-266 | the ISO arm gives the same result with or without a valid trailing am/pm |
| Parser.IsoIgnoresAmPm | src/parser.rs:264-274 | an ISO sequence ending in a valid am/pm parses exactly like the one without it |
| Parser.TimePartStart | src/parser.rs:223-264 | the time part starts after the form's leading tokens and before `EOI` |
| Parser.DayTimePart | src/parser.rs:223-249 | in the day-at patterns with a time part, the time part is everything after the `time` token |
| Parser.DayTimeErrorsFirst | src/parser.rs:224-254 | in a day-at arm, an error in the time part is reported whatever the words hold |
| Parser.TimeErrorsFirst | src/parser.rs:224-269 | in every form with a time part, an error in the time part is the one reported |
| ParserExamples.TimeAmPmExample | src/parser.rs:316-319 | "9 pm" gives `Time((9, 0, 0), Some(PM))` |
| ParserExamples.AmPmTimeExample | src/parser.rs:177-181 | the time part "9 pm" reads as 9:00:00 PM |
| ParserExamples.TimeFieldsExample | src/parser.rs:171-176 | the time part "9:30:56" reads as 9:30:56 |
| ParserExamples.TimeClueExample | src/parser.rs:324-327 | "9:30:56" gives `Time((9, 30, 56), None)` |
| ParserExamples.NoRangeCheckExample | src/parser.rs:166-170 | "25:99" reads as `Time((25, 99, 0), None)`: the builder does no range check |
| ParserExamples.UnknownAmPmTimeExample | src/parser.rs:177-181 | the time part "9 xm" fails with `UnknownAMPM("xm")` |
| ParserExamples.UnknownAmPmExample | src/parser.rs:205-207 | "9 xm" fails with `UnknownAMPM("xm")` |
| ParserExamples.RelativeExample | src/parser.rs:337-342 | "2 hours ago" gives `Relative(2, Hours)` |
| ParserExamples.UnknownQuantifierExample | src/parser.rs:209-214 | "2 fortnights ago" fails with `UnknownQuantifier("fortnights")` |
| ParserExamples.RelativeFutureExample | src/parser.rs:365-370 | "in 2 d" gives `RelativeFuture(2, Days)` |
| ParserExamples.LastFridayDayAtExample | src/parser.rs:232-236 | the day-at part "last friday" builds `RelativeDayAt(Last, Friday, None, None)` |
| ParserExamples.LastFridayExample | src/parser.rs:412-415 | "last friday" gives `RelativeDayAt(Last, Friday, None, None)` |
| ParserExamples.ShortTimeExample | src/parser.rs:166-170 | the time part "19:43" reads as 19:43:00 |
| ParserExamples.ShortcutDayAtExample | src/parser.rs:249-256 | the day-at part "yesterday at 19:43" builds `ShortcutDayAt(Yesterday, Some((19, 43, 0)), None)` |
| ParserExamples.ShortcutExample | src/parser.rs:389-392 | "yesterday at 19:43" gives `ShortcutDayAt(Yesterday, Some((19, 43, 0)), None)` |
| ParserExamples.DateTextsExample | src/parser.rs:267-269 | "2020", "12" and "25" read as 2020, 12 and 25 |
| ParserExamples.DateExample | src/parser.rs:529-532 | "25/12/2020" gives `ISO((2020, 12, 25), (0, 0, 0))` |
| ParserExamples.IsoTimeExample | src/parser.rs:171-176 | the time part "19:43:42" reads as 19:43:42 |
| ParserExamples.IsoBuildExample | src/parser.rs:264-274 | the ISO arm on "2020", "12", "25" and "19:43:42" builds `ISO((2020, 12, 25), (19, 43, 42))` |
| ParserExamples.IsoExample | src/parser.rs:524-527 | "2020-12-25T19:43:42" gives `ISO((2020, 12, 25), (19, 43, 42))` |
| Calendar.DaysInMonth | src/interpreter.rs:150 | months have 28 to 31 days, and 29 exactly for February of a leap year |
| Calendar.NextDate | src/interpreter.rs:150 | the date after a valid date is valid, in the same year or on the 1st of January after the 31st of December |
| Calendar.MarchYearLength | src/interpreter.rs:150 | a year counted from March has 365 days, plus one when the following February is a leap month |
| Calendar.DaysFromCivilNext | src/interpreter.rs:150 | consecutive dates have consecutive day numbers |
| Calendar.Epoch | src/interpreter.rs:150 | day 0 is 1970-01-01 |
| Calendar.LeapYearCycle | src/interpreter.rs:150 | the leap-year rule repeats every 400 years |
| Calendar.MarchYearCycle | src/interpreter.rs:150 | 400 years always span 146097 days |
| Calendar.FourCenturies | src/interpreter.rs:150 | a date 400 years on is valid and exactly 146097 days later |
| Calendar.WeekdayIndex | src/unified.rs:155-157 | the weekday index of a day is in 0..6 |
| Calendar.WeekOf | src/interpreter.rs:112 | the Monday of a day's week plus `k` (k < 7) has index `k` and the same Monday |
| Calendar.WeekdaySteps | src/interpreter.rs:112 | a week later the index is the same; a day later it is the next index modulo 7 |
| Calendar.SameWeek | src/interpreter.rs:112 | two days with the same Monday are less than a week apart |
| Calendar.KnownWeekdays | src/interpreter.rs:352-354 | 1970-01-01 is a Thursday and 2020-07-12 (day 18455) a Sunday |
| Interpreter.FromLocalSeconds | src/interpreter.rs:88 | an instant built from a local second count has that count and the given offset |
| Interpreter.Plus | src/interpreter.rs:90 | adding a duration moves the point in time by exactly that many seconds and keeps the offset |
| Interpreter.ClockSeconds | src/interpreter.rs:88 | a clock time names a second of the day |
| Interpreter.AtTime | src/interpreter.rs:88 | `and_hms` on a local day gives a valid instant |
| Interpreter.PlusDays | src/interpreter.rs:90 | adding whole days keeps the clock time and moves the date by that many days |
| Interpreter.CheckHms | src/interpreter.rs:30-53 | succeeds exactly when the shifted hour is below 24 and minute and second below 60; PM adds 12, AM and none keep the hour; errors are `InvalidTimeAMPM` with a marker and `InvalidTime` without, carrying the unshifted hour |
| Interpreter.AmPmReadings | src/interpreter.rs:32-35 | AM and no marker accept the same times alike; a PM time is accepted only when its AM reading is, and lies twelve hours after it |
| Interpreter.CheckHmsExamples | src/interpreter.rs:339-347 | the library's own `check_hms` cases, and 12 pm is rejected |
| Interpreter.EvaluateTime | src/interpreter.rs:86-94 | an invalid time gives the `check_hms` error; otherwise the clock time on now's date, or with the flag on the next date when it is already past, so never before now |
| Interpreter.UnitSeconds | src/interpreter.rs:95-100 | a unit is a positive whole number of minutes |
| Interpreter.EvaluateRelative | src/interpreter.rs:95-101 | "n units ago" is exactly n units before now |
| Interpreter.EvaluateRelativeFuture | src/interpreter.rs:102-108 | "in n units" is exactly n units after now |
| Interpreter.RelativeSymmetric | src/interpreter.rs:95-108 | the two lie on either side of now, equally far; strictly for n > 0 |
| Interpreter.RelativeDays | src/interpreter.rs:98-100 | whole-day units keep the clock time and move the date by the same number of days either way |
| Interpreter.DayAtClock | src/interpreter.rs:110-111 | a given time is checked by `check_hms` with the clue's am/pm; an absent time always passes the check and is midnight, or noon (12:00:00) when the clue says "pm" |
| Interpreter.EvaluateRelativeDayAt | src/interpreter.rs:109-133 | an invalid time gives its error; the result falls on the requested weekday; `Last` is 1 to 7 days before now's date and in now's week exactly when the weekday is earlier than today's; `Next` is 1 to 7 days after and in now's week exactly when it is later |
| Interpreter.EvaluateSameWeekDayAt | src/interpreter.rs:134-139 | an invalid time gives its error; the result falls on the weekday, in now's Monday-based week |
| Interpreter.ShortcutOffset | src/interpreter.rs:143-147 | the shortcut offsets are −1, 0 and +1, and 0 only for today |
| Interpreter.EvaluateShortcutDayAt | src/interpreter.rs:140-148 | an invalid time gives its error; the result is on now's date plus the shortcut's offset, at the checked time |
| Interpreter.EvaluateIso | src/interpreter.rs:149-162 | succeeds exactly when the fields form a valid date in the backend's range and a valid clock time; the result is that UTC date-time in now's offset; otherwise `ChronoISOError` carrying all six fields |
| Interpreter.IsoAtUtc | src/interpreter.rs:150-152 | with now at UTC, the result's date and clock are the fields themselves |
| Interpreter.IsoNextDate | src/interpreter.rs:150-152 | the same clock time on the next date is exactly one day later |
| Interpreter.EvaluateTimeClue | src/interpreter.rs:79-164 | every result keeps now's offset, and `Now` gives now unchanged |
| Interpreter.FlagOnlyForTimes | src/interpreter.rs:72-94 | the roll-to-next-day flag changes nothing for clues other than a bare time |
| Interpreter.Evaluate | src/interpreter.rs:57-62 | `evaluate` is the evaluator with the flag off: a bare time stays on now's date |
| Interpreter.ExampleNow | src/interpreter.rs:352-354 | the reference instant 2020-07-12T12:45:00 UTC is a Sunday |
| Interpreter.NextWeekdayExample | src/interpreter.rs:351-366 | next Friday from Sunday 2020-07-12 is 2020-07-17T00:00:00 |
| Interpreter.AssumeNextDayExample | src/interpreter.rs:396-416 | 8:00 is 2020-07-12T08:00 with the flag off and 2020-07-13T08:00 with it on |
| Interpreter.InvalidIsoExample | src/interpreter.rs:149-162 | the 30th of February is a `ChronoISOError` |
| Interpreter.AsI64 | src/interpreter.rs:96 | `n as i64` on a 64-bit `usize` is `n` or `n − 2^64`, always in the `i64` range |
| Interpreter.EvaluateRelativeAsWritten | src/interpreter.rs:96-100 | "n units ago" with the cast as written moves back by `(n as i64)` units |
| Interpreter.RelativeAsWrittenAgrees | src/interpreter.rs:96-100 | below 2^63 the cast changes nothing |
| Interpreter.RelativeAsWrittenGoesForward | src/interpreter.rs:96 | "18446744073709551615 min ago" as written is one minute after now |
| Interpreter.CheckHmsAsWritten | src/interpreter.rs:30-53 | `check_hms` with `h + 12` wrapping on `u32`: a success is a clock time whose PM hour is `(h + 12) mod 2^32` |
| Interpreter.CheckHmsAsWrittenAgrees | src/interpreter.rs:30-53 | for hours that do not wrap, it agrees with the intended check |
| Interpreter.CheckHmsAsWrittenWraps | src/interpreter.rs:34 | hour 4294967295 with PM is accepted as 11:00:00 as written, and rejected by the intended check |

## Left out

- The grammar and tokenizer (`TimeParser`, the grammar file, `parse_time_clue_from_str`). The grammar file is not part of this model. The input is the flattened `(Rule, text)` sequence, and rules the builder never looks at collapse into `Other`. Whitespace and case handling happen in the grammar, so they are not modelled. The example phrases are modelled by the sequences they are assumed to flatten to.
- `ParseError::PestError` is omitted: it only arises in the tokenizer. `ParseError::ParseInt` does not keep the kind of integer error.
- Display and error-message formatting of `ParseError` and `EvaluationError`: these are strings for humans.
- The second `weekday_from` (`src/parser.rs:54`) and the `time`-feature evaluator (`src/interpreter.rs:166-326`), which serve the other date backend; only the `chrono` branch is modelled. The `time` branch differs in its ISO arm: it parses the fields with the format description `"YYYY-mm-dd HH:MM:SS"` (`src/interpreter.rs:309`), which is plain text rather than the bracketed component syntax its tests use (`src/interpreter.rs:373`, `423`), and it then keeps the fields as written and attaches now's offset with `replace_offset` (`src/interpreter.rs:323`), instead of converting from UTC as the `chrono` branch does.
- Time zones:
  - Now's zone is a fixed UTC offset, and every result keeps it.
  - Daylight-saving transitions and ambiguous or missing local times in `and_hms` are not modelled.
  - An ISO clue is read as a UTC date-time and then shown in now's zone (`with_timezone`, `src/interpreter.rs:152`).
- Range limits of chrono's `Duration` and `DateTime`: the panics of `Duration::minutes` and friends on huge counts, and results beyond the backend's year range. The `30 * n` multiplication on `i64` (`src/interpreter.rs:100`, `107`) is also taken as unbounded.
- Interpreter.EvaluateRelative: does not model the `n as i64` wrap-around (see Findings). `EvaluateRelativeAsWritten` does.
- Interpreter.CheckHms: does not model the `h + 12` wrap-around of a release build, nor the overflow panic of a debug build (see Findings). `CheckHmsAsWritten` does.
- Interpreter.EvaluateTimeClue: its own contract states only the offset and `Now`. Each family's result is stated by the function it calls (`EvaluateTime`, `EvaluateRelative`, …).
- `src/unified.rs` (the wrapper over the two date libraries) is not part of this model. Only its Monday-based weekday index is kept, as `WeekdayIndex` and `Weekday.Index`.
- `src/lib.rs` and the command-line example: glue and printing. The evaluator's configuration is the `assume_next_day` flag.
- Parser.MatchHms: the six slice patterns of `parse_time_hms` are written as one left-to-right scan. `MatchHmsShape`, `MatchHmsTokens` and `MatchHmsBinds` prove that the scan accepts exactly those six shapes and binds the same texts.

## Findings

| source | as written | input that shows it | evidently intended | confidence | as-written member | corrected member |
|---|---|---|---|---|---|---|
| src/interpreter.rs:96-107 | `n as i64` reinterprets a `usize` of 2^63 or more as a negative count | "18446744073709551615 min ago", a count the `usize` parse accepts, gives one minute after now | "n units ago" should lie n units before now, never after it (or a count that does not fit `i64` be rejected) | not executed | Interpreter.RelativeAsWrittenGoesForward | Interpreter.RelativeSymmetric |
| src/interpreter.rs:34 | `h + 12` on `u32` wraps in a release build and panics in a debug build | `Time((4294967295, 0, 0), Some(PM))` passes `check_hms` as 11:00:00 | an hour of 12 or more with PM should be `InvalidTimeAMPM` | not executed | Interpreter.CheckHmsAsWrittenWraps | Interpreter.AmPmReadings |
