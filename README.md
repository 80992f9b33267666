# Outage-notice parser

The core of a pipeline that turns free-text Finnish power-outage notices
("Keskiviikkona 4.6. klo 10-12 Kaivinkoneella katkaistu kaapeli Iisalmessa")
into structured records. This model covers four Python files.

- **Main extractor** (`processors/json_processor.py`).
  - `filter_prefix_keywords` picks the keyword tags.
  - `process_data` runs one case-insensitive regular expression over a notice. It keeps the weekday, day, month, optional year, optional start and end times and the message.
  - It infers a missing year from the year and month remembered from earlier notices.
  - It finds the canonical city the notice names.
  - `raw_processor` folds `process_data` over a batch and threads the remembered year and month.
- **Older extractor** (`processors/json_day_processor.py`).
  - `find_weekday` uses a looser pattern: only the weekday is required.
  - It keeps two module-level variables: the remembered year and a ledger of rejected notices.
- **Driver** (`processors/raw_json_processor.py`). `raw_processor1` runs `find_weekday` over a batch.
- **Completeness filter** (`processors/json_interim_processor.py`). `filter_data` drops records that miss a required field.

## How the model is built

**Regular expressions as scanners.** Each regular expression is a hand-written left-to-right scanner.
- Greedy repetitions are `Span`s. Optional groups are tried before they are skipped, and alternations are tried in the order they are written.
- Both patterns end in an always-successful `(.*)`. So a match exists at a position exactly when the mandatory part matches there, and each optional part is then taken the first way it can be.
- `re.search` is the leftmost such position.
- Each scanner is proved equal to an independent reading of the pattern:
  - `AnchorAt`, `NameAt` and `KeywordPatternMatches` are existentially quantified reference predicates.
  - `Words` is a reference tokenizer, and `Filter` a reference filter.
- What the groups capture is pinned down by reference readings, predicates that state Python's greedy choices position by position:
  - `GreedyDate`: the day is the digits before the dot, the month stops at two digits or where the digits end, and the year is taken exactly when a dot and four digits follow.
  - `GreedyClock`: the hour stops at two digits or where the digits end, and the minutes are taken exactly when a separator and two digits follow.
  - `GroupsAt` and `DayGroupsAt`: these readings put together for the whole pattern, down to the message.
  - Each scanner's result satisfies its reading. Uniqueness lemmas (`GreedyDateUnique`, `GreedyClockUnique`, `GroupsAtUnique`, `DayGroupsUnique`) show that a reading admits only one set of groups, so it determines the captures.

**Pure code and state.** Each stateful operation is modelled twice: a pure function is its specification, and an imperative method in the source's own form is proved equal to it.
- The pure parts of `process_data` are functions over a `State` value (`last_valid_year`, `int(last_valid_month)`). The function `ProcessEntry` specifies the method `ProcessData`.
- The nested city loops are the method `MatchLocation`, with the inner loop as `AnyTokenAgrees`.
- `raw_processor` is the method `RawProcessor`, proved equal to the left fold `Run`.
- The two globals of `find_weekday` are the fields of the class `WeekdayFinder`. Its method `FindWeekday` is proved equal to the function `FindWeekdayResult`. Its ledger update is stated outright.
- `raw_processor1` is the method `RawProcessor1`. It is proved equal to the fold `DayRun` over a `WeekdayFinder`.
- `filter_data` is the method `FilterData`, a loop with an `is_complete` flag and a `break`. It is proved equal to the function `Kept`.

**Year rollover.** For an undated notice, the year before the remembered one is used only when the notice's month is *greater* than the remembered month (`processors/json_processor.py:66-68`).
- Months 11 (with year 2024) then an undated 3 stay in 2024: `JsonProcessor.NovemberThenMarchStays`.
- Months 3 (with year 2024) then an undated 11 roll back to 2023: `JsonProcessor.MarchThenNovemberRollsBack`.

**Where the code's comments and behaviour disagree, the model follows the code.**
- **`filter_data` docstring.** The docstring names the default required fields as `location`, `keywords_only`, `time_end`. The code uses `location`, `tags`, `time_start`, `time_end` (`processors/json_interim_processor.py:14-16`).
- **`filter_data` comment.** The comment beside the check says inferred-year strings count as missing. The code only compares with `'Unknown'`, so they do not: `InterimProcessor.EmptyAndNotedYearsAreValues`.
- **`find_weekday` records.** These have no `location` key. So the default filter drops every one of them: `InterimProcessor.DayEntryDropped`.

## Model

| member | source | states |
|---|---|---|
| Keywords.FilterPrefixKeywords | processors/json_processor.py:14-25 | the tags are, in text order and with duplicates, exactly the maximal word-character runs of the text that begin, ignoring case, with one of the twelve stems; each tag is a non-empty word |
| Keywords.KeywordPatternIsWholeKeyword | processors/json_processor.py:23-25 | the pattern `\b((?:stems)\w*)\b` matches `s[i..e]` if and only if a word starts at `i`, ends at `e` and begins with a stem, so every match is a whole word |
| Keywords.FilterPrefixKeywordsExample | processors/json_processor.py:18-25 | "huoltotyön vuoksi sähkökatko" gives the tags "huoltotyön" and "sähkökatko" |
| Text.FindWordsIsFilteredWords | processors/json_processor.py:25 | a `findall` whose pattern matches exactly the whole words satisfying a test returns the words satisfying it, in order |
| Text.Strip | processors/json_processor.py:56 | the result is the text from its first non-space on with only whitespace after it; it is empty if and only if the text is all whitespace, and otherwise neither starts nor ends with whitespace |
| Text.LineFrom | processors/json_processor.py:44 | `(.*)` captures the text up to the first newline or the end |
| Text.Split | processors/json_day_processor.py:33-36 | `str.split` on one character gives at least one part, no part holds the separator, and the parts joined with it give the text back |
| Text.SplitJoin | processors/json_day_processor.py:33-36 | splitting parts that hold no separator, once joined with it, gives exactly those parts back |
| Tokens.WeekdayAt | processors/json_processor.py:34 | the weekday alternation matches at a position if and only if some name does, and then with that name's length; no two names match at the same place |
| Tokens.WeekdayTextIsName | processors/json_processor.py:34 | the text the weekday alternation matched is one of the seven names once lower-cased |
| Tokens.DateAt | processors/json_processor.py:35 | the date matches if and only if `\d{1,2}\.\d` follows; it then captures the greedy reading `GreedyDate`: the day is the one or two digits before the dot, the month two digits when a second one follows and one otherwise, and the year is captured exactly when a dot and four digits follow the month, and is those four digits |
| Tokens.GreedyDateUnique | processors/json_processor.py:35 | at most one date reading fits a position, so `GreedyDate` determines the day, month and year captured |
| Tokens.GreedyDateLengths | processors/json_processor.py:35 | the day is one digit exactly when a dot follows its first digit, and the month two digits exactly when a digit follows its first |
| Tokens.GreedyDateText | processors/json_day_processor.py:15 | the text a date covers is its day, month and year joined by dots, which is what the single date group of `find_weekday` captures |
| Tokens.ClockAt | processors/json_processor.py:40-42 | a clock time matches if and only if a digit follows; it takes two hour digits when there are two, then minutes exactly when `.` or `:` and two digits follow the hour (`GreedyClock`), and has the shape `\d{1,2}(?:[.:]\d{2})?` |
| Tokens.GreedyClockUnique | processors/json_processor.py:40-42 | at most one clock reading fits a position |
| MainPattern.TimeBlockAt | processors/json_processor.py:37-43 | the optional time block is taken if and only if `kello` or `klo` follows the whitespace; its start is the clock time read after the marker and its whitespace (absent when no digit is there), its end the one read after the run of dashes that follows, and it stops after the end |
| MainPattern.MatchAt | processors/json_processor.py:31-57 | the groups of a match at a weekday are the reference reading `GroupsAt`: the weekday as written there, the greedy date after the whitespace, the times read after a marker past `\s*\.?`, and the rest of the line after the following whitespace as the message; each group has the shape it allows |
| MainPattern.GroupsAtUnique | processors/json_processor.py:31-44 | at most one set of groups fits the reading `GroupsAt` at a position |
| MainPattern.MandatoryIffAnchor | processors/json_processor.py:34-35 | the scanner's mandatory test agrees with the reference reading: a weekday name, any whitespace, then `d.m` |
| MainPattern.Locate | processors/json_processor.py:47 | the search finds nothing if and only if no position starts the mandatory part, and otherwise the leftmost position that does |
| MainPattern.Search | processors/json_processor.py:31-49 | there is a match if and only if some position starts the mandatory part; its groups are the reading `GroupsAt` at the leftmost such position |
| JsonProcessor.ResolveYear | processors/json_processor.py:59-73 | a captured year is reported as it is and becomes the remembered year, with the notice's month; without one the state is left as it was |
| JsonProcessor.MissingYear | processors/json_processor.py:64-73 | without a captured year: the year before the remembered one with the note when the month is greater than the remembered month, else the remembered year with the note, and the bare "2025" when no year was ever seen |
| JsonProcessor.ReportedYearShape | processors/json_processor.py:59-73 | a reported year is the captured year, or ends with the inferred-year note, or is the bare default |
| JsonProcessor.NovemberThenMarchStays | processors/json_processor.py:59-71 | November 2024 followed by an undated March reports 2024 with the note |
| JsonProcessor.MarchThenNovemberRollsBack | processors/json_processor.py:59-68 | March 2024 followed by an undated November reports 2023 with the note |
| JsonProcessor.ProcessEntry | processors/json_processor.py:27-107 | no record, and the state unchanged, if and only if no position starts the mandatory part; a record has a weekday name, one- or two-digit day and month, clock times or "Unknown" for the end, keyword tags, and the location of the whole notice |
| JsonProcessor.ExplicitYearIsRemembered | processors/json_processor.py:59-63 | with a captured year, the record's year is that year and the state becomes that year with the notice's month |
| JsonProcessor.MissingYearKeepsState | processors/json_processor.py:64-73 | without a captured year (or without a match) the state is left as it was |
| JsonProcessor.RecordFields | processors/json_processor.py:49-57 | the record's fields are the groups: an absent start time stays absent, an absent end time becomes "Unknown" (and only then), the tags come from the stripped message |
| JsonProcessor.ProcessEntryKeepsStateValid | processors/json_processor.py:59-63 | the remembered year stays a digit string that `int()` accepts |
| JsonProcessor.ProcessData | processors/json_processor.py:27-107 | the method returns exactly the record and state of `ProcessEntry` |
| JsonProcessor.Run | processors/json_processor.py:111-120 | the state after a batch stays valid |
| JsonProcessor.RunLength | processors/json_processor.py:111-120 | a batch yields at most one record per notice |
| JsonProcessor.RunAppend | processors/json_processor.py:111-120 | processing two batches one after the other, threading the state, is processing their concatenation |
| JsonProcessor.UnmatchedContributesNothing | processors/json_processor.py:115-118 | a notice without a match adds no record and leaves the state alone |
| JsonProcessor.RunRemembersLastYear | processors/json_processor.py:111-120 | the remembered year after a batch is that of the last notice that captured one, or the one before the batch |
| JsonProcessor.RunRecordsWellFormed | processors/json_processor.py:111-120 | every record of a batch is a well-formed record of one of its notices |
| JsonProcessor.RunEmpty | processors/json_processor.py:111-120 | an empty batch gives no records and leaves the state alone |
| JsonProcessor.RawProcessor | processors/json_processor.py:111-120 | the loop returns exactly the records of the fold `Run` over the batch, in order |
| ProcessDataExample.WorkedExample | processors/json_processor.py:27-107 | the notice "Keskiviikkona 4.6. klo 10-12 Kaivinkoneella katkaistu kaapeli Iisalmessa", read with the canonical cities after a notice from June 2025, gives weekday "Keskiviikkona", day 4, month 6, the year 2025 with the inferred-year note, 10 to 12, the single tag "Kaivinkoneella" and the location Iisalmi, and keeps the state |
| ProcessDataExample.NoticeSearch | processors/json_processor.py:31-49 | the search matches at the start of that notice and captures the weekday, day 4, month 6, no year, 10, 12 and the message |
| ProcessDataExample.MessageTags | processors/json_processor.py:14-25 | of the message's four words only "Kaivinkoneella" begins with a keyword stem |
| ProcessDataExample.NoticeLocation | processors/json_processor.py:75-91 | Iisalmi is the only canonical city whose first five letters begin one of the lower-cased notice's words of three or more letters, so it is the location |
| Cities.SortIsDescending | processors/json_processor.py:79 | the sorted cities are in non-increasing order of length |
| Cities.SortIsStable | processors/json_processor.py:79 | for every length, the sorted list holds the cities of that length in their original order |
| Cities.SortIsPermutation | processors/json_processor.py:79 | the sort is a permutation of the city list |
| Cities.SortKeepsCities | processors/json_processor.py:79 | a city is in the sorted list if and only if it is in the input |
| Cities.EmptyCitiesLast | processors/json_processor.py:79 | after an empty city name in the sorted list, every name is empty |
| Cities.TokenPatternIsWholeToken | processors/json_processor.py:78 | `\b[a-zåäö]{3,}\b` matches exactly the whole words of three or more letters of the class |
| Cities.EntryWords | processors/json_processor.py:77-78 | the tokens are the words of the lower-cased notice that consist of three or more letters of the class, in order |
| Cities.CityMatchesWordIff | processors/json_processor.py:84-87 | a token agrees with a city if and only if it is at least `min(5, len(city))` long and starts with that many characters of the lower-cased city |
| Cities.FirstMatch | processors/json_processor.py:82-93 | nothing is found if and only if no city agrees with any token; what is found is a city that agrees with one |
| Cities.FirstMatchIndexSome | processors/json_processor.py:82-93 | the index found is that of the first city that agrees with a token |
| Cities.FirstMatchIndexNone | processors/json_processor.py:82-93 | no index is found if and only if no city agrees with a token |
| Cities.LocationIsCity | processors/json_processor.py:75-93 | the location is absent if and only if no city agrees with a token of the whole notice; otherwise it is one of the given cities and agrees with a token |
| Cities.LocationIsFirst | processors/json_processor.py:79-93 | the location is the first city in longest-first order that agrees with a token |
| Cities.AnyTokenAgrees | processors/json_processor.py:85-91 | the inner loop finds an agreeing token if and only if one exists |
| Cities.MatchLocation | processors/json_processor.py:75-93 | the nested loops with their `break`s, and with an empty city name treated as falsy, return exactly `Location` |
| DayProcessor.EndPartAt | processors/json_day_processor.py:15 | the optional end part captures a time exactly when a dash run follows the whitespace and a digit the whitespace after it; the time is then the greedy clock read there and the match stops after it, otherwise nothing is consumed |
| DayProcessor.ClockAfter | processors/json_day_processor.py:15 | after a time marker a start time is captured if and only if a digit follows the whitespace; it is the greedy clock read there, and the end part is read right where it stops |
| DayProcessor.DayTimeAt | processors/json_day_processor.py:15 | the time part is taken if and only if one of the markers, tried in the order `kello`, `klo`, `klo.`, is followed by whitespace and a digit; its times are the readings after that marker, and each is a clock time |
| DayProcessor.AfterWeekday | processors/json_day_processor.py:15 | after the weekday the date is captured if and only if `\d{1,2}\.\d` follows the whitespace, and is then the greedy date; times are read only after a date and the message is the rest of the line after the last part read (`DayGroupsAfter`); an end time needs a start time |
| DayProcessor.DayMatchAt | processors/json_day_processor.py:15-22 | the groups of a match at a weekday are the reference reading `DayGroupsAt`: the weekday as written there, then the date, times and message read after it; each group has the shape it allows |
| DayProcessor.DayGroupsUnique | processors/json_day_processor.py:15 | at most one set of groups fits the reading `DayGroupsAt` at a position |
| DayProcessor.NameIffWeekday | processors/json_day_processor.py:15 | the scanner's weekday alternation matches exactly where the reference reading finds a name |
| DayProcessor.LocateWeekday | processors/json_day_processor.py:15-17 | the search finds nothing if and only if no weekday name occurs, and otherwise the leftmost one |
| DayProcessor.DaySearch | processors/json_day_processor.py:15-19 | there is a match if and only if a weekday name occurs; its groups are the reading `DayGroupsAt` at the leftmost name |
| DayProcessor.FindWeekdayResult | processors/json_day_processor.py:6-53 | no record if and only if the notice holds no weekday name, and then the year is unchanged |
| DayProcessor.MessageField | processors/json_day_processor.py:28-30 | an empty message group gives "Unknown"; otherwise the message is the group with exactly its leading run of dots and spaces removed |
| DayProcessor.DateSplit | processors/json_day_processor.py:33-36 | a captured date splits on its dots into exactly its day, month and, when captured, year |
| DayProcessor.DateAndYear | processors/json_day_processor.py:32-42 | a three-part date is kept and its year remembered; a two-part date gets the remembered year and the note (left unsuffixed only if that year were empty); no date gives "Unknown" and keeps the year |
| DayProcessor.TimesNeedDate | processors/json_day_processor.py:15-26 | a reported end time needs a reported start time, and a start time needs a date; reported times are clock times |
| DayProcessor.WeekdayIsFirstName | processors/json_day_processor.py:15-21 | the weekday reported is the first weekday name of the notice, as spelled there |
| DayProcessor.WeekdayIsName | processors/json_day_processor.py:15-21 | the weekday reported is one of the seven names, as written but for case |
| DayProcessor.YearStaysFourDigits | processors/json_day_processor.py:33-36 | a remembered year of four digits stays one, so the `last_valid_year` test never fails |
| DayProcessor.WeekdayFinder.constructor | processors/json_day_processor.py:3-4 | the state starts as the year 2025 and an empty ledger |
| DayProcessor.WeekdayFinder.UpdateDate | processors/json_day_processor.py:32-42 | the date handling sets the date field and the remembered year as `DateField` says, and leaves the ledger alone |
| DayProcessor.WeekdayFinder.FindWeekday | processors/json_day_processor.py:6-53 | the record and the new year are those of `FindWeekdayResult`; the notice is appended to the ledger if and only if there is no record |
| RawJsonProcessor.DayRunCounts | processors/raw_json_processor.py:7-10 | records plus rejected notices number exactly the notices of the batch |
| RawJsonProcessor.DayRunRejectsUnmatched | processors/raw_json_processor.py:7-10 | the notices rejected during a batch are, in order, exactly those without a weekday name, whatever the year |
| RawJsonProcessor.UnmatchedMembers | processors/raw_json_processor.py:7-10 | a notice is rejected if and only if it is in the batch and holds no weekday name |
| RawJsonProcessor.UnmatchedIsRejected | processors/raw_json_processor.py:8-10 | a notice without a weekday name adds no record, keeps the year and goes to the ledger |
| RawJsonProcessor.DayRunRemembersLastYear | processors/raw_json_processor.py:7-8 | the year after a batch is that of its last notice with a three-part date, or the one before the batch |
| RawJsonProcessor.TwoPartDateGetsLastYear | processors/raw_json_processor.py:7-8 | a two-part date gets the year of the most recent earlier three-part date in the batch, or the year before the batch, with the note |
| RawJsonProcessor.DayRunKeepsYearValid | processors/raw_json_processor.py:7-10 | a four-digit year stays four digits through a batch |
| RawJsonProcessor.DayRunEmpty | processors/raw_json_processor.py:7-12 | an empty batch gives no records, keeps the year and rejects nothing |
| RawJsonProcessor.RawProcessor1 | processors/raw_json_processor.py:3-12 | the loop returns the records of the fold `DayRun`, in order; the finder's year is the fold's and its ledger is the old ledger followed by the notices the fold rejects |
| InterimProcessor.FilterData | processors/json_interim_processor.py:1-41 | the loop with its `is_complete` flag and `break` returns exactly `Kept` of the data, with the defaults when no fields are given |
| InterimProcessor.KeptMembers | processors/json_interim_processor.py:20-39 | a record is kept if and only if it is in the data and every required field holds a value (present, not None, not "Unknown", not an empty list) |
| InterimProcessor.KeptIsSubsequence | processors/json_interim_processor.py:20-39 | the output is the input with some records removed, the rest unchanged and in order |
| InterimProcessor.KeptAppend | processors/json_interim_processor.py:20-39 | filtering two lists one after the other is filtering their concatenation |
| InterimProcessor.KeptAllComplete | processors/json_interim_processor.py:20-39 | a list of complete records passes unchanged |
| InterimProcessor.KeptIdempotent | processors/json_interim_processor.py:20-39 | filtering twice with the same fields is filtering once |
| InterimProcessor.NoFieldsKeepsAll | processors/json_interim_processor.py:23 | with no required fields every record is kept |
| InterimProcessor.NoLocationDropped | processors/json_interim_processor.py:14-16 | under the defaults a record whose location is absent or None is dropped |
| InterimProcessor.EmptyAndNotedYearsAreValues | processors/json_interim_processor.py:26-32 | an empty string and a year carrying the inferred-year note are values, not missing |
| InterimProcessor.OutageEntryComplete | processors/json_interim_processor.py:14-36 | a `process_data` record passes the defaults if and only if it has a location, a start time, an end time other than "Unknown" and at least one tag |
| InterimProcessor.DayEntryDropped | processors/json_interim_processor.py:14-36 | a `find_weekday` record has no location key, so the defaults drop it |

## Left out

- File and JSON input and output (`save_to_interim_json`), the diagnostic `print` calls and the empty `extract_all` stub: they do not affect the records.
- Character classes are exact for every character up to U+00FF (ASCII and Latin-1, which covers Finnish) and for all whitespace. Above U+00FF:
  - every character is a non-digit, non-word character;
  - `lower()` leaves it unchanged;
  - `re.IGNORECASE` matches it only against itself.
  So full Unicode case folding is not modelled, such as the Kelvin sign matching `k`.
- The non-capturing `(?:tänään\s+)?` before the weekday in `process_data`'s pattern is not scanned. It can only move where a match starts, never what the groups capture, because no weekday name begins inside it.
- `int()` is modelled on digit strings only.
  - JsonProcessor.ProcessEntry: requires the remembered year to be a digit string (`ValidState`). A caller passing `raw_processor` a year `int()` rejects would get a `ValueError` on an undated notice whose month exceeds the remembered month, which is not modelled. The parser itself only ever stores four captured digits.
  - JsonProcessor.ResolveYear: requires the same of the remembered year, and a digit-string month (which the pattern guarantees).
- DayProcessor.WeekdayFinder.FindWeekday: requires the remembered year to be four digits (`Valid`). The source starts it at 2025 and only ever stores a captured four-digit year, so this is an invariant the class keeps (`YearStaysFourDigits`), not a restriction on callers.
- The `try`/`except IndexError` around the city comparison: slicing a string never raises, so the handler is dead code.
- The module-level `last_valid_year` starts as the integer 2025 and later holds strings. It is modelled as the string "2025", which is what the f-string formats it as.
- Day and month are not range-checked by the source, and are not checked by the model either.
