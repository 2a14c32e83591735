# get-logs: glob synthesis and file ordering, in Dafny

get-logs finds rotated log files whose names carry a date. The caller gives a
time window ("3D", "2 W", "1Y"), a file-name template holding a `{date}`
placeholder and a date format. The `GetLogs` class turns the window into a
glob pattern. To do so it walks back from now one calendar day at a time and
collects the hours, days of month, months and years it meets. Each set
becomes a brace alternation such as `{01,02,03}`. The alternations are put in
the order the date format writes its components, joined with `-` and
substituted into the template. The files the glob matches are sorted
ascending, then reversed when the requested order is "DESC". When nothing
matches, `get` returns an inert response whose `read()` gives back that same
response.

The model is split into modules that follow the steps of `#make_glob_pattern`,
`list` and `get`:

- `Text` (text.dfy): the JavaScript string operations the core uses.
  - `toString` of integers and `Number()` on the numerals the core produces.
  - `padStart` and `join`.
  - `IndexOf` and `Split` are not used by the code. They define how a pattern is read back, for the round-trip lemmas; `Fragment.ParseItems` and `Fragment.ParseFragment` play the same role.
- `DurationParse` (duration.dfy): the regular expression `([0-9]+)\s*([A-Z])`, matched leftmost and greedily, and the unit table.
- `Calendar` (calendar.dfy): dates as `toObject()` reports them.
  - A Gregorian "same time one day earlier" step.
  - The strict `isAfter` order.
- `Walk` (walk.dfy): the pre-tested `while` loop that collects the four sets. It is an imperative method, proved against the function `Window`.
- `Fragment` (fragment.dfy): `#format_set` and the alternation `{...}`. It proves that any numeric sort of the padded texts gives the same sequence, and that an alternation reads back as its set.
- `Pattern` (pattern.dfy): the rest of the assembly.
  - The rendering loop over the pattern table.
  - The filter over the component order.
  - The join with `-`.
  - The first case-insensitive `{date}` replacement.
- `FileOrder` (file_order.dfy): `sort()` and `reverse()` on the glob result.
- `Sequences` (sequences.dfy): a shared fact about permutations, used by the two sorts: the numeric sort in `Fragment.SortedPermutationUnique` and the string sort in `FileOrder.AscendingUnique`.
- `GetLogsApi` (get_logs.dfy): the class `GetLogs`.
  - The fields `globPattern`, `files` and `readOpts`, which its methods update in place.
  - The empty response of `get`.

The clock, the "count units ago" computation of dayjs and the filesystem glob
are parameters of the methods: `now`, `sinceOf` and `glob`. The component order
that the `date-order` library derives from the date format is a constant of
the object, given when it is built.

Behaviour of the code worth knowing:

- **The walk's loop is tested before its body** (index.js:88). When `now` is not strictly after `since`, no day is visited and all four sets stay empty, so each alternation is `{}`. `Walk.TodayOnlyWhenAfter` states this.
- **Years are padded to width 2 like the other components.** `#format_set` is called with its default width for every set (index.js:98). This makes no difference for years of two or more digits.
- **A count of 0 is accepted.** `"0D"` matches the regular expression at index.js:67.
- **The clock is read twice** (index.js:73 and 76). `since` is computed from the first read and the walk starts at the second. With the unit "day" and both reads on the same day, the walk visits n days when the reads are equal (`Walk.DayWindow`) and n + 1 days when the second is later (`Walk.DayWindowLaterClock`).
- **There is one way to assemble the pattern.** The joined text replaces the first `{date}` of `nameFormat`. When no template is given, the option defaults to `'*{date}*'` (lib/validate/list.js:30), which goes through the same `replace` and so wraps the date text in wildcards.

## Model

| member | source | states |
|---|---|---|
| DurationParse.UnitOf | index.js:56-71 | `H`, `W`, `M`, `Y` map to hour, week, month, year, each if and only if that letter is given; every other letter maps to day |
| DurationParse.FirstMatch | index.js:67 | returns the leftmost position at or after the start where the greedy digits-spaces-letter attempt succeeds, and no earlier position succeeds; None when none does |
| DurationParse.MatchIsGreedy | index.js:67 | every way the expression can match at a start is the greedy one: the digit run and the space run are maximal |
| DurationParse.RegexMatch | index.js:67 | no contract: a predicate stating when digits on [i, j), whitespace on [j, k) and an upper-case letter at k match; `MatchIsGreedy`, `ParseDurationFails` and `ParseDurationReadsLeftmost` relate the parse to it |
| DurationParse.DigitRunEnd | index.js:67 | the greedy `[0-9]+` ends at the first non-digit at or after the start, and everything before it is a digit |
| DurationParse.SpaceRunEnd | index.js:67 | the greedy `\s*` ends at the first non-space at or after its start, and everything before it is whitespace |
| DurationParse.MatchesAt | index.js:67 | no contract: the greedy attempt at one start; `MatchIsGreedy` shows that every match at that start is this one |
| DurationParse.ParseDuration | index.js:67-72 | a failed parse carries exactly the message "Wrong duration formatting" |
| DurationParse.ParseDurationFails | index.js:67-69 | parsing fails if and only if the expression matches nowhere in the string |
| DurationParse.ParseDurationReadsLeftmost | index.js:67-72 | a successful parse reads a real match with no match starting further left; at that start the match is unique, the count is the value of its digits and the unit is the table entry of its letter |
| Calendar.DaysInMonth | index.js:88 | every month has 28 to 31 days |
| Calendar.IsAfter | index.js:88 | no contract: the strict order of `isAfter`; `PrevDay`, `SubtractDaysDecreasing` and `IsAfterTransitive` state its properties |
| Calendar.IsAfterTransitive | index.js:88 | `isAfter` is transitive |
| Calendar.PrevDay | index.js:88 | one day back is strictly earlier, stays a valid date and keeps the time of day, and no valid date-time at that time of day lies strictly between it and the day it steps from, so no calendar day is skipped |
| Calendar.SubtractDays | index.js:88 | no contract: `now.subtract(k, 'days')` as k one-day steps; `SubtractDaysShift`, `SubtractDaysDecreasing`, `SubtractDaysValid` and `SubtractDaysSameDate` state its properties |
| Calendar.SubtractDaysSameDate | index.js:73-88 | two date-times on the same day stay on a common day after k steps back, each keeping its own time of day |
| Calendar.SubtractDaysShift | index.js:88 | stepping back k days from the previous day is stepping back k + 1 days from today |
| Calendar.SubtractDaysDecreasing | index.js:88 | a larger offset always gives a strictly earlier date-time |
| Calendar.SubtractDaysValid | index.js:88-89 | every offset gives a valid date with now's hour |
| Walk.Window | index.js:88 | no contract: the days the loop visits, newest first; `WindowOffsets`, `WindowCovers`, `TodayOnlyWhenAfter`, `DayWindow` and `DayWindowLaterClock` state what it holds |
| Walk.Components | index.js:79-95 | no contract: the four sets of the visited days; `CollectComponents` is proved equal to it and `ComponentRanges` bounds its values |
| Walk.CollectComponents | index.js:75-95 | the loop's four sets are the hours, days, 1-based months and years of the days of `Window(now, since)` |
| Walk.WindowOffsets | index.js:88 | the walk visits offsets 0, 1, 2, ... in order, each strictly after since, and stops at the first offset that is not |
| Walk.TodayOnlyWhenAfter | index.js:88 | today's values are collected when now is strictly after since; otherwise all four sets are empty |
| Walk.WindowCovers | index.js:88-94 | the walk misses no day: every valid date-time at now's time of day, not after now and strictly after since, is one of the visited days |
| Walk.DayWindow | index.js:88 | with since exactly n days before now (both clock reads at the same instant), the walk visits exactly n days |
| Walk.DayWindowLaterClock | index.js:73-88 | with since n days before the first clock read and now a later time on the same day, the walk visits n + 1 days |
| Walk.ComponentRanges | index.js:89-94 | every hour collected is now's hour, days lie in 1..31, months in 1..12, years between since's year and now's year |
| Text.NatToString | index.js:50 | the decimal text of n is non-empty, all digits, reads back as n and has no leading zero unless n is 0 |
| Text.PadStart | index.js:50 | the padded text has length max(len, original), ends with the original and is filled with the pad character before it |
| Text.IntToString | index.js:50 | no contract: `toString` of an integer; `PaddedValue` and `Fragment.PaddedChars` state what its padded text reads as and holds |
| Text.Join | index.js:98 | no contract: `join`; `SplitJoin` shows that splitting the join at a separator absent from the elements gives the elements back, and `JoinChars` bounds its characters |
| Text.SplitJoin | index.js:117 | joining texts that do not contain the separator and splitting at it gives the texts back |
| Text.JoinChars | index.js:98 | every character of a join comes from an element or from the separator |
| Text.NumberValue | index.js:25 | no contract: `Number()` as `numSort`'s `a - b` applies it, on an optional minus sign followed by digits; `Text.PaddedValue`, `Fragment.FormatSetReadsBack` and `Fragment.NumSortDetermined` state what it gives on the padded texts |
| Text.PaddedValue | index.js:50 | `Number()` on a value's padded text gives the value back, for any value when the width is at most 2 |
| Fragment.Least | index.js:51 | the least member of a non-empty set is in the set and below every member |
| Fragment.SortedValues | index.js:49-51 | the members of the set, strictly ascending, each exactly once |
| Fragment.Padded | index.js:50 | no contract: `v.toString().padStart(len, '0')`; `Text.PaddedValue` and `PaddedChars` state its properties |
| Fragment.FormatSet | index.js:48-52 | no contract: the padded texts in numeric order; `FormatSetItems`, `FormatSetCovers`, `FormatSetStrict` and `NumSortDetermined` state what `#format_set` yields |
| Fragment.FormatSetItems | index.js:48-52 | `#format_set` yields one text per member; each is that member's padded text and reads back as a member |
| Fragment.FormatSetCovers | index.js:48-52 | every member's padded text occurs in `#format_set` |
| Fragment.FormatSetStrict | index.js:48-52 | the texts are strictly ascending by numeric value, so there are no duplicates |
| Fragment.SortedPermutationUnique | index.js:51 | a numerically sorted permutation of a strictly sorted sequence is that sequence |
| Fragment.SortedByNumber | index.js:48-52 | no contract: the order `sort(numSort)` leaves, every text a numeral and numeric values non-decreasing; `Fragment.NumSortDetermined` shows the padded texts have exactly one such arrangement, `FormatSet(v, 2)` |
| Fragment.NumSortDetermined | index.js:48-52 | any arrangement of the padded texts that `sort(numSort)` can leave is `FormatSet(v, 2)`, whatever order the set yields its members in |
| Fragment.PaddedChars | index.js:50 | a padded text holds only digits and minus signs, and only digits for a non-negative value |
| Fragment.FormatSetReadsBack | index.js:98 | reading the texts of `#format_set(v)` as numbers gives back exactly v |
| Fragment.Alternation | index.js:98 | no contract: `'{' + #format_set(v).join(',') + '}'`; `FragmentRoundTrip` and `Pattern.FragmentChars` state its properties |
| Fragment.FragmentRoundTrip | index.js:97-99 | the alternation `{...}` of a set splits at commas into texts that read back as exactly that set |
| Pattern.ComponentsNamed | index.js:79-84 | the collected table has a set under each of hour, day, month and year |
| Pattern.FragmentsOf | index.js:97-99 | the rendered table has exactly the rendered names as keys, each mapped to the alternation of its set |
| Pattern.RenderPatterns | index.js:97-99 | the `for...in` loop leaves the table `FragmentsOf(sets, names)` |
| Pattern.OrderPatterns | index.js:105-112 | the loop over the component order leaves `SelectFragments(order, patterns)` in `orderedPat` |
| Pattern.SelectFragments | index.js:108-112 | no contract: the fragments pushed onto `orderedPat`; `SelectFragmentsKept` characterises them through `KeptIndices` |
| Pattern.KeptIndices | index.js:108-112 | the kept positions are strictly ascending and are exactly the positions whose name is a key of the table |
| Pattern.SelectFragmentsKept | index.js:108-112 | the pushed fragments are the table entries of the names at the kept positions, one each, in the order's relative order |
| Pattern.DateText | index.js:117 | no contract: `orderedPat.join('-')`; `DateTextIsLiteral` and `DateTextReadsBack` state its properties |
| Pattern.PlaceholderAt | index.js:115-116 | no contract: `/\{date\}/i` matches at a position, letters compared ASCII case-insensitively; `FirstPlaceholder`, `ReplaceDate` and `GlobPatternSubstitutes` are stated in terms of it |
| Pattern.FirstPlaceholder | index.js:115-118 | finds the leftmost case-insensitive `{date}`, or None when there is none |
| Pattern.ReplaceDate | index.js:115-118 | without a `{date}` the template is unchanged; otherwise only the leftmost one is replaced and every other character is kept |
| Pattern.FragmentChars | index.js:98 | an alternation holds only digits, braces, commas and minus signs, and no minus sign when no value is negative |
| Pattern.DateTextIsLiteral | index.js:115-118 | the joined date text holds no `$`, so `replace` inserts it literally |
| Pattern.DateTextReadsBack | index.js:105-117 | with no negative values, the joined text splits at `-` into one alternation per kept name, each reading back as that name's set |
| Pattern.GlobPattern | index.js:115-118 | no contract: `this.globPattern` for a template, an order and a walk; `GlobPatternSubstitutes` and `WalkTextReadsBack` state its properties |
| Pattern.GlobPatternSubstitutes | index.js:115-118 | the glob pattern is the template with its leftmost `{date}` replaced by the joined text of the walk's alternations |
| Pattern.WalkTextReadsBack | index.js:88-117 | for a valid now and a since in a non-negative year, each `-`-separated piece of the date text lists exactly the values the walk collected for its name |
| FileOrder.LessEq | index.js:143 | no contract: the string order of the default `sort()`; `LessEqTotal`, `LessEqAntisymmetric` and `LessEqTransitive` show it is a total order |
| FileOrder.LessEqTotal | index.js:143 | any two names are comparable |
| FileOrder.LessEqAntisymmetric | index.js:143 | names that are each at most the other are equal |
| FileOrder.LessEqTransitive | index.js:143 | the order is transitive |
| FileOrder.Insert | index.js:143 | inserting into an ascending sequence keeps it ascending and adds exactly the one name |
| FileOrder.SortAscending | index.js:143 | `sort()` gives an ascending permutation of the glob result |
| FileOrder.Reverse | index.js:146 | `reverse()` puts element i at position length - 1 - i |
| FileOrder.ReversePermutation | index.js:146 | reversing keeps the same names |
| FileOrder.ReverseAscending | index.js:145-146 | reversing an ascending sequence gives a descending one |
| FileOrder.AscendingUnique | index.js:143 | two ascending permutations of the same names are equal |
| FileOrder.SortIsDetermined | index.js:143 | every ascending permutation of the glob result is `SortAscending` of it |
| FileOrder.Ordered | index.js:143-147 | no contract: sort, then reverse for "DESC"; `OrderedSpec` and `OrderedIgnoresGlobOrder` state its properties |
| FileOrder.OrderedSpec | index.js:143-147 | `list` returns a permutation of the glob result; it is ascending unless the sort is "DESC", and then descending and exactly the reverse of the ascending result |
| FileOrder.OrderedIgnoresGlobOrder | index.js:136-147 | the order in which the glob yields the files does not change the result |
| GetLogsApi.Read | index.js:171 | `read()` on the empty response gives the empty response |
| GetLogsApi.EmptyResponse | index.js:161-169 | a constant: no current file, no selected files, file and line numbers 0 and no lines |
| GetLogsApi.ReadTimes | index.js:171 | no contract: n calls of `read()` in a row; `ReadKeepsEmpty` states that they leave the empty response unchanged |
| GetLogsApi.ReadKeepsEmpty | index.js:159-173 | after any number of `read()` calls the response is still the same one, with no current file, no selected files, file and line numbers 0 and no lines |
| GetLogsApi.ParserOrDefault | index.js:177-181 | the parser is the given one, or the identity when none is given |
| GetLogsApi.GetLogs.constructor | index.js:32-46 | the object keeps the logs directory and the component order and starts with no pattern, no files and no read options |
| GetLogsApi.GetLogs.MakeGlobPattern | index.js:54-119 | on an unparseable duration fails with "Wrong duration formatting" and changes nothing; otherwise sets `globPattern` to `GlobPattern` of the walk from now back to `sinceOf` of the parsed duration; `files` and `readOpts` are untouched |
| GetLogsApi.GetLogs.List | index.js:121-151 | on success sets `files` to the ordered result of globbing the new pattern in the logs directory and returns it; on failure returns the error with the fields unchanged |
| GetLogsApi.GetLogs.Get | index.js:153-190 | on an unparseable duration fails with "Wrong duration formatting" and changes no field; with no files returns the inert empty response and leaves `readOpts` alone; otherwise records the files, the line count and the (default) parser in `readOpts` and returns a reader on them |

## Left out

- Option validation (`lib/validate`) is not part of this model. Its effects appear only as inputs:
  - `Get` requires `lines >= 1`.
  - `duration` is taken as given (already upper-cased).
  - A template without `{date}` is left unchanged by `ReplaceDate`.
  - Any sort other than "DESC" is treated as ascending.
- The constructor's check that the logs directory exists is filesystem I/O and is not modelled. Before the first `list`, the fields start as `""` and `[]`, where the code leaves them undefined.
- The clock and dayjs are not modelled:
  - `dayjs().subtract(count, unit)` is the parameter `sinceOf`. This includes its own clock read, with its month-end clamping and its hour, week, month and year units. It is independent of the second read, which is the parameter `now`.
  - Time zones and daylight-saving shifts are not modelled; the calendar is the proleptic Gregorian one.
- `Walk.DayWindow`: "exactly n days" holds only when both clock reads return the same instant. When the second read is later on the same day the walk visits n + 1 days (`Walk.DayWindowLaterClock`). Reads on either side of midnight are not covered by a lemma.
- `Walk.ComponentRanges`: the hour set equals now's hour only because the model keeps the local time of day on each step. Across a daylight-saving change dayjs can shift it.
- The `tiny-glob` call is not modelled, since it is asynchronous filesystem access. Its result is the parameter `glob`, applied to the logs directory (the glob's working directory) and the pattern. Its options (absolute paths, files only) are left to that parameter.
- `GetLogsApi.GetLogs.List`: the glob call cannot fail in the model. In the code a rejected glob call propagates its error out of `list` and `get` after `globPattern` was already set (index.js:115, 136), and `files` keeps its old value.
- The `date-order` library is not modelled. Its result for the configured date format is the constant `dateOrder`.
- `GetLogsApi.GetLogs.constructor`: the object keeps a reference to the caller's options (index.js:45) and reads `dateFormat` and `logsDir` from it again on every call (index.js:105, 131). The model fixes both as constants, `dateOrder` and `logsDir`, when the object is built, so a caller changing its options object afterwards is not modelled.
- The `fireRead` streaming reader is not modelled. `get` returns a `Reader` session holding the read options it would be built on.
- `Get` does not write the default parser back into the caller's options object. It records the parser it would assign.
- `async`/`await`: the calls run in sequence.
- `FileOrder.LessEq` compares characters by code point. JavaScript's default `sort()` compares UTF-16 code units, and the two orders differ only for names mixing characters above U+FFFF with characters in U+E000..U+FFFF.
- `Pattern.ReplaceDate` does not interpret `$` patterns in the replacement. `Pattern.DateTextIsLiteral` proves that the replacement never contains `$`.
- `Pattern.OrderPatterns` tests keys of the table only. JavaScript's `in` also finds inherited names such as `constructor`, which a component order never contains.
- `Text.NumberValue` models `Number()` only on an optional minus sign followed by digits and gives `None` for every other text. JavaScript's `Number()` reads some other texts as numbers (`Number("")` is 0, `Number(" 7 ")` is 7, `Number("1e2")` is 100). Only padded numerals reach `numSort`, so the difference has no effect on the model.
- `DurationParse.ParseDuration`: the count is kept as an unbounded natural number. The code passes the digit string on to dayjs, which reads it as a floating-point number.
