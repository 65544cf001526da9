# Battery status: parsing and low-power-mode model

This project models the pure logic of the battery status command in Dafny.
That logic lives in `src/battery-status.tsx`.

The command reads three power-management reports:

- the battery report (`pmset -g batt`);
- the adapter report (`pmset -g ac`);
- the settings report (`pmset -g custom`).

From them it builds one `BatteryInfo` record. The record holds:

- the percentage token;
- the lower-cased charge status;
- the remaining-time token;
- the wattage;
- a display title and subtitle;
- the low-power-mode summary and its named setting.

Two more pieces are modelled:

- the table that turns a chosen low-power mode into the two values written for the battery context and the adapter context;
- the choice of icon and colour for the battery row.

The model takes the three reports as plain strings. Each regular expression of the source is modelled position by position:

- `MatchAt` gives the match that starts at one index, if any;
- `Search` gives the leftmost match;
- `AllMatches` gives what a global (`g`) match returns.

At any one start position each of these patterns can match in at most one way. The greedy runs never need to give back a character, and at most one status keyword fits at a position (`KeywordUnique`). So the leftmost-match search is the whole of the regex semantics used here.

Modules and files:

- `wrappers.dfy`: `Option` and `Result`.
- `text.dfy`: the character classes `[0-9]`, `\s` and `[0-9.]`; greedy runs (`RunEnd`); ASCII lower-casing; decimal reading and printing.
- `patterns.dfy`: the five patterns, the leftmost search and the global match.
- `tokens.dfy`: what each pattern matches, stated without the scanners, and the proof that the scanners find exactly that.
- `duration.dfy`: `formatRemainingTime` and its read-back inverse.
- `low_power.dfy`: the flags, the mode, the mode table and the read-back round trip.
- `battery.dfy`: the parse and the title and subtitle rules of `fetchBatteryInfo`.
- `status_details.dfy`: `getStatusDetails`.
- `scenarios.dfy`: three whole reports worked through the parser.

Some behaviours of the code that a reader might not expect, all kept in the model:

- The percentage is the whole match of `([0-9]+)%`, so it keeps its `%` (line 80). The title reads `"35% - discharging"`.
- `finishing charge` is a status of its own and is not turned into `charged`. It never shows a wattage (lines 86-88), and its subtitle is always empty (lines 103-109), even when a remaining time was formatted.
- A missing percentage and a missing status raise the same error (lines 76-78). The model has one error, `ParseFailed`.
- A battery that is not charged and has no time token gets an empty subtitle (lines 105-109). No half-filled text is shown.
- The status is the leftmost keyword, so a report of a paused charge, which says `not charging`, reads as `charging` (lines 70-72). It gets the charging icon and colour, the wattage in the title, and `… until fully charged` when a time token is present (`Scenarios.NotChargingScenario`).
- Each low-power flag is `includes('1')` on the whole matched text (lines 52 and 55), not a numeric comparison. The word `lowpowermode` has no `1` in it, so only the digits count, and a value such as `10` or `21` reads as on.

## Model

| member | source | states |
|---|---|---|
| `Text.RunEnd` | src/battery-status.tsx:69 | the greedy run of a character class from an index is maximal: every character in it is in the class and the next one is not |
| `Text.NatToDecimal` | src/battery-status.tsx:30-34 | a whole number printed by a template literal is non-empty decimal digits without a leading zero that read back as the number |
| `Text.DecimalReadsBack` | src/battery-status.tsx:28-34 | a digit string without a leading zero, once read by `Number` and printed again, is the same string |
| `Patterns.KeywordUnique` | src/battery-status.tsx:70-72 | at most one of the four status keywords matches case-insensitively at any position, so the alternation order never decides |
| `Patterns.StatusAt` | src/battery-status.tsx:70-72 | the alternative chosen at a position is a keyword that occurs there case-insensitively, and there is none exactly when no keyword occurs there |
| `Patterns.StatusAtKeyword` | src/battery-status.tsx:70-72 | the status alternative found at a position is exactly the keyword that occurs there |
| `Patterns.MatchAt` | src/battery-status.tsx:69-74 | a match found at an index is non-empty and lies inside the text |
| `Patterns.WattageValueAt` | src/battery-status.tsx:74 | the captured wattage number lies after the `Wattage` label and the `=` and inside the text |
| `Patterns.Search` | src/battery-status.tsx:69-74 | `match` without `g` finds the leftmost match: it is a match, nothing matches earlier, and None means nothing matches anywhere |
| `Patterns.SearchFindsFirst` | src/battery-status.tsx:69-74 | a match with none before it is the one the search returns |
| `Patterns.SearchFindsNone` | src/battery-status.tsx:73 | with no match anywhere the search returns nothing, so an optional token is just absent |
| `Patterns.AllMatches` | src/battery-status.tsx:48-49 | `match` with `g` returns non-overlapping matches in order; the first is the leftmost match, and there is a second exactly when the search from the end of the first finds one, which is then the second |
| `Patterns.AllMatchesChain` | src/battery-status.tsx:48-49 | the global match is complete: every match after the first is the leftmost one after the end of the previous match, and after the last match there is none |
| `Tokens.PercentMatch` | src/battery-status.tsx:69 | `([0-9]+)%` matches at `i` ending at `e` exactly when `s[i..e]` is one or more digits followed by `%` |
| `Tokens.StatusMatch` | src/battery-status.tsx:70-72 | the status pattern matches at `i` exactly when some keyword occurs there case-insensitively, and the match spans that keyword |
| `Tokens.TimeMatch` | src/battery-status.tsx:73 | `([0-9]+:[0-9]+)` matches at `i` exactly when a digits-colon-digits token starts there, and the match is the longest such token |
| `Tokens.WattageMatch` | src/battery-status.tsx:74 | `Wattage\s*=\s*([0-9.]+)` matches at `i` exactly when the label, optional white space, `=`, optional white space and a number start there, and the group is the whole number |
| `Tokens.FlagMatch` | src/battery-status.tsx:49 | `lowpowermode\s+(\d+)` matches at `i` ending at `e` exactly when the word, one or more white-space characters and a digit run that is not followed by another digit span `s[i..e]`; the white space is the greedy run after the word |
| `Tokens.FindsPercent` | src/battery-status.tsx:69 | the percentage search succeeds exactly when the text has a digit run followed by `%` |
| `Tokens.FindsStatus` | src/battery-status.tsx:70-72 | the status search succeeds exactly when the text contains a keyword in any case |
| `Tokens.FindsTime` | src/battery-status.tsx:73 | the remaining-time search succeeds exactly when the text has an `H:MM` token |
| `Tokens.FindsWattage` | src/battery-status.tsx:74 | the wattage search succeeds exactly when the adapter text has a `Wattage = N` entry |
| `Duration.FormatRemainingTime` | src/battery-status.tsx:27-35 | the formatted remaining time is at least two characters and ends in the unit `h` or `m` |
| `Duration.FormatReadsBack` | src/battery-status.tsx:27-35 | the formatted remaining time (`{m}m` for zero hours, `{h}h` for zero minutes, `{h}h{m}m` otherwise) reads back as the token's hours and minutes |
| `Duration.FormatIsOnlyReading` | src/battery-status.tsx:27-35 | a text reads back as the token's hours and minutes exactly when it is the formatted remaining time, so the display form is unique |
| `Duration.MinutesFormReads` | src/battery-status.tsx:29-30 | `{m}m` reads back as zero hours and `m` minutes |
| `Duration.HoursFormReads` | src/battery-status.tsx:31-32 | for positive `h`, `{h}h` reads back as `h` hours and zero minutes |
| `Duration.HoursMinutesFormReads` | src/battery-status.tsx:34 | for positive `h` and `m`, `{h}h{m}m` reads back as `h` hours and `m` minutes |
| `Duration.TimeTextOf` | src/battery-status.tsx:28 | splitting `H:MM` at its colon gives the two digit strings, and `Number` gives their values |
| `Duration.FormatOfParts` | src/battery-status.tsx:27-35 | the formatted time of `hs:ms` is chosen by the values of `hs` and `ms`: minutes only, hours only, or both |
| `Duration.FormatWrittenParts` | src/battery-status.tsx:34 | a token whose two numbers have no leading zero and are not zero formats as the same digits with `h` and `m` |
| `Duration.FormatWrittenMinutes` | src/battery-status.tsx:29-30 | a token with zero hours formats as its minute digits, when they have no leading zero, followed by `m` |
| `Duration.FormatWrittenHours` | src/battery-status.tsx:31-32 | a token with zero minutes formats as its hour digits, when they have no leading zero, followed by `h` |
| `Duration.FormatOneHourFive` | src/battery-status.tsx:27-35 | `"1:05"` formats as `"1h5m"`: the leading zero of the minutes is dropped |
| `Duration.FormatZero` | src/battery-status.tsx:29-30 | `"0:00"` formats as `"0m"` |
| `Duration.FormatMinutesOnly` | src/battery-status.tsx:29-30 | `"0:45"` formats as `"45m"` |
| `Duration.FormatWholeHours` | src/battery-status.tsx:31-32 | `"2:00"` formats as `"2h"` |
| `Duration.FormatHoursAndMinutes` | src/battery-status.tsx:34 | `"1:30"` formats as `"1h30m"` |
| `LowPower.OccurrenceOn` | src/battery-status.tsx:50-55 | a missing occurrence reads as off; a found occurrence reads as on exactly when its digits, after the word and the white space, contain `1` |
| `LowPower.OneOnlyInValue` | src/battery-status.tsx:52 | `includes('1')` on a whole occurrence is the same as `includes('1')` on its value digits |
| `LowPower.ReadFlags` | src/battery-status.tsx:48-55 | the battery flag is whether the first `lowpowermode\s+\d+` occurrence contains `1`, the adapter flag the same for the next occurrence after it, and a missing occurrence reads as off |
| `LowPower.ModeOf` | src/battery-status.tsx:57-64 | the truth table (off,off) Never, (on,on) Always, (on,off) Only on Battery, (off,on) Only on Power Adapter |
| `LowPower.NewState` | src/battery-status.tsx:135-140 | the mode table writes `0`/`1` values which, read back as flags, name the chosen mode |
| `LowPower.NewStateOfModeOf` | src/battery-status.tsx:135-140 | the table entry of the mode derived from a flag pair is that flag pair, so the two tables are inverses |
| `LowPower.LabelOfFlags` | src/battery-status.tsx:57-64 | the label of the mode of a flag pair is the text the if-chain assigns: `Always` for both on, `Only on Battery`, `Only on Power Adapter`, otherwise `Never` |
| `LowPower.LabelsDistinct` | src/battery-status.tsx:57-64 | two modes have the same label exactly when they are the same mode, so the published text determines the mode |
| `LowPower.LowPowerSummary` | src/battery-status.tsx:118 | `lowPowerMode` (either flag on) holds exactly when the mode is not Never |
| `LowPower.NoSettingLines` | src/battery-status.tsx:48-55 | a settings report with no occurrence gives both flags off |
| `LowPower.FoundLine` | src/battery-status.tsx:48-52 | an occurrence with none between the search start and it is the one the global match finds next, and it reads as on exactly when its value digits contain `1` |
| `LowPower.ReadOneSettingLine` | src/battery-status.tsx:48-55 | a report with exactly one occurrence gives the battery flag from its value digits and the adapter flag off |
| `LowPower.ReadTwoSettingLines` | src/battery-status.tsx:48-55 | a report whose first two occurrences are at given places, with any white space and digit runs, gives the battery flag from the first value and the adapter flag from the second |
| `LowPower.ReadBackAfterSet` | src/battery-status.tsx:135-145 | when the report's first two occurrences carry the battery and adapter values the table wrote, the mode read back is the mode that was chosen |
| `Battery.WattageInfo` | src/battery-status.tsx:85-88 | the wattage is shown exactly for charging and charged, and otherwise the information is empty |
| `Battery.RemainingInfo` | src/battery-status.tsx:90-93 | the remaining information is present exactly when there is a time token and the battery is not charged |
| `Battery.Title` | src/battery-status.tsx:95-100 | the title starts with percentage, `" - "` and status; it is exactly that when there is no wattage information, and otherwise goes on with `" (<info>)"` |
| `Battery.Subtitle` | src/battery-status.tsx:102-109 | "Fully charged" exactly when charged; "<r> until fully charged" while charging and "<r> remaining" while discharging with remaining info; empty exactly for a finishing charge or a missing remaining info |
| `Battery.RemainingTimeText` | src/battery-status.tsx:73 | the remaining-time field is empty or a well-formed `H:MM` token |
| `Battery.RemainingTimeLeftmost` | src/battery-status.tsx:82 | the remaining-time text is empty exactly when the report has no `H:MM` token, and otherwise is the leftmost such token |
| `Battery.TimeMatchText` | src/battery-status.tsx:73 | the text of a remaining-time match is a well-formed `H:MM` token, so formatting it is defined |
| `Battery.WattageText` | src/battery-status.tsx:83 | the wattage is empty exactly when the adapter report has no `Wattage = N` entry, and otherwise ends in `W` |
| `Battery.WattageTextLeftmost` | src/battery-status.tsx:83 | a non-empty wattage is the number of the leftmost `Wattage = N` entry with `W` appended |
| `Battery.FetchBatteryInfo` | src/battery-status.tsx:66-83 | the parse fails exactly when the battery report has no digit run followed by `%` or none of the four keywords; time and wattage never cause failure |
| `Battery.ParsedPercentage` | src/battery-status.tsx:80 | the percentage is the leftmost digit run followed by `%`, with the `%` |
| `Battery.PercentTokenText` | src/battery-status.tsx:69 | a percentage token is at least one digit followed by `%` |
| `Battery.ParsedStatus` | src/battery-status.tsx:70-81 | the status is the leftmost keyword, matched case-insensitively and lower-cased, so `discharging` wins over its inner `charging` |
| `Battery.ParsedRemainingTime` | src/battery-status.tsx:82 | the remaining time is the leftmost `H:MM` token, or empty exactly when there is none |
| `Battery.ParsedWattage` | src/battery-status.tsx:83 | the wattage is the number after the first `Wattage =` label with `W` appended, or empty exactly when there is none |
| `Battery.ParsedTitle` | src/battery-status.tsx:85-100 | the title is percentage, `" - "` and status, with `" (<wattage>W)"` exactly when the status is charging or charged and a wattage was found |
| `Battery.ParsedSubtitle` | src/battery-status.tsx:90-109 | the remaining info is shown unless there is no token or the battery is charged; the subtitle is "Fully charged" iff charged, "<r> until fully charged" or "<r> remaining" with remaining info, and empty otherwise, finishing charge included |
| `Battery.ParsedLowPower` | src/battery-status.tsx:57-120 | the published setting is the mode of the settings report's flags, its text is the label the if-chain picks from those flags, and the summary is on exactly when that mode is not Never |
| `StatusDetails.ParseLeadingInt` | src/battery-status.tsx:168 | `parseInt` gives a number exactly when the string starts with a digit (for a string that does not start with `0x`/`0X`), and NaN otherwise |
| `StatusDetails.ParseLeadingIntValue` | src/battery-status.tsx:168 | the number `parseInt` gives is the value of the whole leading digit run, whatever follows it |
| `StatusDetails.GetStatusDetails` | src/battery-status.tsx:165-181 | charging is yellow with the charging icon, charged green; otherwise at most 20 is red, at most 50 orange, else the plain colour; before any read the plain icon and colour |
| `StatusDetails.ParseIntOfPercentage` | src/battery-status.tsx:168 | `parseInt` of `"NN%"` is NN |
| `StatusDetails.LevelColour` | src/battery-status.tsx:174-180 | for a `NN%` percentage and a status that is not charging or charged, the colour follows NN against 20 and 50 |
| `StatusDetails.ParsedColour` | src/battery-status.tsx:165-181 | for a parsed report that is not charging or charged, the percentage is `NN%` and the colour follows NN against 20 and 50 (`ColourFollowsLevel`) |
| `Scenarios.DischargingScenario` | src/battery-status.tsx:66-109 | `"35%; discharging; 2:10 remaining present"` with no charger gives `"35% - discharging"` and `"2h10m remaining"` |
| `Scenarios.NotChargingScenario` | src/battery-status.tsx:66-109 | `"80%; not charging"` with `"Wattage = 61.0"` parses as charging, because the search finds the `charging` inside `not charging`; the title is `"80% - charging (61.0W)"` and the subtitle is empty |
| `Scenarios.ChargedScenario` | src/battery-status.tsx:66-109 | `"100%; charged;"` with `"Wattage = 61.0"` gives `"100% - charged (61.0W)"` and `"Fully charged"` |

## Left out

- Running the three `pmset` queries and the two `sudo pmset` writes is process I/O. The reports are parameters. A failed query or a failed write, which the source turns into an error message or a help message, is not modelled.
- The `if (!batteryInfo) return;` guard of the mode change, and the refetch after it, are not modelled as code. `ReadBackAfterSet` states what the refetch reads when the writes took effect.
- `showToast`, `showHUD`, opening System Preferences and `console.error` are user-interface calls and are not modelled.
- The React state (`setBatteryInfo`, `setError`, `setIsLoading`), the 30-second `setInterval` polling and its cleanup are not modelled. They are a user-interface lifecycle with no contract of their own.
- The JSX rendering (lines 185-276) is not modelled.
- `Duration.FormatRemainingTime`, `StatusDetails.ParseLeadingInt`: `Number`, `parseInt` and template literals work on doubles. The model uses exact whole numbers. Digit strings above 2^53, and numbers printed in exponent form from 10^21 up, behave differently in the source.
- `StatusDetails.ParseLeadingInt`: `parseInt` also skips leading white space, takes a sign, and reads a `0x`/`0X` prefix followed by hexadecimal digits (so `parseInt("0x1A%")` is 26 and `parseInt("0xz")` is NaN). The model does none of these, because the percentage it is given always has the form `[0-9]+%` (`Battery.IsPercentText`), which has no white space, no sign and no `x`.
- `Patterns.KeywordAt`: the case-insensitive match is ASCII lower-casing. This is exact for JavaScript without the `u` flag, where no non-ASCII character folds onto an ASCII letter.
- `LowPower.ReadBackAfterSet`: the written values are assumed to appear in the settings report as the first two `lowpowermode` occurrences, battery first, each printed as the single digit that was written. The full multi-section report format of `pmset` is not modelled.
