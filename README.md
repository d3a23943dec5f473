# Roster schedule cells, legend and day picker — a Dafny model

This project models the core of a staff-roster tool for a hospital
sterilisation unit (CSSD). The roster is a monthly grid of employees by days.
Each cell holds a schedule record: a shift code (morning `P`, evening `S`,
night `M`, …) and an optional task or unit code. The model covers:

- `utils/scheduleUtils.ts`: code normalisation, the backend code table, the
  YIQ contrast rule, date keys, days in a month, day names and weekends, and
  shift durations, including the weekend morning rule.
- `constants.tsx`: the static table of the three core shifts.
- The cell resolver, which the desktop table (`components/RosterTable.tsx`)
  and the mobile list (`components/MobileRosterList.tsx`) each carry. It is
  written once here, parameterised by the view. It gives the display code,
  the mobile label, the background (solid or a diagonal split) and the text
  colour.
- The desktop header rule: a day is red on weekends and holidays.
- Cell clickability and the grid of cells.
- The mobile day picker: the `selectedDay` state, as a class.
- `components/Legend.tsx`: `enrichDefinitions`, written as the imperative
  method it is and proved equal to a recursive specification. Also the
  legend editor's state and the requests its save and delete handlers issue.

Files, one module each:

- `options.dfy`: `Option`.
- `js_text.dfy`: the JavaScript string built-ins the code relies on.
- `calendar.dfy`: the Gregorian arithmetic behind JavaScript `Date`.
- `schedule_utils.dfy`
- `constants.dfy`
- `cell_resolver.dfy`
- `roster_table.dfy`
- `mobile_roster_list.dfy`
- `legend.dfy`

JavaScript semantics are written out where the code depends on them:

- `undefined`, `null` and `""` are all falsy, and an absent colour or name is `""`.
- `NaN` is `None`.
- `parseInt(s, 16)` reads the longest prefix of hex digits and is NaN when there is none.
- A comparison with NaN is false.
- `replace("#", "")` removes only the first `#`.
- `substring` clamps its bounds.
- `padStart(2, "0")`.
- `Array.prototype.find` returns the first match.
- `new Date(y, m, d)` normalises an out-of-range month or day, and maps years 0–99 to 1900–1999.

## Model

| member | source | states |
|---|---|---|
| JsText.Trim | utils/scheduleUtils.ts:38 | the result has no white space at either end, is no longer than the input, and already-trimmed text is unchanged |
| JsText.TrimStartSlice | utils/scheduleUtils.ts:38 | `trimStart` drops exactly a leading run of white space: the result is a suffix of the input and everything before it is white space |
| JsText.TrimEndSlice | utils/scheduleUtils.ts:38 | `trimEnd` drops exactly a trailing run of white space: the result is a prefix of the input and everything after it is white space |
| JsText.TrimSlice | utils/scheduleUtils.ts:38 | `trim` returns the input with exactly its leading and trailing white space removed: a slice `s[i..j]` with only white space before `i` and after `j` |
| JsText.Upper | utils/scheduleUtils.ts:38 | same length, every character upper-cased in place (ASCII) |
| JsText.Includes | components/Legend.tsx:81 | `s.includes(sub)` holds iff `sub` starts at some position of `s` |
| JsText.RemoveFirst | utils/scheduleUtils.ts:27 | `replace("#", "")` deletes exactly the first occurrence, and leaves text without one unchanged |
| JsText.Substring | utils/scheduleUtils.ts:28-30 | at most `end - start` characters, and exactly `s[start..end]` when `end` is in range |
| JsText.IndexOf | utils/scheduleUtils.ts:78-79 | the first position of the separator, `None` iff it does not occur |
| JsText.NatToDecimal | utils/scheduleUtils.ts:9 | `String(n)` is a non-empty numeral whose length follows the magnitude of `n` |
| JsText.DecimalOfNatToDecimal | utils/scheduleUtils.ts:9 | `String(n)` reads back as `n` |
| JsText.PadStart2 | utils/scheduleUtils.ts:9 | `padStart(2, "0")` keeps the text as a suffix, adds zeros only, and gives length at least 2 |
| JsText.ParseIntHex | utils/scheduleUtils.ts:28-30 | empty text parses to NaN (the full reading is stated by `JsText.ParseIntHexReads`) |
| JsText.TrimStartSkips | utils/scheduleUtils.ts:28-30 | leading white space before a non-space character is skipped |
| JsText.HexPrefixStops | utils/scheduleUtils.ts:28-30 | the hex digits read are exactly the run before the first non-hex character |
| JsText.ParseIntHexReads | utils/scheduleUtils.ts:28-30 | `parseInt(s, 16)` of white space, an optional sign, an optional `0x`/`0X`, a non-empty run of hex digits and any text not starting with a hex digit is the value of that longest run, negated after `-` |
| JsText.ParseIntHexOfDigits | utils/scheduleUtils.ts:28-30 | a run of hex digits parses to its value |
| JsText.ParseIntHexNaN | utils/scheduleUtils.ts:28-30 | text starting with neither space, sign nor hex digit parses to NaN |
| JsText.JsNumber | utils/scheduleUtils.ts:78-79 | `Number` of blank text is 0, and of a numeral is its value |
| Calendar.MonthLength | utils/scheduleUtils.ts:4-6 | 28 to 31 days; February has 29 exactly in leap years; other months have 30 or 31 |
| Calendar.Weekday | utils/scheduleUtils.ts:12-16 | `getDay()` is in 0..6 |
| Calendar.DaysBeforeNextYear | utils/scheduleUtils.ts:4-6 | consecutive 1 January day numbers are one year length apart |
| Calendar.DaysBeforeNextMonth | utils/scheduleUtils.ts:4-6 | consecutive first-of-month day numbers are one month length apart; the twelve months fill the year |
| Calendar.DayZeroIsLastDay | utils/scheduleUtils.ts:5 | `new Date(y, m + 1, 0)` is the last day of month `m`, across year ends too |
| ScheduleUtils.NormalizeCode | utils/scheduleUtils.ts:38 | the normalised code is trimmed, has no lower-case letter and is no longer than the input (its value is stated by `ScheduleUtils.NormalizeCodeValue`) |
| ScheduleUtils.NormalizeCodeValue | utils/scheduleUtils.ts:38 | the normalised code is the upper-cased slice `s[i..j]` of the input with only white space before `i` and after `j` |
| ScheduleUtils.NormalizeOpt | utils/scheduleUtils.ts:38 | `s?.trim().toUpperCase()`: undefined stays undefined, otherwise the code is normalised |
| ScheduleUtils.NormalFormFixed | utils/scheduleUtils.ts:38 | a trimmed code without lower-case letters is its own normal form |
| ScheduleUtils.NormalizeIdempotent | utils/scheduleUtils.ts:38 | normalising twice is normalising once |
| ScheduleUtils.ToBackend | components/Legend.tsx:34 | `BACKEND_CODE_MAP[c] \|\| c`: the table's value for a mapped code, `c` itself for an unmapped one |
| ScheduleUtils.BackendKeys | utils/scheduleUtils.ts:42-51 | the table's keys are exactly P, S, M, L, OFF, C, CUTI, LB |
| ScheduleUtils.BackendOfP | utils/scheduleUtils.ts:43 | `P` maps to `PAGI`, which is not itself a key |
| ScheduleUtils.ToBackendIdempotent | utils/scheduleUtils.ts:42-51 | every backend code is a fixed point, so mapping twice is mapping once |
| ScheduleUtils.ContrastYIQ | utils/scheduleUtils.ts:24-36 | always dark or light text; an empty colour gives dark; otherwise dark iff all three channels parse and the YIQ luma is at least 128 |
| ScheduleUtils.TwoHexChannel | utils/scheduleUtils.ts:28-30 | each two-digit slice of a six-digit hex colour parses to its channel value |
| ScheduleUtils.HashRemoved | utils/scheduleUtils.ts:27 | removing `#` from `#rrggbb` or `rrggbb` leaves the six digits |
| ScheduleUtils.ChannelsOfHexColor | utils/scheduleUtils.ts:27-30 | the three channels of a six-digit hex colour, with or without `#`, are its three digit pairs |
| ScheduleUtils.ContrastOfHexColor | utils/scheduleUtils.ts:24-36 | for a six-digit colour, the text is dark exactly when the luma threshold is met |
| ScheduleUtils.ContrastMonotone | utils/scheduleUtils.ts:31-32 | a colour no darker in every channel than one with dark text also gets dark text |
| ScheduleUtils.ContrastOfWhite | utils/scheduleUtils.ts:24-36 | white, written `#ffffff` as the views write it, gets dark text `#111827` |
| ScheduleUtils.ContrastOfBlack | utils/scheduleUtils.ts:24-36 | `#000000` gets `#FFFFFF` |
| ScheduleUtils.ContrastOfColorName | utils/scheduleUtils.ts:28-32 | a colour that does not start with a hex digit, `#`, space or sign gives NaN channels and light text `#FFFFFF` |
| ScheduleUtils.ContrastOfColorNameExample | utils/scheduleUtils.ts:24-36 | `"not-a-color"` gets `#FFFFFF`, not the dark default |
| ScheduleUtils.TwoDigitField | utils/scheduleUtils.ts:9 | a padded month or day of 1–99 is two digits and reads back as itself |
| ScheduleUtils.DateKey | utils/scheduleUtils.ts:8-10 | for four-digit years the key is `YYYY-MM-DD`, and its fields read back as year, one-based month and day |
| ScheduleUtils.DateKeyInjective | utils/scheduleUtils.ts:8-10 | different dates have different keys |
| ScheduleUtils.DaysInMonth | utils/scheduleUtils.ts:4-6 | 28 to 31; February of the normalised year has 29 iff leap; day 0 of the next month is this month's last day |
| ScheduleUtils.DaysInCalendarMonth | utils/scheduleUtils.ts:4-6 | for months 0–11 of years from 100 on, this is the Gregorian month length |
| ScheduleUtils.DayName | utils/scheduleUtils.ts:18-22 | always one of Min, Sen, Sel, Rab, Kam, Jum, Sab |
| ScheduleUtils.IsWeekend | utils/scheduleUtils.ts:12-16 | weekend iff the day name is Min (Sunday) or Sab (Saturday) |
| ScheduleUtils.DateStringWeekday | utils/scheduleUtils.ts:69-70 | a parsed weekday is in 0..6 |
| ScheduleUtils.DateStringFields | utils/scheduleUtils.ts:69-70 | a `YYYY-MM-DD` string of a real date parses to that date's weekday |
| ScheduleUtils.DateKeyWeekday | utils/scheduleUtils.ts:8-16 | parsing a generated date key gives the same weekday as `new Date(y, m, d)` |
| ScheduleUtils.DateKeyParses | utils/scheduleUtils.ts:8-10 | the key of a real date parses to the weekday of that calendar day |
| ScheduleUtils.TimeMinutesOfValid | utils/scheduleUtils.ts:78-82 | a well-formed `HH:MM` splits into minutes since midnight, below 1440 |
| ScheduleUtils.ClockValue | utils/scheduleUtils.ts:78-82 | the `HH:MM` text of a time reads back as that time |
| ScheduleUtils.WeekendMorningTimes | utils/scheduleUtils.ts:72-73 | 07:30 and 14:30 are minutes 450 and 870 |
| ScheduleUtils.ClockDurationOfValid | utils/scheduleUtils.ts:78-89 | the duration is end minus start, plus a day when the end is earlier |
| ScheduleUtils.ShiftMinutes | utils/scheduleUtils.ts:59-90 | 0 when a time is missing; 7 hours under the weekend morning rule; otherwise the clock duration |
| ScheduleUtils.ShiftMinutesWithinDay | utils/scheduleUtils.ts:59-90 | well-formed times give a duration within [0, 24h); equal times give 0 |
| ScheduleUtils.WeekendKey | utils/scheduleUtils.ts:66-71 | on a real date, the weekend morning rule applies to its key iff the code normalises to P or PAGI and the date is a Saturday or Sunday |
| ScheduleUtils.WeekendMorningOnWeekday | utils/scheduleUtils.ts:66-71 | on a date string naming weekday `w`, the rule applies iff the code normalises to P or PAGI and `w` is Sunday or Saturday |
| ScheduleUtils.WeekendMorningOnDateKey | utils/scheduleUtils.ts:66-76 | a P or PAGI shift on a weekend date key lasts 7 hours, whatever its times |
| ScheduleUtils.DayShiftExample | utils/scheduleUtils.ts:59-90 | 07:00 to 14:00 is 7 hours |
| ScheduleUtils.NightShiftExample | utils/scheduleUtils.ts:84-89 | 21:00 to 07:00 is 10 hours across midnight |
| ScheduleUtils.DateKeyExample | utils/scheduleUtils.ts:8-10 | the key of 1 June 2024 is `2024-06-01` |
| ScheduleUtils.SaturdayExample | utils/scheduleUtils.ts:12-16 | 1 June 2024 is a weekend day |
| ScheduleUtils.WeekendMorningExample | utils/scheduleUtils.ts:66-76 | a P shift of 07:00–15:00 on `2024-06-01` counts 7 hours, not 8 |
| Constants.LookupIn | constants.tsx:6-11 | a key lookup is absent iff no entry has that key, and otherwise returns an entry of the table |
| Constants.StaticDefs | components/Legend.tsx:30 | the filtered rows all have the requested category |
| Constants.Filter | components/Legend.tsx:30 | every kept row has the category and comes from the table, and every row of the category is kept |
| Constants.FilterConcat | components/Legend.tsx:30 | filtering keeps table order: the filter of two tables in a row is the filter of the first, then of the second |
| Constants.FilterSingle | components/Legend.tsx:30 | a single row is kept iff it has the category |
| Constants.Lookup | constants.tsx:6-11 | `SHIFT_DEFINITIONS[key]` is defined exactly for P, S and M; each entry is in the table under its own code, and is primary |
| Constants.StaticDefsByCategory | constants.tsx:6-11 | the primary rows are P, S, M in that order; there are no task or leave rows |
| Constants.ColorClassHex | components/RosterTable.tsx:95 | the hex colour of a style class is never empty |
| Constants.StaticColors | components/RosterTable.tsx:95 | P is `#ffffff`, S is `#dbeafe`, M is `#4f46e5` |
| CellResolver.FirstIndex | components/RosterTable.tsx:94 | the first index satisfying the predicate, `None` iff none does |
| CellResolver.Find | components/RosterTable.tsx:94 | `find` returns an element iff one matches, and it is the first match |
| CellResolver.FindFirst | components/RosterTable.tsx:94 | when `i` is the first matching index, `find` returns `xs[i]` |
| CellResolver.FindShift | components/RosterTable.tsx:94 | the first master shift whose normalised code equals the code or its backend code; `None` iff none matches |
| CellResolver.FindUnit | components/RosterTable.tsx:98 | the first master unit whose normalised code equals the task code; `None` iff none matches |
| CellResolver.StaticShiftColor | components/RosterTable.tsx:95 | the static colour of S is `#dbeafe`, of M `#4f46e5`, and of P and every code without a static row `#ffffff` |
| CellResolver.ShiftColor | components/RosterTable.tsx:95 | the shift colour is never empty |
| CellResolver.ShiftColorSource | components/RosterTable.tsx:94-95 | the first matching master shift's colour if non-empty, else the static row's colour |
| CellResolver.TaskColor | components/RosterTable.tsx:98-99 | the first matching master unit's colour; empty when no unit matches |
| CellResolver.CellStyle | components/RosterTable.tsx:104-119 | the text colour is dark or light; with a shift colour there is always a background; with a background the text is the contrast colour of its front colour |
| CellResolver.StaticLabel | components/MobileRosterList.tsx:151 | the static row's label under the key, else "Tidak ada jadwal"; never empty |
| CellResolver.MobileLabel | components/MobileRosterList.tsx:151-157 | the unit's name if non-empty, else the shift's name if non-empty, else the static label; never empty, and `-` only as a matched record's name |
| CellResolver.Resolve | components/RosterTable.tsx:87-122 | a label exactly in the mobile view; an empty code only in the table; never without a background; text in the contrast colour of the front colour |
| CellResolver.ResolveCode | components/RosterTable.tsx:103 | the display code is the normalised task code, else the shift code, else the view's empty code; it is empty only in the table with no codes |
| CellResolver.ResolveStyle | components/MobileRosterList.tsx:159-170 | never without a background; the text is the contrast of the front colour, which is the task colour when a unit with a colour matched |
| CellResolver.SplitIff | components/RosterTable.tsx:106-112 | the background is split iff a coloured unit matched and both codes are non-empty; the split is shift colour first, then unit colour |
| CellResolver.ResolveNormalized | components/RosterTable.tsx:90-91 | records whose codes normalise alike resolve alike |
| CellResolver.ViewsAgree | components/MobileRosterList.tsx:138-170 | table and mobile agree on background and text; codes differ only for an empty cell; only mobile has a label |
| CellResolver.MobileCaptionSource | components/MobileRosterList.tsx:138-157 | the mobile label is the name of the first unit matching the task code; else the name of the first shift matching the shift code; else the static label under the task code (the shift code if the task code is empty), or "Tidak ada jadwal" |
| CellResolver.LabelOfFirstMatches | components/MobileRosterList.tsx:144-157 | the label of the first matching unit and shift follows the precedence unit name, shift name, static label |
| CellResolver.AbsentRecordBadge | components/MobileRosterList.tsx:138-170 | with no record, and as long as no master shift or unit has a blank code, the mobile cell is `-` on white with dark text, labelled "Tidak ada jadwal" |
| CellResolver.AliasIsOneWay | components/RosterTable.tsx:94 | code `P` finds a master shift `PAGI`, but code `PAGI` does not find a master shift `P` |
| RosterTable.IsRedDay | components/RosterTable.tsx:53-55 | red iff the day name is Min or Sab, or a holiday name is given |
| RosterTable.RecordFor | components/RosterTable.tsx:88 | a record iff the key is present, and then the stored one |
| RosterTable.IsClickable | components/RosterTable.tsx:121-122 | an editor can always click; anyone else only when the cell is theirs and has a record |
| RosterTable.CellAt | components/RosterTable.tsx:87-143 | content iff a record exists, and then the resolved code, background and text colour of that record; clickable iff an editor, or the owner of a filled cell |
| RosterTable.Grid | components/RosterTable.tsx:75-146 | one row per employee, one cell per day, each the cell of that employee and day |
| RosterTable.RowReadsDistinctDays | components/RosterTable.tsx:87-88 | different days of a month read different record keys |
| MobileRosterList.InitialDay | components/MobileRosterList.tsx:34-38 | today's date in the current month, else 1; always a day of the month for a real today |
| MobileRosterList.DayPicker.constructor | components/MobileRosterList.tsx:34-41 | the selection starts at the initial day, inside the strip |
| MobileRosterList.DayPicker.PrevDay | components/MobileRosterList.tsx:53-55 | one day back unless on day 1; stays in range |
| MobileRosterList.DayPicker.NextDay | components/MobileRosterList.tsx:57-59 | one day on unless on the last day of the strip; stays in range |
| MobileRosterList.DayPicker.SelectDay | components/MobileRosterList.tsx:118 | a day button selects its day |
| MobileRosterList.DayPicker.ChangeMonth | components/MobileRosterList.tsx:44-51 | a new month resets the selection as on entry, inside the strip |
| MobileRosterList.DayPicker.SelectedKey | components/MobileRosterList.tsx:62-63 | the key of the selected day parses to that day's weekday |
| MobileRosterList.BadgeFor | components/MobileRosterList.tsx:138-211 | the resolved code, background and text colour of the day's record (an absent record resolves too); the label iff a record exists, and then the resolved label; clickable iff an editor, or the owner of a badge with a record |
| MobileRosterList.DayList | components/MobileRosterList.tsx:137-220 | one badge per employee, in order |
| MobileRosterList.EmptyDayBadge | components/MobileRosterList.tsx:138-211 | as long as no master shift or unit has a blank code, an employee without a record gets `-` on white with dark text and no label line |
| Legend.StyleOf | components/Legend.tsx:44-48 | background and border in the record's colour; text in its YIQ contrast colour |
| Legend.EnrichStatic | components/Legend.tsx:31-53 | a static row keeps its code and category; a master record matches it by normalised code, backend code or name against the label; the row takes the first matching unit, else the first matching shift (id, name or the static label, the inline style of its colour, its list); with no match the row stays as it is |
| Legend.NewEntry | components/Legend.tsx:61-98 | an appended entry carries the record's id, code, name and inline style, no style classes, its list, and the legend's category (for shifts: leave iff the shift is a leave status) |
| Legend.Base | components/Legend.tsx:30-54 | one enriched entry per static row |
| Legend.EnrichDefinitions | components/Legend.tsx:29-105 | the two push loops compute exactly the recursive specification `Enrich` |
| Legend.AppendKeepsPrefix | components/Legend.tsx:57-101 | appending never changes earlier entries |
| Legend.RepresentedInLonger | components/Legend.tsx:59 | an entry already shown stays shown as the list grows |
| Legend.HeadCovered | components/Legend.tsx:84-99 | after a record is visited, it is shown by code or name |
| Legend.AppendCovers | components/Legend.tsx:56-102 | after the pass every candidate record is shown by code or name |
| Legend.FreshAtInLongerList | components/Legend.tsx:79-101 | an entry appended for a later record comes from the list |
| Legend.FreshAtHead | components/Legend.tsx:84-99 | the entry appended for the visited record is fresh |
| Legend.AppendFresh | components/Legend.tsx:56-102 | each appended entry is in the legend's category, comes from its list, and repeats no earlier code or name |
| Legend.EnrichStartsWithStatic | components/Legend.tsx:30-54 | the legend starts with the enriched static rows in table order |
| Legend.EnrichEntries | components/Legend.tsx:29-105 | every entry is in the legend's category; appended entries repeat no earlier code or name |
| Legend.StaticCodesDistinct | constants.tsx:6-11 | the static rows of a category have distinct codes, each already normalised |
| Legend.StaticCodesKept | components/Legend.tsx:30-54 | the static part of a legend keeps the static codes in table order |
| Legend.StaticPrefixDistinct | components/Legend.tsx:30-54 | the static part of a legend has no normalised code twice |
| Legend.CodesDistinctFromParts | components/Legend.tsx:56-101 | distinct codes in a prefix, plus later entries that repeat no earlier code, give distinct codes throughout |
| Legend.EnrichCodesDistinct | components/Legend.tsx:29-105 | no two entries of a legend share a normalised code, so no (code, label) pair repeats |
| Legend.TaskShowsEveryUnit | components/Legend.tsx:56-76 | the task legend shows every master unit |
| Legend.ShiftLegendsShowTheirShifts | components/Legend.tsx:78-102 | the primary and leave legends show every shift of their kind |
| Legend.ShiftInOneLegend | components/Legend.tsx:81-83 | each master shift belongs to exactly one of primary and leave |
| Legend.LeaveLegendFromShifts | components/Legend.tsx:78-102 | the leave legend holds only leave shifts from the shift list |
| Legend.LeaveBaseEmpty | components/Legend.tsx:30-54 | the leave legend has no static rows |
| Legend.FormFor | components/Legend.tsx:107-118 | an item's code, label and background colour, or `#3B82F6` when it has none; an empty indigo form for a new item |
| Legend.SavePayload | components/Legend.tsx:126-133 | code upper-cased; name and colour kept; empty description; active; times 00:00 only for shifts |
| Legend.EndpointFor | components/Legend.tsx:125 | `/api/units` iff task, `/api/shifts` otherwise |
| Legend.SaveRequest | components/Legend.tsx:125-141 | update iff the edited item has an id, and then of that id; else create; units endpoint iff task; the payload of the form |
| Legend.DeleteRequest | components/Legend.tsx:150-159 | no id: refused with the system-item message; unconfirmed: no call; otherwise delete by id on the units endpoint iff the item came from units |
| Legend.StaticRowsAreSystemItems | components/Legend.tsx:151-154 | an unmatched static row cannot be deleted |
| Legend.AppendedEntryEndpoints | components/Legend.tsx:125-158 | for appended entries, edit and delete target the same endpoint and id |
| Legend.UnitMatchedRowEndpoints | components/Legend.tsx:50 | a primary or leave static row matched by a unit is edited via `/api/shifts` but deleted via `/api/units`, with the same id |
| Legend.LegendEditor.constructor | components/Legend.tsx:24-27 | closed, nothing edited, task category, empty form |
| Legend.LegendEditor.OpenModal | components/Legend.tsx:107-120 | opens the modal on the category and item, with the item's form |
| Legend.LegendEditor.SetCode | components/Legend.tsx:230 | only the form's code changes |
| Legend.LegendEditor.SetName | components/Legend.tsx:240 | only the form's name changes |
| Legend.LegendEditor.SetColor | components/Legend.tsx:249-253 | picking one of the preset colours changes only the form's colour |
| Legend.LegendEditor.Close | components/Legend.tsx:212 | the modal is closed |
| Legend.LegendEditor.Save | components/Legend.tsx:122-148 | from the open modal, issues the save request of the current state; closes the modal only on success |
| Legend.EditRoundTrip | components/Legend.tsx:107-141 | opening a database item and saving it unchanged updates that record with its own code, name and colour |
| Legend.EditRoundTripDefaultColor | components/Legend.tsx:107-141 | opening a database item without a background colour and saving it unchanged writes `#3B82F6` into that record |

## Behaviour worth knowing

Each point below says what the code does, and what a reader might expect instead.

- **Static rows.** `constants.tsx` defines only P, S and M, all primary (one might expect leave rows such as L and C as well). So the static leave and task legends are empty (`Constants.StaticDefsByCategory`).
- **Unparseable colours.** A colour name such as `"not-a-color"` gets white text `#FFFFFF` (where the dark default might be expected): `parseInt` gives NaN and `NaN >= 128` is false (`ScheduleUtils.ContrastOfColorNameExample`). Only an empty colour gives dark text.
- **Absent records.** As long as no master shift or unit has a blank code, the shift colour of the empty code falls back to `#ffffff`, so every such cell has a white background (where no background might be expected). A master record whose code trims to the empty string matches an absent record's empty code, and the cell then takes that record's colour. The mobile list shows `-` with the label "Tidak ada jadwal" (`CellResolver.AbsentRecordBadge`). The table shows no content only because it renders nothing without a record.
- **Backend codes.** The resolver maps the record's code forward only (where a mapping in both directions might be expected): `P` finds a master shift `PAGI`, but `PAGI` does not find `P` (`CellResolver.AliasIsOneWay`).
- **Mobile label.** The mobile label's final `'-'` fallback is never reached (where it might be expected for a record without a label), because every static label and the no-schedule text are non-empty (`CellResolver.MobileLabel`).
- **Legend duplicates.** No two legend entries share a normalised code (where only distinct (code, label) pairs might be expected), which is the stronger property (`Legend.EnrichCodesDistinct`).
- **Unit-matched static rows.** A static primary row can be matched by a master unit. Saving it then sends an update to `/api/shifts` with the unit's id, while deleting it goes to `/api/units` (where one endpoint for both might be expected) (`Legend.UnitMatchedRowEndpoints`). The model records this behaviour and does not change it.

## Left out

- Rendering (JSX, CSS classes, gradients, `isMonday` borders, the "HARI INI" badge, scrolling) is not modelled. The model keeps only the values the markup shows.
- The backend calls, toasts, `confirm` and `onRefresh` are not modelled as effects. A handler's decision is an `ApiCall` value, and success and confirmation are parameters.
- `getHolidayName` (`utils/holidays.ts`) is not part of this model. `RosterTable.IsRedDay` takes its result as a parameter.
- `new Date()` (the clock) is a `Today` parameter of the mobile list.
- ScheduleUtils.ShiftMinutes: the source divides by 60 to get hours, a float. The model returns integer minutes, and NaN is `None`.
- ScheduleUtils.DateStringWeekday: only strict `YYYY-MM-DD` strings of real dates are parsed. Other strings that `new Date(string)` accepts give `None`, so the weekend rule does not apply to them. The weekday is the UTC one, which matches local time only in time zones at or east of UTC, such as Indonesia.
- JsText.JsNumber: only blank text and runs of decimal digits are parsed. Signs, decimals and exponents give `None`.
- Text is ASCII. `trim` and `toUpperCase` act only on ASCII white space and letters.
- Master shift `startTime`, `endTime` and `isActive` are not read by the modelled code, so they are left out.
- `masterUnits.includes(match)` compares object identity. The model uses the list the match was found in, which is the same thing because units are searched first.
- Prototype keys of `SHIFT_DEFINITIONS` and `BACKEND_CODE_MAP` (such as `constructor`) are not modelled as lookups that succeed.
- Constants.StaticDefs: the contract states the category and a bound on the length. `Constants.StaticDefsByCategory` gives the exact rows.
- ScheduleUtils.DayName: the contract states only that the name is one of the seven. Its link to the weekend rule is in `ScheduleUtils.IsWeekend`.
- JsText.Trim: the function's own contract states the shape of the result (trimmed, no longer, fixed on trimmed text). Its exact value, the slice between the leading and trailing white space, is stated by `JsText.TrimSlice`, kept apart because its quantifiers would weigh on every proof that uses `trim`.
- ScheduleUtils.NormalizeCode: likewise, the contract states the shape; the exact value is stated by `ScheduleUtils.NormalizeCodeValue`.
- JsText.ParseIntHex: the contract states only the empty case; the value of every input of the form white space, sign, `0x`, hex digits, rest is stated by `JsText.ParseIntHexReads`, and text that starts with anything else is `JsText.ParseIntHexNaN`.
