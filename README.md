# LifeOrganizer core in Dafny

LifeOrganizer is a single-page React application with notes, tasks,
events (with a week calendar, a list view and a timetable), a global
search and a light/dark theme. This project models the logic behind those
pages and proves what the pages promise about it:

- the search filter-and-rank pipeline, and the debounced search view that runs it (`Search`);
- filtering, pinning, creating and deleting notes, and tag parsing (`Notes`);
- the task board: status filter, counts, completion rate, and the create, toggle and progress updates (`Tasks`);
- the events page: creating and deleting events, colour and icon lookups, the end time on each card, week navigation and the chronological list view sorted in place (`Events`);
- the timetable editor (`Timetable`);
- the `useTheme` hook (`Theme`, with the root element's class list in `ClassList`);
- the application shell: the persisted dark flag, the sidebar and the page dispatch (`App`).

Supporting modules model the JavaScript built-ins the code leans on:

- `Text`: `toLowerCase`, `trim`, `includes` and `split`;
- `Arrays`: `filter`, `find` and the stable `Array.prototype.sort`, both as a function and in place on an array;
- `Clock`: `toString`, `padStart` and the "HH:mm" format;
- `Calendar`: the proleptic Gregorian calendar, the local date-time strings `new Date(...)` accepts here (the Date Time String Format of ECMA-262), and a `JsDate` class for `setDate`, `setMinutes` and `getDay`.

Module layout:

- Pure component logic is functions over datatypes, with lemmas beside them.
- State that a component updates step by step is a class with `modifies` clauses: `SearchView`, `TimetableEditor`, `EventsView`, `JsDate`, `ThemeHook` and `AppShell`.
- The list view's `events.sort(...)` sorts the page's own array, so it is `SortArrayBy` on an `array<Event>`, proved equal to the functional `SortBy`.

Conventions:

- Identifiers (`Date.now()`) and "today" are parameters.
- Browser inputs are parameters: the stored theme, the `prefers-color-scheme` match and the sidebar's `isMobile`.
- Search relevance is an integer number of hundredths.
- A date-time is a count of minutes since 0000-01-01T00:00 local time.

Three behaviours of the code a reader might not expect:

- A tag matches the search term when it contains the term, not only when it equals it.
- The type filter compares with "all" and the category filter with "All".
- The search runs on the untrimmed query; only the guard trims.

## Model

| member | source | states |
|---|---|---|
| Text.Lower | src/components/search.tsx:146-148 | `toLowerCase` keeps the length, turns each upper-case letter into its lower-case letter and keeps every other character in place |
| Text.LowerIdempotent | src/components/search.tsx:146-148 | lower-casing twice equals lower-casing once |
| Text.Contains | src/components/search.tsx:146-148 | `includes` only holds for a needle no longer than the haystack |
| Text.ContainsIff | src/components/search.tsx:146-148 | `includes` holds exactly when the needle occurs at some index |
| Text.ContainsEmpty | src/components/notes.tsx:78-80 | every string includes "" |
| Text.EmptyTermMatches | src/components/notes.tsx:78-80 | with an empty term every title, content and tag list matches |
| Text.Trim | src/components/notes.tsx:89 | `trim` removes only white space, from both ends, and leaves a slice that neither starts nor ends with white space; it is empty exactly when the input is all white space |
| Text.TrimIdempotent | src/components/notes.tsx:93 | trimming a trimmed string changes nothing |
| Text.TrimSubset | src/components/notes.tsx:93 | every character of the trimmed string occurs in the input |
| Text.Split | src/components/notes.tsx:93 | `split(',')` yields at least one piece and no piece contains the separator |
| Text.JoinSplit | src/components/notes.tsx:93 | joining the pieces with the separator gives back the input |
| Arrays.Filter | src/components/search.tsx:144-154 | the result is no longer than the input and every kept element satisfies the predicate |
| Arrays.FilterMembers | src/components/notes.tsx:77-83 | an element is kept exactly when it is in the input and satisfies the predicate |
| Arrays.FilterCount | src/components/notes.tsx:110 | a kept element keeps its multiplicity; a dropped one has none |
| Arrays.FilterIsSubseq | src/components/notes.tsx:110 | filtering keeps the input's order |
| Arrays.FilterPartition | src/components/notes.tsx:85-86 | filtering by a predicate and by its negation splits the multiset of the input |
| Arrays.Find | src/components/notes.tsx:114 | `find` gives the first index whose element satisfies the predicate, and None exactly when no element does |
| Arrays.SortBy | src/components/search.tsx:157 | the sorted sequence is as long as the input |
| Arrays.SortByPermutes | src/components/search.tsx:157 | sorting is a permutation |
| Arrays.SortBySorted | src/components/search.tsx:157 | the sorted sequence is ordered by the key |
| Arrays.SortByStable | src/components/search.tsx:157 | elements with equal keys keep their relative order |
| Arrays.SortArrayBy | src/components/events.tsx:624-625 | sorting an array in place leaves exactly the functional stable sort of its old contents |
| Search.MatchesQuery | src/components/search.tsx:145-148 | the empty query matches every item |
| Search.Keep | src/components/search.tsx:144-154 | an empty query with the filters "all" and "All" keeps every item |
| Search.PerformSearch | src/components/search.tsx:143-159 | the results are never more than the items |
| Search.SearchCount | src/components/search.tsx:144-157 | each item occurs in the results as often as in the data when it passes the query, type and category tests, otherwise not at all |
| Search.SearchRanked | src/components/search.tsx:157 | results are in non-increasing relevance |
| Search.SearchStable | src/components/search.tsx:157 | results of equal relevance keep their order in the data |
| Search.ResultsMatch | src/components/search.tsx:145-153 | every result matches the query, has the selected type unless "all" and the selected category unless "All" |
| Search.FoundIff | src/components/search.tsx:144-154 | an item is found exactly when it is in the data and passes the three tests |
| Search.EmptyQueryKeepsAll | src/components/search.tsx:144-157 | with an empty query and both filters open the results hold exactly the data |
| Search.ItemIcon | src/components/search.tsx:171-182 | the search icon is used exactly for a type other than note, task and event |
| Search.ItemColor | src/components/search.tsx:184-195 | the grey tint is used exactly for a type other than note, task and event |
| Search.IconAndTintAgree | src/components/search.tsx:171-195 | icon and tint pick the same type: file/blue, check/green, calendar/orange |
| Search.SearchView.constructor | src/components/search.tsx:120-125 | an empty query, filters "all" and "All", no results, nothing pending |
| Search.SearchView.RunEffect | src/components/search.tsx:127-141 | a non-blank query arms the timer and shows "searching"; a blank one clears the results and the searched flag at once |
| Search.SearchView.SetQuery | src/components/search.tsx:161-163 | the same query changes nothing; a new blank one clears the results and the searched flag; a new non-blank one arms the timer and shows "searching", keeping the old results while it is pending; the view invariant is kept |
| Search.SearchView.SetFilter | src/components/search.tsx:310 | the same tab changes nothing; a new tab re-runs the effect: with a blank query the results clear, otherwise the timer is armed and the old results stay until it fires; the invariant is kept |
| Search.SearchView.SetCategory | src/components/search.tsx:325 | the same category changes nothing; a new one re-runs the effect as a new tab does; the invariant is kept |
| Search.SearchView.FireTimer | src/components/search.tsx:130-134 | when the timer fires the results become the search of the current query and filters, and the searching flag drops; without an armed timer nothing changes |
| Search.SearchView.ClearSearch | src/components/search.tsx:165-169 | the query and results are emptied, the searched flag dropped and no timer stays armed; the searching flag is left as it was |
| Notes.FilteredNotes | src/components/notes.tsx:77-83 | a note is shown exactly when it matches the term and the category, in the original order |
| Notes.EmptyFilterKeepsAll | src/components/notes.tsx:77-83 | an empty term with "All" shows every note |
| Notes.PinnedNotes | src/components/notes.tsx:85 | the pinned section holds only filtered notes that are pinned |
| Notes.RegularNotes | src/components/notes.tsx:86 | the other section holds only filtered notes that are not pinned |
| Notes.PinnedRegularPartition | src/components/notes.tsx:85-86 | pinned and regular notes split the filtered notes: one has every pinned note, the other every unpinned one, each in order |
| Notes.ParseTags | src/components/notes.tsx:93 | there are never more tags than comma-separated pieces, and no tag is empty |
| Notes.ParseTagsClean | src/components/notes.tsx:93 | every parsed tag is non-empty, trimmed and free of commas |
| Notes.ParseTagsMembers | src/components/notes.tsx:93 | the parsed tags are exactly the non-empty trimmed pieces, in order |
| Notes.CreateNote | src/components/notes.tsx:88-101 | with a blank title or content nothing changes; otherwise the new note, unpinned and dated today, is put first, the form resets to its defaults and the dialog closes |
| Notes.CreatedNoteIsRegular | src/components/notes.tsx:95 | a new note is listed among the regular notes |
| Notes.TogglePin | src/components/notes.tsx:103-107 | exactly the notes with that id flip their pin flag; every other note is unchanged |
| Notes.TogglePinTwice | src/components/notes.tsx:103-107 | toggling the pin twice restores the list |
| Notes.TogglePinKeepsOthers | src/components/notes.tsx:103-107 | toggling changes only the pin flag of a note |
| Notes.DeleteNote | src/components/notes.tsx:109-111 | exactly the notes with that id are removed; the rest keep their order |
| Notes.DeleteNoteCount | src/components/notes.tsx:109-111 | another note keeps its multiplicity |
| Notes.ColorClasses | src/components/notes.tsx:113-116 | a palette colour gives its own classes, any other name the grey fallback |
| Notes.ColorFallbackIff | src/components/notes.tsx:113-116 | the grey fallback is used exactly for a name outside the palette |
| Tasks.StatusName | src/components/tasks.tsx:87 | the status names are "pending", "in-progress" and "completed" |
| Tasks.StatusNameInjective | src/components/tasks.tsx:87 | distinct statuses have distinct names |
| Tasks.StatusFor | src/components/tasks.tsx:165 | completed exactly at 100, in progress above 0 otherwise, pending at 0 or below |
| Tasks.ConsistentMeans | src/components/tasks.tsx:163-166 | in a consistent task, completed is the completed status and implies progress 100 |
| Tasks.FilteredTasks | src/components/tasks.tsx:103-107 | a task is listed exactly when it has the selected status and category (or "all"/"All"), in order |
| Tasks.CountStatus | src/components/tasks.tsx:109-113 | a count never exceeds the number of tasks |
| Tasks.CountsSum | src/components/tasks.tsx:109-113 | the pending, in-progress and completed counts add up to the number of tasks |
| Tasks.RoundedPercent | src/components/tasks.tsx:115 | the nearest integer to 100c/n, halves rounded up, between 0 and 100 |
| Tasks.CompletionRate | src/components/tasks.tsx:115 | undefined (NaN) exactly for an empty board; otherwise the rounded completed percentage |
| Tasks.CompletionRateExtremes | src/components/tasks.tsx:115 | all completed gives 100, none completed gives 0 |
| Tasks.CreateTask | src/components/tasks.tsx:117-140 | a blank title changes nothing; otherwise a pending task at 0 % with the form's fields goes first and the form resets |
| Tasks.CreateTaskConsistent | src/components/tasks.tsx:117-140 | creating keeps every task's status, flag and progress in agreement |
| Tasks.ToggleTask | src/components/tasks.tsx:142-153 | the toggled task becomes completed at 100 % or pending at 0 %; others are unchanged |
| Tasks.ToggleTaskConsistent | src/components/tasks.tsx:142-153 | toggling keeps every task consistent |
| Tasks.ToggleTwice | src/components/tasks.tsx:142-153 | toggling twice restores a task whose progress was 0 or 100 |
| Tasks.UpdateTaskProgress | src/components/tasks.tsx:159-170 | the chosen task gets the progress and the status and flag it implies; others are unchanged |
| Tasks.UpdateTaskProgressConsistent | src/components/tasks.tsx:159-170 | setting progress keeps every task consistent |
| Tasks.UpdateTaskProgressIdempotent | src/components/tasks.tsx:159-170 | setting the same progress twice is setting it once |
| Tasks.DeleteTask | src/components/tasks.tsx:155-157 | exactly the tasks with that id are removed; the rest keep their order |
| Tasks.DeleteTaskConsistent | src/components/tasks.tsx:155-157 | deleting keeps every task consistent |
| Tasks.GetPriorityConfig | src/components/tasks.tsx:172-174 | the entry with that value, else the second entry |
| Tasks.UnknownPriorityIsMedium | src/components/tasks.tsx:172-174 | an unknown priority is shown as "Medium" |
| Tasks.SampleBoard | src/components/tasks.tsx:23-79 | the sample tasks are consistent, one is completed and the rate is 20 % |
| Clock.Decimal | src/components/events.tsx:40-41 | `toString` of a natural number gives at least one character, all digits |
| Clock.PadStart | src/components/events.tsx:40-41 | `padStart` reaches the width by filling on the left and keeps the string as its suffix |
| Clock.TwoDigitsPadStart | src/components/events.tsx:40-41 | a number below 100, stringified and padded to two, is its tens digit then its units digit |
| Clock.ParseClock | src/components/events.tsx:335 | an accepted time is "HH:mm" with a value from 0 to 1440 ("24:00" alone reaching 1440) |
| Clock.FormatClock | src/components/events.tsx:39-43 | the formatted time has five characters with ':' in the middle |
| Clock.FormatClockFields | src/components/events.tsx:39-43 | the formatted time shows the hour and the minute of the day in two digits each |
| Clock.ParseFormat | src/components/events.tsx:39-43 | reading a formatted time gives back its minute |
| Clock.FormatParse | src/components/events.tsx:39-43 | formatting what a time other than "24:00" reads as gives back that time |
| Calendar.LeapsStep | src/components/events.tsx:625 | the closed-form leap-year count grows by one exactly after a leap year |
| Calendar.DaysBeforeYearStep | src/components/events.tsx:625 | consecutive years are a year's length apart |
| Calendar.DaysBeforeYearMono | src/components/events.tsx:625 | a later year starts after every day of an earlier one |
| Calendar.DaysBeforeMonthMono | src/components/events.tsx:625 | a later month starts after every day of an earlier one |
| Calendar.DayNumberOrdered | src/components/events.tsx:625 | calendar order is day-number order |
| Calendar.DayNumberInjective | src/components/events.tsx:625 | distinct valid dates have distinct day numbers |
| Calendar.ParseIsoDate | src/components/events.tsx:625 | an accepted date is a valid ten-character "YYYY-MM-DD" |
| Calendar.FormatIsoDate | src/components/events.tsx:625 | a valid date is written as ten characters, "YYYY-MM-DD" with '-' at positions 4 and 7 |
| Calendar.ParseFormatIsoDate | src/components/events.tsx:625 | every valid date, written as "YYYY-MM-DD", is accepted and read back as the date written |
| Calendar.FormatParseIsoDate | src/components/events.tsx:625 | every accepted string is exactly the "YYYY-MM-DD" writing of the date it reads as |
| Calendar.ParseLocalDateTime | src/components/events.tsx:625 | an accepted string has a valid date, a 'T' and a valid time, and reads as that date's day in minutes plus a time of day of at most 24:00 |
| Calendar.ParseFormatLocalDateTime | src/components/events.tsx:625 | a valid date, 'T' and a valid "HH:mm", with or without ":00", is accepted and reads as that day's minutes plus that time |
| Calendar.WeekDay | src/components/events.tsx:55 | `getDay` is between 0 and 6, and 0 (Sunday) exactly on the days one past a multiple of seven |
| Calendar.KnownWeekDays | src/components/events.tsx:53-59 | 2000-01-01 is a Saturday and 2024-01-15 a Monday |
| Calendar.WeekStart | src/components/events.tsx:53-59 | the week start is a Sunday at most six days back |
| Calendar.WeekStartLaws | src/components/events.tsx:53-65 | the week start is idempotent and moves with whole weeks |
| Calendar.ShiftByDays | src/components/events.tsx:47-51 | whole days added keep the time of day |
| Calendar.JsDate.GetDay | src/components/events.tsx:55 | `getDay` is between 0 and 6 |
| Calendar.JsDate.ShiftDate | src/components/events.tsx:49 | `setDate(getDate() + n)` moves n days and keeps the time of day |
| Calendar.JsDate.SetMinutes | src/components/events.tsx:336 | `setMinutes` replaces the minutes field, carrying into hours and days |
| Calendar.AddDays | src/components/events.tsx:47-51 | a new date n days later at the same time |
| Calendar.StartOfWeek | src/components/events.tsx:53-59 | a new date on the Sunday on or before, at the same time |
| Calendar.AddWeeks | src/components/events.tsx:61-65 | a new date 7n days later at the same time |
| Calendar.WeekDays | src/components/events.tsx:250 | seven new dates, the i-th i days after the week's start |
| Events.DurationInput | src/components/events.tsx:495 | `parseInt(v) \|\| 60`: a non-zero number is kept, NaN and 0 become 60 |
| Events.AppendEvent | src/components/events.tsx:265-287 | a blank title changes nothing; otherwise the form's event, without attendees and not recurring, is appended |
| Events.DeleteEvents | src/components/events.tsx:289-291 | exactly the events with that id are removed; the rest keep their order |
| Events.DeleteEventsCount | src/components/events.tsx:289-291 | another event keeps its multiplicity |
| Events.TypeIcon | src/components/events.tsx:260-263 | the icon of the type with that value, else the calendar icon |
| Events.TypeIconFallback | src/components/events.tsx:260-263 | an unknown type gets the calendar icon |
| Events.ColorConfig | src/components/events.tsx:256-258 | a listed colour is itself, any other name gets the first colour, blue |
| Events.Y2kDayIsJan1st2000 | src/components/events.tsx:335 | the day number used for the card's start is 2000-01-01 |
| Events.CardStartParses | src/components/events.tsx:335 | the card's start string parses to the typed "HH:mm" on 2000-01-01, a bare "HH" to "HH:00", and to an invalid date otherwise |
| Events.CardStartClock | src/components/events.tsx:335 | the minute of the card's start, None exactly when the start is invalid |
| Events.CardStartClockMeans | src/components/events.tsx:335 | that minute is what the typed time reads as |
| Events.MinuteAfter | src/components/events.tsx:335-336 | adding the duration by `setMinutes` ends at the sum's minute of the day |
| Events.EndTime | src/components/events.tsx:335-336 | the card shows start plus duration in "HH:mm", wrapping past midnight, or "NaN:NaN" for an invalid start |
| Events.StartKey | src/components/events.tsx:625 | the key of an event whose start parses is its day in minutes plus a time of day of at most 24:00 |
| Events.StartKeyOrdered | src/components/events.tsx:625 | an earlier date, or the same date at an earlier time, has a smaller start key |
| Events.ListChronological | src/components/events.tsx:624-625 | after sorting, no event comes after one that starts later |
| Events.EventsView.constructor | src/components/events.tsx:230-248 | the sample events, the week of "now" starting on a Sunday, the default form |
| Events.EventsView.CreateEvent | src/components/events.tsx:265-287 | the array becomes the list with the form's event appended, and the form resets and closes, unless the title is blank |
| Events.EventsView.DeleteEvent | src/components/events.tsx:289-291 | the array becomes the list without that id; the week, the form and the dialog flag are unchanged |
| Events.EventsView.MoveWeek | src/components/events.tsx:587-590 | "Previous" and "Next" move the shown week by seven days; it still starts on a Sunday; the events, the form and the dialog flag are unchanged |
| Events.EventsView.ShowList | src/components/events.tsx:624-625 | the event array is sorted in place by start |
| Events.ListViewLaws | src/components/events.tsx:624-625 | the list view is a permutation of the events, ordered by start and stable |
| Timetable.CellAt | src/components/events.tsx:726 | a cell exists exactly when its day and slot are in the schedule |
| Timetable.UpdateNotes | src/components/events.tsx:293-307 | only that cell's notes change; a missing day is the TypeError (None), a missing slot becomes a cell with only notes |
| Timetable.UpdateSameNotes | src/components/events.tsx:293-307 | writing back the current notes changes nothing |
| Timetable.UpdateTwice | src/components/events.tsx:293-307 | the second of two writes to the same cell wins |
| Timetable.UpdateKeepsWellFormed | src/components/events.tsx:293-307 | an update keeps every grid cell present |
| Timetable.Classification | src/components/events.tsx:727-728 | a break is empty and never shows the hint; the hint is exactly a subject other than the break without notes |
| Timetable.TimetableEditor.constructor | src/components/events.tsx:235-237 | the sample timetable, no cell being edited, empty notes |
| Timetable.TimetableEditor.EditCell | src/components/events.tsx:309-312 | the dialog opens for that cell, holding its notes |
| Timetable.TimetableEditor.ClickCell | src/components/events.tsx:737 | clicking a break does nothing; any other cell opens the editor |
| Timetable.TimetableEditor.TypeNotes | src/components/events.tsx:806 | typing replaces the draft notes only |
| Timetable.TimetableEditor.SaveNotes | src/components/events.tsx:314-320 | the open cell's notes become the draft, the dialog closes and the draft clears |
| Timetable.TimetableEditor.CancelEdit | src/components/events.tsx:810 | the dialog closes and the timetable is unchanged |
| Timetable.TimetableEditor.EditAndSave | src/components/events.tsx:309-320 | opening a cell and saving without typing leaves the timetable as it was |
| Theme.Resolved | src/hooks/useTheme.ts:15-22 | the theme class is "light" or "dark": the theme itself, or for "system" the preference |
| Theme.Apply | src/hooks/useTheme.ts:12-22 | after the effect the root has exactly one theme class, the resolved one, and every other class is kept |
| Theme.ApplyIdempotent | src/hooks/useTheme.ts:12-22 | running the effect twice is running it once |
| Theme.Toggle | src/hooks/useTheme.ts:44-56 | light becomes dark and dark light; "system" becomes the opposite of the preference and never stays "system" |
| Theme.ToggleFlipsAppearance | src/hooks/useTheme.ts:44-56 | every toggle changes the shown theme class |
| Theme.ToggleTwice | src/hooks/useTheme.ts:44-56 | toggling twice restores light or dark, and from "system" settles on the class that was shown |
| Theme.ThemeHook.constructor | src/hooks/useTheme.ts:7-23 | the stored theme or "system", with the effect applied |
| Theme.ThemeHook.SetTheme | src/hooks/useTheme.ts:9-23 | the theme is set and the root shows the resolved class |
| Theme.ThemeHook.SetLightTheme | src/hooks/useTheme.ts:40 | the theme becomes light whatever it was |
| Theme.ThemeHook.SetDarkTheme | src/hooks/useTheme.ts:41 | the theme becomes dark whatever it was |
| Theme.ThemeHook.SetSystemTheme | src/hooks/useTheme.ts:42 | the theme becomes "system" whatever it was |
| Theme.ThemeHook.ToggleTheme | src/hooks/useTheme.ts:44-56 | the theme becomes its toggle, and the root shows a different class than before |
| Theme.ThemeHook.PreferenceChanged | src/hooks/useTheme.ts:26-38 | under "system" the class follows the new preference; otherwise nothing changes, and the root still shows the right class |
| ClassList.Add | src/hooks/useTheme.ts:19-21 | `classList.add` adds the class and keeps every other |
| ClassList.RemoveThemeClasses | src/hooks/useTheme.ts:13 | `classList.remove("light", "dark")` drops exactly the two theme classes |
| ClassList.RemoveDark | src/App.tsx:116 | `classList.remove("dark")` drops exactly "dark" |
| App.InitialIsDark | src/App.tsx:99-105 | a stored "dark" gives true; another non-empty value false; null or "" the preference; no window false |
| App.StoredValue | src/App.tsx:112-118 | the stored value is non-empty, and "dark" exactly for a dark flag |
| App.PersistRoundTrip | src/App.tsx:99-119 | reading back the stored value gives the flag that was stored, whatever the preference |
| App.RenderContent | src/App.tsx:133-247 | each known id shows its page; any other id the dashboard |
| App.RenderEveryPage | src/App.tsx:38-87 | every page has its id, that id shows it, and the two menus offer exactly the known ids |
| App.AppShell.constructor | src/App.tsx:98-119 | the dashboard and the initial flag, then the persist effect |
| App.AppShell.Persist | src/App.tsx:110-119 | "dark" is added and stored for a dark flag, removed with "light" stored otherwise; other classes are kept |
| App.AppShell.ToggleTheme | src/App.tsx:121-123 | the flag is negated and persisted |
| App.AppShell.ToggleThemeTwice | src/App.tsx:121-123 | two toggles restore the flag, the stored value and the dark class |
| App.AppShell.Remount | src/App.tsx:99-105 | mounting again over the same storage reads back the same flag |
| App.AppShell.HandleSectionChange | src/App.tsx:125-131 | the section is set and shown, and the mobile sidebar closes exactly on a phone |

## Left out

- Timers: the 300 ms `setTimeout` and `clearTimeout` become the `timerArmed` flag and the `FireTimer` method; delays are not modelled.
- Randomness: the `Math.random` "Found in" figure is not modelled.
- `highlightSearchTerm`: it builds an unescaped regular expression from user input, and the JavaScript regex engine is not modelled.
- Relevance floats: relevance is integer hundredths, which keeps the order `b.relevance - a.relevance` gives.
- Text.LowerChar: lower-cases ASCII letters only; full Unicode case mapping is not modelled.
- Tasks.RoundedPercent: computed on exact rationals. The floating-point rounding of `c / n * 100` before `Math.round` is not modelled. For some inputs where 100c/n is exactly a half, the two can differ.
- Locale and time-zone formatting: `toLocaleDateString`, `toISOString` and `isSameDay(parseISO(...))` are not modelled. "Today" is a "yyyy-MM-dd" parameter, and `getEventsForDate` is not modelled.
- The overdue check against `new Date()` is not modelled.
- Calendar.ParseLocalDateTime: covers the "YYYY-MM-DDTHH:mm" form, with or without ":00", as local time. Out of scope:
  - daylight-saving gaps;
  - seconds other than ":00" and milliseconds;
  - years outside 0000-9999;
  - the engine-specific fallback parsers for other shapes.
- Events.EndTime and Calendar.JsDate.SetMinutes: date arithmetic is exact for every integer. Two JavaScript behaviours are not modelled:
  - TimeClip: a result beyond 8.64e15 ms makes the `Date` invalid, and the card would show "NaN:NaN"; above 2^53 ms the float also loses precision;
  - daylight-saving transitions in local time, which shift the wall-clock end of an event that spans one.
- Events.ShowList: requires every start to parse. With an invalid date the comparator returns NaN, and the resulting order is implementation-defined.
- Events.DurationInput: `parseInt` itself is an input (its result, or None for NaN); its digit scanning is not modelled.
- Timetable.TimetableEditor.EditCell: requires a cell on the grid, which is what the rendered table offers. Clicking a missing day would throw a TypeError.
- The sample timetable contents are not modelled. The sample notes, search data and events are parameters. The sample tasks are modelled in `Tasks.SampleTasks`.
- CSS class strings and icons are not modelled. Colour lookups return the colour's name, and icons are constructors.
- The file upload (an `alert` stub) is I/O only and is not modelled.
- Browser APIs are not modelled: `localStorage`, `window.matchMedia` and the sidebar context are inputs or fields. The document root's class list is a field of strings.
- `useLocalStorage` is not part of this model; the hook's stored theme is a constructor input.
- Media-query listeners: registering and removing them is not modelled; a preference change is the `PreferenceChanged` method.
- JSX rendering and layout are not modelled. `renderContent` returns a `Page` value.
- src/App_backup.tsx is not part of this model. It repeats the logic of src/App.tsx.
