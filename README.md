# Event scheduler: event store, conflict check and views

A Dafny model of the core of a small console event organiser (`bot.py`).
The organiser keeps a list of events. Each event is four strings: name,
date (`YYYY-MM-DD`), start time (`HH:MM`) and category. It can:

- check a new event against the stored ones for a time conflict;
- append the new event, asking for confirmation on a conflict;
- list the events sorted by date and time;
- list the events of the next seven days, or of today;
- delete an event by the number the user types.

Modules, one per component of the program:

- `Text` (`text.dfy`): Python's `<` on strings; fixed-width decimal fields.
- `Calendar` (`calendar.dfy`): strict `%Y-%m-%d` / `%H:%M` parsing and
  formatting, a lenient reading of both formats with one- or two-digit fields
  as `strptime` accepts them, proleptic Gregorian day numbers,
  `date + timedelta(days=n)`.
- `Events` (`events.dfy`): the record, its sort key `(date, time)`, and the
  proof that text order of the key is chronological order.
- `Conflict` (`conflict.dfy`): `check_conflict` as a loop, proved against the
  specification function `FirstConflict`.
- `Views` (`views.dfy`): list comprehensions, the stable `sorted`, the weekly
  and "today" views.
- `Store` (`store.dfy`): class `EventStore`. Its field `events` is the shared
  list that `add_event` appends to and the remove command pops from. Its
  field `saved` is the file content as last written.

The program's `sorted` is modelled by an insertion sort. It serves as a
reference definition and is proved sorted, a permutation and stable. A stable
sort's output is fully determined by its input, so this sort gives exactly
the list that `sorted` gives.

The model follows the code as written. In particular:

- Records have no duration. Every stored event counts as 60 minutes long, and
  every new event is checked with the default 60.
- A conflict does not fail the add. The user is asked, and the event is
  appended when the answer is "так".
- The name is not checked for being non-empty.
- A failed file write is not rolled back. In `add_event` it is not caught
  either: only ValueError is. In the remove command the bare `except`
  (bot.py:117-118) catches it and reports an error, but the `pop` has already
  happened and stays.
- Removal pops the raw list index, not the sorted position (see Findings).
- Editing, the category filter and date-range queries do not exist in the
  code.

## Model

| member | source | states |
|---|---|---|
| `Calendar.ParseDate` | bot.py:48 | a date string that is accepted names a real calendar date (month 1-12, day within the month, leap years counted) with a four-digit year |
| `Calendar.ParseTime` | bot.py:49 | `%H:%M` read strictly; specified by `ParseFormatTime`, `FormatParseTime` and `TimeTextOrder` |
| `Calendar.FormatDate` | bot.py:107 | `strftime("%Y-%m-%d")` of a date, ten characters; specified by `ParseFormatDate` and `FormatParseDate`, which make it the inverse of `ParseDate` |
| `Calendar.LenientParseDate` | bot.py:48 | `%Y-%m-%d` as `strptime` reads ASCII text: four year digits, a month and a day of one or two digits; an accepted string names a valid date |
| `Calendar.LenientParseTime` | bot.py:49 | `%H:%M` as `strptime` reads ASCII text: an hour and a minute of one or two digits, hour below 24, minute below 60 |
| `Calendar.StrictDateIsLenient` | bot.py:48 | every zero-padded date string the model accepts is read to the same date by the lenient parser |
| `Calendar.StrictTimeIsLenient` | bot.py:49 | every zero-padded time string the model accepts is read to the same minute by the lenient parser |
| `Calendar.UnpaddedDate` | bot.py:48 | "2025-3-5" and "2025-03-05" name the same date to `strptime`, though the strings differ; the strict parser refuses the first |
| `Calendar.UnpaddedTime` | bot.py:49 | "9:05" and "09:05" name the same minute to `strptime`; the strict parser refuses the first |
| `Calendar.ParseFormatDate` | bot.py:48 | every valid date with a four-digit year, written as `%Y-%m-%d`, parses back to itself |
| `Calendar.FormatParseDate` | bot.py:48 | every accepted date string is exactly the canonical `%Y-%m-%d` rendering of its date |
| `Calendar.ParseFormatTime` | bot.py:49 | every minute of the day, written as `%H:%M`, parses back to itself |
| `Calendar.FormatParseTime` | bot.py:49 | every accepted time string is exactly the canonical `%H:%M` rendering of its minute |
| `Calendar.DateStringsEqual` | bot.py:29 | two zero-padded date strings the model accepts are equal exactly when they name the same date, so on such strings the string test in the conflict loop is a date test (unpadded strings are not: see Findings) |
| `Calendar.OrdinalOrder` | bot.py:87 | day numbers order valid dates as the calendar does (year, then month, then day), and equal day numbers mean equal dates |
| `Calendar.NextDay` | bot.py:85 | the next day is a valid date whose day number is one more, across month and year ends |
| `Calendar.AddDays` | bot.py:85 | `today + timedelta(days=n)` is a valid date n day numbers later |
| `Calendar.WeekWindow` | bot.py:84-87 | `today <= d <= today + 7 days` holds exactly when d is one of the eight calendar days today, today+1, ..., today+7 |
| `Calendar.DateTextOrder` | bot.py:78 | for accepted date strings, string `<` agrees with chronological order of the dates |
| `Calendar.TimeTextOrder` | bot.py:78 | for accepted time strings, string `<` and `==` agree with the order and equality of their minutes |
| `Text.StrLt` | bot.py:78 | Python's `<` on `str`; proved irreflexive, transitive, asymmetric and total on distinct strings by `StrLtIrreflexive`, `StrLtTransitive`, `StrLtAsymmetric`, `StrLtTotal` |
| `Text.NumberOrder` | bot.py:78 | zero-padded digit fields of equal width compare as text exactly as their numbers compare |
| `Events.KeyLt` | bot.py:78 | the order of the key tuple `(date, time)`; a strict total order on distinct keys by `KeyLtIrreflexive`, `KeyLtTransitive`, `KeyLtTotal`, and chronological on well-formed records by `KeyOrderIsChronological` |
| `Events.KeyOrderIsChronological` | bot.py:78 | for well-formed records, the tuple order of `(date, time)` strings is the order of (day number, minute), and equal keys are the same moment |
| `Conflict.ConflictsWith` | bot.py:29-34 | the test of one stored record: same date string and half-open intervals that meet, the stored one 60 minutes long; specified by `TouchingIsNoConflict`, `OtherDateIsNoConflict`, `OnlyDateAndTimeMatter`, `ConflictSymmetric`, `ConflictIsSameDayOverlap` |
| `Conflict.FirstConflict` | bot.py:28-36 | the answer of the loop; specified by `FirstConflictIsFirst` (first colliding record, nothing exactly when none collides) and `FirstConflictAppend` |
| `Conflict.CheckConflict` | bot.py:23-36 | the loop returns the name of the first stored record in list order that conflicts, and nothing when none does |
| `Conflict.FirstConflictIsFirst` | bot.py:28-36 | a reported name belongs to a conflicting record with no conflicting record before it; nothing is reported exactly when no record conflicts |
| `Conflict.FirstConflictAppend` | bot.py:28-36 | on a concatenated list, the first conflict of the front part wins; otherwise the first conflict of the back part is reported |
| `Conflict.NoSilentDoubleBooking` | bot.py:51-64 | after a record is appended, a new one-hour event at its date and time is always reported as a conflict |
| `Conflict.TouchingIsNoConflict` | bot.py:32-34 | an interval ending exactly when a stored event starts, or starting exactly when it ends, is not a conflict |
| `Conflict.OtherDateIsNoConflict` | bot.py:29 | a stored record on a different date string never conflicts |
| `Conflict.OnlyDateAndTimeMatter` | bot.py:30-32 | only a stored record's date and start time matter; its name and category do not, and its length is always 60 minutes |
| `Conflict.ConflictSymmetric` | bot.py:32-34 | with both events one hour long, A conflicts with B exactly when B conflicts with A |
| `Conflict.ConflictIsSameDayOverlap` | bot.py:25-34 | for well-formed records, a conflict means the same calendar day and half-open minute intervals that share a minute |
| `Conflict.UnpaddedDateEscapesConflict` | bot.py:29 | a stored 09:00 record dated "2025-3-5" is not reported to a 09:30 candidate dated "2025-03-05", though both name the same day and the hours overlap; comparing dates reports it |
| `Conflict.SameDayConflict` | bot.py:29-34 | the corrected test of one record: the stored date names the candidate's day, however padded, and the intervals meet; it agrees with `ConflictsWith` on zero-padded records by `SameDayConflictAgrees` |
| `Conflict.FirstSameDayConflict` | bot.py:28-36 | the corrected loop answer: the first record that collides on the same calendar day; specified by `FirstSameDayConflictIsFirst`, `FirstSameDayConflictAgrees` and `SameDayNoSilentDoubleBooking` |
| `Conflict.SameDayConflictAgrees` | bot.py:29-34 | on well-formed records and zero-padded candidates, comparing dates and comparing date strings give the same verdict |
| `Conflict.FirstSameDayConflictIsFirst` | bot.py:28-36 | the corrected loop reports the name of a record that collides on the candidate's calendar day with no such record before it, and reports nothing exactly when no record collides on that day |
| `Conflict.FirstSameDayConflictAgrees` | bot.py:28-36 | on well-formed records and a zero-padded candidate date, the corrected loop gives the same answer as the loop as written |
| `Conflict.SameDayNoSilentDoubleBooking` | bot.py:28-36 | with dates compared as dates, a stored record is always reported to a one-hour candidate at its day and minute, whichever way either date is padded |
| `Views.Filter` | bot.py:87 | the list comprehension `[x for x in s if p(x)]`; specified by `FilterExact` and `FilterAppend` |
| `Views.FilterExact` | bot.py:87 | a list comprehension keeps exactly the elements that pass its test, each as many times as it occurs |
| `Views.FilterAppend` | bot.py:87 | a list comprehension keeps the input order: filtering a concatenation concatenates the filtered parts |
| `Views.SortByKey` | bot.py:78 | `sorted` by `(date, time)`, same length; specified by `SortPermutes`, `SortIsSorted`, `SortIsStable` and `SortIsChronological` |
| `Views.SortPermutes` | bot.py:78 | the sorted view holds the same records as its input, each as many times |
| `Views.SortIsSorted` | bot.py:78 | the sorted view is non-decreasing in `(date, time)` |
| `Views.SortIsStable` | bot.py:78 | for every key, the records with that key come out in their input order |
| `Views.SortIsChronological` | bot.py:78-79 | for well-formed records, the numbered list never shows a later (day, minute) before an earlier one |
| `Views.WeekFilter` | bot.py:84-87 | the comprehension `weekly`; specified by `WeekFilterExact` |
| `Views.WeekView` | bot.py:82-88 | what the weekly command lists; specified by `WeekViewExact` |
| `Views.WeekFilterExact` | bot.py:84-87 | the weekly list holds exactly the stored records dated today or within the next seven calendar days, each as many times as stored |
| `Views.WeekViewExact` | bot.py:82-88 | the weekly display is sorted and holds exactly the records in the window, with their multiplicities |
| `Views.TodayFilter` | bot.py:107-108 | the comprehension `today_events`; specified by `TodayFilterExact` |
| `Views.TodayView` | bot.py:107-109 | what the "today" command lists; specified by `TodayViewExact` |
| `Views.TodayFilterExact` | bot.py:106-108 | comparing with `strftime("%Y-%m-%d")` of today keeps exactly the records whose date parses to today |
| `Views.TodayViewExact` | bot.py:106-109 | the "today" display is sorted and holds exactly the records with today's date string, with their multiplicities |
| `Store.PopIndex` | bot.py:113-114 | `pop(k - 1)` accepts an index from -n to n-1 and addresses position `(k - 1) mod n`, so negative numbers count from the end |
| `Store.RemoveAt` | bot.py:114 | popping position i shortens the list by one, keeps the others in order, and removes one copy of the element at i |
| `Store.EventStore.constructor` | bot.py:91 | the store starts with the loaded records, which are also the file content |
| `Store.EventStore.AddEvent` | bot.py:38-68 | bad date or time: list unchanged and a format error. Conflict not confirmed: list unchanged and the first conflicting name reported. Otherwise exactly one record `{name, date, time, category}` is appended at the end, earlier records are unchanged, and the file is rewritten |
| `Store.EventStore.RemoveByNumber` | bot.py:110-118 | number k pops raw index k-1 with Python's negative indexing; an index out of range leaves the list unchanged and reports an error; otherwise the popped record is returned, the rest keep their order, and the file is rewritten |
| `Store.EventStore.RemoveDisplayed` | bot.py:110-114 | corrected removal: number k from 1 to n removes record k of the sorted list shown (its first stored copy), leaving the others in order; any other k changes nothing |
| `Store.RemovalNumberMismatch` | bot.py:111-114 | a concrete two-record list where number 1 on screen is the lecture but `pop(0)` removes the seminar |
| `Store.RemoveNumberOneOfMismatch` | bot.py:110-114 | a store loaded with Seminar 10:00 then Math Lecture 09:00: the sorted list shows the lecture first, and `RemoveByNumber(1)` removes the seminar and leaves the lecture |
| `Store.RemoveNumberZeroOfTwo` | bot.py:113-114 | a store loaded with Seminar then Math Lecture: `RemoveByNumber(0)` removes the lecture, the last stored record, and leaves the seminar |
| `Store.NumberZeroRemovesLast` | bot.py:113-114 | typing 0 pops index -1, the last stored record |
| `Store.LectureThenMeeting` | bot.py:28-36 | on an empty store, a 09:00 lecture shows no conflict; a 09:30 meeting the same day conflicts with "Math Lecture"; both then list in time order |

## Left out

- Reading and writing the JSON file (bot.py:8-21) is not modelled. The
  constructor takes the loaded records as a value: the file's list, or the
  empty list when the file is missing or unreadable. Writing the file is the
  assignment `saved := events` after each change. A write that fails (an
  exception from `json.dump`) is not modelled.
- Loaded records are assumed well-formed: they have all four fields and a
  date and time that parse strictly (zero-padded). The constructor requires
  this, and the records `AddEvent` writes always meet it. The program's own
  `strptime` also lets unpadded text such as "2025-3-5" or "9:05" through, and
  `add_event` stores it verbatim; such records are outside this invariant.
  On a hand-edited file the program would raise a KeyError or ValueError from
  any command that reads the records: the conflict check (bot.py:29-30), the
  sort key of every listing (bot.py:78, reached also by the removal command
  through bot.py:111, before its `try`), the weekly comprehension (bot.py:87)
  and the "today" comprehension (bot.py:108).
- `Views.WeekFilter` and `Views.WeekView` require every stored date to parse,
  because the program's comprehension raises ValueError (uncaught) on one that
  does not.
- `Conflict.CheckConflict` requires that the new date and time parse and that
  every stored record on that date has a time that parses. `strptime` raises
  otherwise; `add_event` always validates both before the call.
- The menu loop, `input()`, `print()`, message text and the help command
  (bot.py:90-123) are not modelled. User choices are parameters.
- `AddEvent.confirmed` stands for the answer, lower-cased, being "так". Unicode
  case folding is not modelled.
- `RemoveByNumber` and `RemoveDisplayed` take the typed number as an `int`.
  Without it, `int()` raises ValueError on non-numeric text, which the bare
  `except` reports like an index error.
- `datetime.now()` is not modelled. "Today" is a `Date` parameter.
- `strptime`'s leniency is not modelled in the store and the views. `%Y`
  takes exactly four digits there as here, but `strptime` also accepts a
  one-digit `%m`, `%d`, `%H` or `%M` (`2025-3-5`, `9:05`), a space-padded day
  (`2025-03- 5`) and any Unicode decimal digit, since its `\d` matches those.
  The ASCII one-or-two-digit forms are modelled by `Calendar.LenientParseDate`
  and `Calendar.LenientParseTime`; the space and Unicode forms are not. Since
  the program stores such text verbatim and compares the strings, it:
  (a) does not report a conflict between "2025-3-5" and "2025-03-05" (see
  Findings); (b) lists "10:00" before "9:05", and "2025-10-01" before
  "2025-9-30"; (c) never shows a stored "2026-3-5" in the "today" view on
  2026-03-05, though the weekly view, which parses the date, does.
  `strftime`'s platform handling of years below 1000 is not modelled: years
  are always written with four digits.
- Store.EventStore.AddEvent: refuses as `InvalidFormat` the unpadded dates and
  times the program accepts and stores verbatim, for the reason above.
- Conflict.CheckConflict: `new_start + timedelta(minutes=60)` (bot.py:26)
  raises OverflowError for a candidate at 23:00 or later on 9999-12-31, and so
  does `exist_start + timedelta(minutes=60)` (bot.py:32) for a stored record at
  23:00 or later on that date. The model's minutes are unbounded, so it
  reports no error there.
- Store.EventStore.AddEvent: that OverflowError is not a ValueError, so it
  passes the `except ValueError` at bot.py:67 and ends the program. The model
  instead appends the record (or reports the conflict) as for any other date.
- `today + timedelta(days=7)` raises OverflowError past 9999-12-31. Not
  modelled, because day numbers here are unbounded.
- The "фільтр" and "редагувати" commands are listed in the menu (bot.py:95)
  but not implemented. They fall through to the unknown-command branch.

## Findings

| source | as written | input that shows it | evidently intended | confidence | as-written member | corrected member |
|---|---|---|---|---|---|---|
| bot.py:111-114 | the number typed under the sorted list is used as a position in the unsorted, insertion-ordered list | stored: "Seminar" 2025-03-10 10:00, then "Math Lecture" 2025-03-10 09:00; the list shows "1. Math Lecture", the user types 1, and "Seminar" is removed | remove record k of the list just shown | high (not executed) | `Store.RemoveNumberOneOfMismatch` | `Store.EventStore.RemoveDisplayed` |
| bot.py:113-114 | numbers below 1 are passed to `pop` as negative indices | any non-empty list; the user types 0 and the last stored record is removed instead of an error | accept only the numbers 1 to n that were shown | medium (not executed) | `Store.RemoveNumberZeroOfTwo` | `Store.EventStore.RemoveDisplayed` |
| bot.py:29 | the conflict loop compares date strings, while `strptime` at bot.py:48 accepts unpadded dates that `add_event` stores verbatim | stored: "Lab" 2025-3-5 09:00; new: 2025-03-05 09:30, both the same day with overlapping hours; no conflict is reported, so the slot is double-booked | compare the dates the strings name | medium (not executed) | `Conflict.UnpaddedDateEscapesConflict` | `Conflict.FirstSameDayConflictIsFirst` |
