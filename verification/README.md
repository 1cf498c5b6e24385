# Countdown: a Dafny model of the countdown message

`countdown.py` posts one chat message each run. It counts down to a fixed list of
events, each a title, an ISO date and an emoji. For every event it:

- parses the date with `date.fromisoformat`;
- takes the number of days from today to that date;
- writes one French line, with four cases:
  - `J-n avant **title** emoji (DD/MM/YYYY)` when the event is more than a day away;
  - `J-1 … (demain • DD/MM/YYYY)` when it is tomorrow;
  - `🎉 **C'EST AUJOURD'HUI !** title emoji` on the day itself;
  - `title emoji : **passé** (le DD/MM/YYYY)` once it has passed.

Every line gets a `• ` prefix. The lines are joined with newlines into the
description of one embed.

The model keeps that computation and makes "today" a parameter. It is organised
as follows:

- `Wrappers`: `Option` and `Result`.
- `Digits`: decimal digit strings, both zero-padded and plain, with their values.
- `Calendar`: proleptic Gregorian dates from year 1 to 9999.
  - The day number of a date uses the same closed forms as Python's `date.toordinal`.
  - It is checked against a year-by-year and month-by-month count.
  - `DaysBetween` is `(d - today).days`.
  - `NextDay` and `Advance` step through the calendar.
- `DateText`: the ISO `YYYY-MM-DD` form that `fromisoformat` accepts, and the
  `%d/%m/%Y` form the messages show, each with a parser that inverts it.
- `TextLines`: joining with a separator and splitting back.
- `Collect`: mapping a partial function over a list, stopping at the first failure.
- `Countdown`:
  - the events;
  - the four cases;
  - the message text;
  - the bullet lines;
  - the joined description.

A rejected date makes `fromisoformat` raise, which ends the script before
anything is posted. The model returns the index and text of the first such
event instead.

Only the text message of `countdown.py`, in French, is modelled.

## Model

| member | source | states |
|---|---|---|
| Countdown.ConfiguredDatesParse | countdown.py:15-18 | Both configured date strings are accepted, as 22 August 2025 and 30 August 2025, so the configured run never aborts |
| DateText.ParseIso | countdown.py:27 | Whatever `fromisoformat` accepts is a real calendar date between years 1 and 9999 |
| DateText.IsoAcceptsExactly | countdown.py:27 | A string is accepted exactly when it is the `YYYY-MM-DD` spelling of some real date, so malformed text, month 13, 31 April and the like are all rejected |
| DateText.ParseIsoSound | countdown.py:27 | An accepted string is exactly the ISO spelling of the date it yields, so no other text is accepted for that date |
| DateText.IsoRoundTrip | countdown.py:27 | Every date from year 1 to 9999 written as `YYYY-MM-DD` parses back to itself |
| DateText.LeapDayAccepted | countdown.py:27 | `YYYY-02-29` is accepted exactly in Gregorian leap years |
| DateText.IsoInjective | countdown.py:27 | Two dates with the same ISO spelling are the same date |
| Calendar.DaysInMonth | countdown.py:27-28 | Every month has 28 to 31 days, and exactly February of a leap year has 29 |
| Calendar.OrdinalCounts | countdown.py:28 | `Ordinal`, the day number `toordinal` gives and the subtraction relies on, counts days one at a time: the days of all earlier years, then of the earlier months, then the day of the month. It runs from 1 on 1 January of year 1, and only there, to 3652059 on 31 December 9999 |
| Calendar.DaysBeforeYearCounts | countdown.py:28 | The closed-form count of days before a year equals the sum of the lengths of all earlier years (365, or 366 in leap years) |
| Calendar.DaysBeforeMonthCounts | countdown.py:28 | The table of days before a month equals the sum of the lengths of the earlier months of that year |
| Calendar.DaysBeforeNextYear | countdown.py:28 | Each year adds exactly its own length to the day count |
| Calendar.OrdinalOrder | countdown.py:28 | Day numbers order dates the way the calendar does and give distinct dates distinct numbers |
| Calendar.DaysBetween | countdown.py:28 | The day difference is negative exactly when the date is before today, zero exactly when it is today, and positive exactly when it is after |
| Calendar.NextDay | countdown.py:28 | The day after a date is a real date one day number later, and only 31 December 9999 has none |
| Calendar.Advance | countdown.py:28 | Stepping k days forward, when possible, lands on a real date k day numbers later |
| Calendar.DaysBetweenCountsSteps | countdown.py:28 | For a date not before today, the day difference is the number of single-day steps from today that reach it |
| Calendar.PastDaysCountSteps | countdown.py:28 | For a date before today, the day difference is negative, and minus it is the number of single-day steps from that date that reach today |
| Countdown.NextDayShiftsDelta | countdown.py:28 | When today moves forward one day, every event's day difference drops by exactly one |
| Countdown.Classify | countdown.py:29-36 | The four cases are exclusive and cover every difference; a count is shown only for a difference above one, and then the count is that difference |
| Countdown.CaseOfDates | countdown.py:28-36 | In calendar terms: a count of n exactly when the event is n ≥ 2 days ahead; tomorrow exactly when the event is the next day; the celebration exactly on the event's date; past exactly when the date is before today |
| Countdown.MessageReadsBack | countdown.py:29-36 | `Message`, the four-way rendering, read back: a message for an event n ≥ 1 days ahead opens with the count `J-n`. Only a future event or a title that itself opens with `J-` gives a count. Every message except the same-day one ends with the event's date, which reads back as that date. Tomorrow's ends `(demain • date)` and a past one ends `(le date)` |
| Countdown.TodayNamesNoDate | countdown.py:33-34 | The same-day message does not depend on the event's date |
| Countdown.PastShowsNoCount | countdown.py:35-36 | A past message is the same however long ago the event was, so it never shows a negative count |
| DateText.DmyFields | countdown.py:30 | `FormatDmy`, i.e. `strftime('%d/%m/%Y')`, writes the day, month and year as all-digit fields of widths 2, 2 and 4, separated by slashes, each reading back as that field's value |
| DateText.DmyRoundTrip | countdown.py:30 | The `DD/MM/YYYY` text of every date reads back as that same date |
| DateText.ParseDmySound | countdown.py:30 | Text read as a `DD/MM/YYYY` date is exactly that date's spelling |
| DateText.DmyOfIso | countdown.py:27-30 | The date shown in a message has the same day, month and year digits as the configured ISO text, reordered |
| Digits.PaddedValue | countdown.py:30 | A number written zero-padded to a width that can hold it is all digits and reads back as that number |
| Digits.PaddedOfValue | countdown.py:27 | A digit string is the zero-padded spelling of its own value at its own width |
| Digits.DecimalValue | countdown.py:30 | The count in `J-n` is written without leading zeros and reads back as n |
| Digits.DecimalOfValue | countdown.py:30 | A digit string without leading zeros is the plain spelling of its value |
| Countdown.EventLine | countdown.py:26-37 | An event has a line exactly when its date text is accepted, and the line opens with the `• ` bullet |
| Collect.MapUntilNone | countdown.py:25-37 | Mapping over the events succeeds exactly when every event has a line. On success it gives one line per event, in order. Otherwise it reports the first event without one |
| Collect.CollectAll | countdown.py:25-37 | The appending loop produces the same result as the mapping |
| Countdown.Lines | countdown.py:25-37 | Either every date parses and there is one line per event, in event order, each that event's line; or the result names the first event whose date text is rejected, with its text |
| Countdown.BuildLines | countdown.py:25-37 | The `for` loop computes `Lines` |
| TextLines.Split | countdown.py:43 | Splitting yields at least one piece, and no piece holds the separator |
| TextLines.JoinSplit | countdown.py:43 | The pieces `Split` yields are the text's own: joining them with the separator, as `"\n".join` does, gives back exactly the text that was split |
| TextLines.SplitJoin | countdown.py:43 | `Join`, i.e. `"\n".join`, is undone by splitting: joining pieces that hold no separator and splitting the result on that separator gives back the same pieces |
| Countdown.MessageNoNewline | countdown.py:29-37 | A line holds no newline unless its title or emoji does |
| Countdown.Describe | countdown.py:25-43 | The description exists exactly when every date parses, and is then the event lines joined with newlines. Otherwise the run stops at the first event whose date is rejected, with that event's text. With no events the description is empty |
| Countdown.JoinedLinesSplitBack | countdown.py:37-43 | When every date parses and no title or emoji holds a newline, the joined lines split back into exactly one line per event, in order, each that event's line |
| Countdown.EveOfSigning | countdown.py:15-37 | On 21 August 2025 the signing reads `• J-1 avant **Signature du bail** 📝 (demain • 22/08/2025)` |
| Countdown.NineDaysBeforeMove | countdown.py:15-37 | On 21 August 2025 the move reads `• J-9 avant **Emménagement** 🏡 (30/08/2025)` |
| Countdown.AfterTheMove | countdown.py:15-37 | On 4 September 2025 the move reads `• Emménagement 🏡 : **passé** (le 30/08/2025)` |
| Countdown.DayOfSigning | countdown.py:15-37 | On 22 August 2025 the signing reads `• 🎉 **C'EST AUJOURD'HUI !** Signature du bail 📝` |

## Left out

- Today's date is a parameter. Resolving it in Europe/Paris through `zoneinfo`, with the host's local date as the fallback (lines 6-10 and 21-23), depends on the clock and the time-zone database.
- The webhook URL comes from the environment (line 12). It is outside the computation.
- The JSON payload, the `utcnow` timestamp, the HTTP POST and `raise_for_status` (lines 39-50) are I/O. The description string is as far as the model goes.
- Python's `datetime` library is not part of this model. Its calendar rules are written out from the proleptic Gregorian calendar of ISO 8601, within years 1 to 9999.
- `DateText.ParseIso` models the `YYYY-MM-DD` form only. That is all `fromisoformat` accepts before Python 3.11; later versions also accept basic and week-date forms, which are not modelled.
- `DateText.FormatDmy` always writes the year with four digits. On glibc, `%Y` writes years before 1000 without leading zeros. So for years 1 to 999 the model writes four year digits where the script writes fewer, and the model's line differs from the script's.
- An error is only which event failed and its text. Python's exception message and traceback are not modelled.
- The French text and the emoji are kept as plain strings. How the chat client renders the `**…**` markup is not modelled.
- `Countdown.JoinedLinesSplitBack`: the split-back guarantee assumes no title or emoji holds a newline. A newline inside one would make that line span two lines, as it would in the script.
