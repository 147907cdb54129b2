# salatime — a verified model of the prayer-time decoder and reminder scheduler

salatime fetches a mosque's prayer-time page and finds the embedded `MPT={...}`
table, which maps `YYYYMMDD` date keys to fixed-width encoded day records. It
decodes today's record into start (Athan) and Iqama times for Fajr, Zuhr, Asr,
Maghrib and Isha. It then registers a reminder job 10 minutes before each
upcoming Iqama. The process refreshes at start-up and from a 05:00 daily job.

The model has four modules:

- `Strings` (strings.dfy): Python's clamped slicing `s[i:j]`, first-occurrence search,
  and the fixed-width decimal text written by `strftime` and read back by `int()`.
- `Decoder` (decoder.dfy): `format_time` and `decode_prayer_times` as pure functions,
  with lemmas on their results.
- `Scraper` (scraper.dfy): the string half of `get_prayer_times`.
  - The two regular expressions are written as explicit scanners over `seq<char>`.
  - The dictionary is filled by a loop method (`CollectEntries`).
  - The whole lookup is a method (`GetPrayerTimes`) proved equal to a specification
    function (`TodayTimes`).
- `Scheduler` (scheduler.dfy): the job list of the `schedule` library as a class
  (`JobList`), with `schedule_notifications` and `main` as methods. Its states are
  described by functions (`Reminders`, `AfterRefresh`), whose properties are lemmas.

Modelling choices:

- The page is a parameter: `None` stands for a request that raised.
- Clock times are minutes of the day. An Iqama text is read as "HH:MM" or as
  "HH:M", the form `format_time` gives a three-character window. "Now" is seconds of the day (0 to 86399).
- A reminder that would fall on the previous day (an Iqama before 00:10) has a
  negative fire second, so it always counts as past.
- The key pattern `(\d{8}):"` matches only unquoted keys (`YYYYMMDD:"..."`). A page
  that quotes its keys yields no entries, and the lookup returns None.

## Model

| member | source | states |
|---|---|---|
| `Strings.Slice` | salatime.py:79-96 | Python slicing `data[i:j]` never fails. The length is clamped to the record, and each character is the record's character at the shifted index. |
| `Strings.IndexOf` | salatime.py:36 | The first occurrence of a character, or the length when there is none. Every earlier character differs from it. |
| `Strings.ParseDigitsOfDigits` | salatime.py:51 | Zero-padded decimal text of width w reads back as the number whenever the number fits in w digits. |
| `Strings.DigitsOfParseDigits` | salatime.py:209 | A digit string's value, padded to the string's own length, gives the string back. |
| `Decoder.FormatTime` | salatime.py:72-75 | Absent exactly for an empty slice or "0000". Otherwise one character longer, with ':' after the first two characters (or after all of them if fewer), and removing that colon gives back the slice. |
| `Decoder.FormatTimeOfUncolon` | salatime.py:72-75 | Round trip the other way: any "HH:MM" whose digits are not "0000" is the formatting of its colon-less digits. |
| `Decoder.FormatDigitWindow` | salatime.py:72-75 | A four-digit window is absent exactly when it is "0000". Otherwise it becomes "HH:MM" with the same digits. |
| `Decoder.FormatWindowShape` | salatime.py:72-75 | A window of at most four characters yields absent or a 2-5 character text containing ':'. |
| `Decoder.Decode` | salatime.py:70-98 | `decode_prayer_times`: five start/Iqama pairs read from the record. It has no contract of its own; its properties are the `Decode…` lemmas below. |
| `Decoder.DecodeAtOffsets` | salatime.py:77-98 | Every prayer's start and Iqama are `format_time` of the 4-character windows at 8/12, 20/24, 28/32, 36/40 and 44/48. |
| `Decoder.DecodeFieldShapes` | salatime.py:70-98 | Decoding is total: for any record, however short, every field is absent or a 2-5 character text containing ':'. |
| `Decoder.DecodeReadsOnlyWindows` | salatime.py:77-98 | Two records that agree on characters 8-15 and 20-51 (as far as they reach) decode alike. Characters 0-7, 16-19 and 52 onward never matter. |
| `Decoder.DecodeDigitRecord` | salatime.py:70-98 | For an all-digit record of length 52 or more, each field is absent exactly when its window is "0000". Otherwise the field is a 5-character "HH:MM" with digits around index 2. |
| `Decoder.DecodeShortRecord` | salatime.py:77-98 | A record of at most 8 characters decodes to no times at all. |
| `Decoder.FajrExample` | salatime.py:78-81 | Windows "0530"/"0540" give Fajr start "05:30" and Iqama "05:40". |
| `Scraper.BodyHere` | salatime.py:36 | The captured group of an `MPT={...}` match is non-empty and has no '}'. |
| `Scraper.MptSearch` | salatime.py:36 | A found blob is non-empty and has no '}'. |
| `Scraper.MptSearchSpec` | salatime.py:36-40 | The search fails exactly when no position has `MPT={`, one or more non-'}' characters and '}'. Otherwise it returns the group of the leftmost such position. |
| `Scraper.MptSearchSkips` | salatime.py:36 | Text before `h` at none of whose positions the pattern matches leaves the search result that of `h`. |
| `Scraper.NoMarkerNoMatch` | salatime.py:36 | Text holding no 'M' has no matching position, whatever follows it. |
| `Scraper.MptSearchFindsBlob` | salatime.py:36 | A marker followed by a non-empty '}'-free body and '}' yields exactly that body, whatever follows. |
| `Scraper.MptSearchOfPage` | salatime.py:36-40 | The same holds behind any text at none of whose positions the pattern matches. |
| `Scraper.FindEntries` | salatime.py:44 | Every entry the scan returns has an 8-digit key and a non-empty value containing no '"'. |
| `Scraper.FindEntriesOfJoin` | salatime.py:44 | Scanning `DDDDDDDD:"value"` entries separated by commas, with or without a trailing comma, returns exactly that list, repeats included. |
| `Scraper.JoinHasNoBrace` | salatime.py:36-44 | Entries whose values hold no '}' give a '}'-free body, non-empty when there is an entry. |
| `Scraper.ToMap` | salatime.py:46-47 | The dictionary's keys are exactly the keys of the entries. |
| `Scraper.ToMapLastWins` | salatime.py:46-47 | When a key repeats, the dictionary holds the value of its last occurrence. |
| `Scraper.CollectEntries` | salatime.py:43-47 | The loop that fills `mpt_data` builds exactly the dictionary `ToMap` describes. |
| `Scraper.DateKey` | salatime.py:50-51 | `strftime('%Y%m%d')` gives 8 decimal digits. |
| `Scraper.DateKeyRoundTrip` | salatime.py:51-53 | The key reads back as its date, so distinct days look up distinct entries. |
| `Scraper.GetPrayerTimes` | salatime.py:27-65 | The lookup returns what `TodayTimes` specifies. That is None after a failed request, a missing blob or a missing key, and otherwise the decoding of today's record. |
| `Scraper.TodayTimesFailsIff` | salatime.py:36-58 | For a fetched page, the result is None exactly when no position matches the blob pattern or the parsed dictionary lacks today's key. |
| `Scraper.TodayTimesOfBlob` | salatime.py:43-58 | Once the search has found the blob and the scan has listed its entries, the result is the decoding of the last entry under today's key. |
| `Scraper.TodayTimesOfPage` | salatime.py:32-61 | End to end: for a prefix at none of whose positions the pattern matches, and a blob of well-formed comma-separated entries (with or without a trailing comma), the result is the decoding of the last entry under today's key. |
| `Scraper.TodayTimes` | salatime.py:27-65 | Specification of `get_prayer_times`: None after a failed request, a missing blob or a missing key, otherwise `Decode` of today's record. It has no contract of its own; its properties are `TodayTimesFailsIff`, `TodayTimesOfBlob` and `TodayTimesOfPage`. |
| `Scheduler.ClockMinutes` | salatime.py:209 | A clock text ("HH:MM" or "HH:M") reads as a minute of the day below 1440. |
| `Scheduler.ClockText` | salatime.py:218 | `strftime('%H:%M')` gives five characters: two digits, ':', two digits. |
| `Scheduler.ClockTextRoundTrip` | salatime.py:209-218 | `strftime('%H:%M')` of a minute gives a valid clock text that reads back as that minute. |
| `Scheduler.ClockMinutesRoundTrip` | salatime.py:209-218 | Reading a clock text and formatting it again gives the same text, with a one-digit minute padded to two digits. |
| `Scheduler.ShortClockExample` | salatime.py:209-218 | "12:3" is accepted and read as 12:03, which formats as "12:03". |
| `Scheduler.FireSecond` | salatime.py:210-213 | The reminder second, Iqama minus 10 minutes, is a whole minute from -600 (the previous day) to before 23:50. |
| `Scheduler.ReminderJob` | salatime.py:218-220 | The job calls the notification for the prayer with its Iqama text, at a five-character "HH:MM". |
| `Scheduler.ReminderFor` | salatime.py:206-220 | One prayer yields at most one job, and one exactly when it is due: its Iqama is present and Iqama minus 10 minutes is after now (`Due`). |
| `Scheduler.RemindersOf` | salatime.py:204-220 | The loop over a list of prayers yields at most one job per entry of the list. |
| `Scheduler.Reminders` | salatime.py:193-220 | The day's reminders are at most five. Their full specification is `RemindersSpec`. |
| `Scheduler.ReminderJobIsReminder` | salatime.py:208-220 | For a due prayer, the job carries the prayer and its Iqama text. Its time is a five-character text that reads as Iqama minus 10 minutes, later today than now. |
| `Scheduler.ReminderTimeText` | salatime.py:212-218 | A correct reminder's time is exactly `strftime('%H:%M')` of Iqama minus 10 minutes. |
| `Scheduler.RemindersOfCorrect` | salatime.py:204-220 | Every job for a list of prayers is a correct reminder for a prayer of that list, and there are at most as many jobs as prayers. |
| `Scheduler.RemindersOfCover` | salatime.py:204-220 | A prayer gets a job exactly when it is in the list, its Iqama is present, and Iqama minus 10 minutes is strictly after now. |
| `Scheduler.RemindersOfOrdered` | salatime.py:194-220 | The jobs follow the order of the prayer list. |
| `Scheduler.RemindersSpec` | salatime.py:191-224 | At most 5 jobs, each a correct reminder (its time the "HH:MM" of Iqama minus 10 minutes). There is one for prayer p if and only if p is due. They come in Fajr, Zuhr, Asr, Maghrib, Isha order, and none is a refresh job. |
| `Scheduler.FajrReminderExample` | salatime.py:210-216 | With Fajr's Iqama at 05:40 the reminder is registered exactly while now is before 05:30, and is skipped at 05:35. |
| `Scheduler.AfterRefresh` | salatime.py:239-242 | The job list after `main` as written: unchanged after a failed fetch, exactly the day's reminders after a successful one. It has no contract of its own; see `RefreshIdempotent` and `RefreshDropsDailyJob`. |
| `Scheduler.AfterRefreshKeepingDaily` | salatime.py:239-262 | The job list after the corrected `main`: the 05:00 job, then the day's reminders. It has no contract of its own; see `RefreshKeepsDailyJob`. |
| `Scheduler.RefreshIdempotent` | salatime.py:239-242 | Running the refresh twice with the same fetch result and the same now gives the same job list. |
| `Scheduler.RefreshDropsDailyJob` | salatime.py:241-262 | As written: after start-up registers the 05:00 job, its first successful run leaves a job list without it. |
| `Scheduler.RefreshKeepsDailyJob` | salatime.py:241-262 | Corrected refresh: a 05:00 job survives failed refreshes, and every successful refresh leaves exactly one, first in the list. |
| `Scheduler.StartAfterCorrectedRefreshDoubles` | salatime.py:257-262 | The corrected `main` followed by the unchanged start-up leaves two 05:00 jobs after a successful first fetch, so start-up has to be corrected too. |
| `Scheduler.StartKeepsOneDailyJob` | salatime.py:257-262 | Corrected start-up from an empty job list leaves exactly one 05:00 job, whether the first fetch succeeds or fails. |
| `Scheduler.RefreshKeepsOneDailyJob` | salatime.py:239-252 | A list holding exactly one 05:00 job still holds exactly one after each corrected refresh, whatever the fetch gives. |
| `Scheduler.JobList.constructor` | salatime.py:8 | The `schedule` library's default job list starts empty, and no message has been sent. |
| `Scheduler.JobList.Add` | salatime.py:218-220 | Registering a job appends it and changes nothing else. |
| `Scheduler.JobList.Clear` | salatime.py:241 | `schedule.clear()` empties the job list, refresh job included. |
| `Scheduler.JobList.ScheduleOne` | salatime.py:204-220 | One pass of the loop appends the prayer's reminder exactly when its Iqama is present and Iqama minus 10 minutes is after now, and nothing otherwise. |
| `Scheduler.JobList.ScheduleNotifications` | salatime.py:191-224 | Appends exactly `Reminders(t, now)` after the existing jobs, which stay untouched. |
| `Scheduler.JobList.Refresh` | salatime.py:231-252 | `main` runs the fetch. On success it clears every job and schedules the day's reminders, so the list equals the reminders, and it sends the confirmation. On failure the list is unchanged and it sends the alert. |
| `Scheduler.JobList.Start` | salatime.py:257-262 | Start-up: one `main`, then the 05:00 job appended. |
| `Scheduler.JobList.StartKeepingDaily` | salatime.py:257-262 | Corrected start-up: the corrected `main`, then the 05:00 job registered only if the list does not already hold it (`AfterStartKeepingDaily`). |
| `Scheduler.JobList.RefreshKeepingDaily` | salatime.py:237-252 | Corrected `main`: like `Refresh`, but the 05:00 job is registered again right after the clear. |

## Findings

| source | as written | input that shows it | evidently intended | confidence | as-written member | corrected member |
|---|---|---|---|---|---|---|
| salatime.py:241 | `main` calls `schedule.clear()`. That removes every job, including the daily 05:00 job registered at line 262. | Start-up with any fetch outcome, then a successful fetch when the 05:00 job runs. Afterwards the list holds only reminders, so no refresh ever runs again, and the reminders repeat daily at that day's times. | The 05:00 refresh stays registered, exactly once (the comment at line 261 announces a daily update at 5 am). | high; not executed | `Scheduler.RefreshDropsDailyJob` | `Scheduler.RefreshKeepsDailyJob` |

`Scheduler.JobList.Refresh` and `Scheduler.AfterRefresh` model `main` as written.
`Scheduler.JobList.RefreshKeepingDaily` and `Scheduler.AfterRefreshKeepingDaily`
are the corrected `main`. `Scheduler.JobList.StartKeepingDaily` and
`Scheduler.AfterStartKeepingDaily` are the matching start-up, which registers
the 05:00 job only when the corrected `main` has not already done so. With the
two together the list holds exactly one 05:00 job from start-up on
(`StartKeepsOneDailyJob`, `RefreshKeepsOneDailyJob`).

## Left out

- The HTTP GET (salatime.py:32) and its 10-second timeout. The page text is a parameter, and `None` stands for any exception caught at line 63.
- Telegram messages (salatime.py:115-185). A successful refresh records `Confirmation(times)` in `JobList.sent` and a failed one records `FailureAlert`. Message texts, HTTP status handling and send failures are not modelled.
- The sending of a reminder when its job fires is not modelled (see the next line).
- The `schedule` library's internals: `run_pending`, the "every day" repetition of a job, and the `while True` / `time.sleep(60)` loop (salatime.py:262-269). This is library code and wall-clock polling. A job is only a time text and the call it makes.
- The timezone pinning, `load_dotenv` and the environment variables (salatime.py:15-22). These are process setup.
- `display_prayer_times` and all `print` output (salatime.py:103-110). This is console output only.
- The locale-dependent date `%A %d %B %Y` in the confirmation message (salatime.py:142).
- Scheduler.Readable: `int()` also accepts surrounding whitespace, a leading sign, underscores between digits and non-ASCII decimal digits ("+5:30", " 5:30"). The model requires ASCII digits only ("HH:MM" or "HH:M"), so records with such Iqama texts are outside the scheduler's precondition.
- Exceptions inside the scheduler. `int()` on non-digits (salatime.py:209) and `datetime.replace` with hour above 23 or minute above 59 (salatime.py:210) raise, and nothing catches them. The scheduling methods instead require every present Iqama to be a clock text, "HH:MM" or "HH:M" with hours 00-23 and minutes 0-59 (`Readable`, `ReadableResult`).
- Python's `\d` also matches non-ASCII decimal digits. The model's key scanner accepts only '0'-'9'.
- The source reads the clock again for every prayer (salatime.py:210, 216). The model uses one `now` and one `today` for the whole run, so a run crossing midnight is not modelled.
- Scraper.DateKey: requires a year from 1000 to 9999, because `%Y` padding of smaller years depends on the platform.
