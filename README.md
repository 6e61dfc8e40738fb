# Trusted Traveler appointment poller, modelled in Dafny

The poller takes three enrollment centres one after another: Toronto (5027), Buffalo-Ft. Erie (5022) and Niagara Falls (5161). For each centre it does the following:

1. It reads the clock.
2. It builds a scheduler-API URL for a window from now to twelve weeks ahead. Both bounds are written as `%Y-%m-%dT%H:%M`.
3. It fetches the centre's slot list.
4. It stops at the first slot whose `active` count is positive.
5. It turns that slot's timestamp into a notification of the form
   `New appointment slot open at {location}: {date}`, with the date rendered as `%A, %B %d, %Y at %I:%M %p`.
6. It prints the notification in test mode, and tweets it otherwise.

A tweet that Twitter rejects as a duplicate status counts as posted. The rule is code 187 as the only error entry. Any other Twitter error propagates. A connection error ends the process with exit status 1.

The model is split into five modules:

- `Strings`: digit strings, zero padding, decimal rendering, and splitting at the first separator, which the proofs use to read the URL and the message back.
- `Calendar`: the proleptic Gregorian calendar as CPython's `datetime` computes it. This covers the ordinal from `_days_before_year` and `_days_before_month`, the weekday, and adding days.
- `TimeFormat`: `strptime` with `"%Y-%m-%dT%H:%M"`, following CPython's `_strptime` regular expressions. That means case-insensitive literals, one-digit fields, "unconverted data remains", year 0 and days past the end of the month. It also covers `strftime` for both formats in the C locale, and readers that invert the formatted text.
- `Tweeting`: `tweet()` and its duplicate-status rule.
- `Poller`: the URL, the message, `check_for_openings` and `main`.

The model treats the clock, the API and the Twitter client as inputs. The `Inputs` value carries:

- the `--test` flag;
- one `datetime.now()` reading per location;
- the API's answer for each URL;
- `PostUpdate`'s outcome for each message.

A run yields its trace of fetches, prints and tweets, together with how it ended: normally, by `sys.exit(1)`, or by an uncaught exception.

The two loops of the source, the scan over the fetched records in `check_for_openings` and the loop of `main` over the locations, are the methods `Poller.ScanForOpening` and `Poller.CheckAll`. `Poller.CheckForOpenings` and `Poller.Run` call them. Each method is proved equal to a specification function: `Scan`, `Check` and `Chain(Steps(...))`. The properties are lemmas about those functions.

What the code does, and so the model:

- `main.py` fetches once per location, with no retry; a `ConnectionError` is `sys.exit(1)`;
- it takes the first slot with `active > 0` and applies no date filter;
- Twitter is its only channel, and test mode only replaces the tweet with `print`.

## Model

| member | source | states |
|---|---|---|
| Calendar.NextDay | main.py:46 | the next calendar day is a valid date at the same time of day, exactly one ordinal later |
| Calendar.AddDays | main.py:46 | adding n days gives a valid date at the same time of day, n ordinals later, in the same or a later year |
| Calendar.Weekday | main.py:68 | the weekday `%A` names, 0 (Monday) to 6 (Sunday), from the ordinal as CPython's `date.weekday()`; see WindowEndSameWeekday and MessageTimeRoundTrip |
| Calendar.WeekdayNextDay | main.py:68 | the weekday `%A` names advances by one each calendar day, Sunday wrapping round to Monday |
| Calendar.WeekdayOfFirstDay | main.py:68 | 0001-01-01, day 1 of the ordinal count, is a Monday |
| Calendar.DaysBeforeYearCounts | main.py:46 | the closed form of `_days_before_year` equals the sum of the lengths of all earlier years (leap years every 4 years except centuries not divisible by 400) |
| Calendar.DaysBeforeMonthCounts | main.py:46 | the month table of `_days_before_month` equals the sum of the lengths of all earlier months of that year |
| Calendar.OrdinalInjective | main.py:46 | two valid dates with the same ordinal are the same date, so day arithmetic on ordinals determines the date |
| Strings.Decimal | main.py:48-49 | `str()` of the location code is a non-empty digit string without leading zeros whose value is the code |
| TimeFormat.Parse | main.py:65 | a timestamp `strptime` accepts is a valid datetime: year 1-9999, month 1-12, day within its month, hour 0-23, minute 0-59 |
| TimeFormat.ParseTtpText | main.py:21 | `strptime` on canonical `%Y-%m-%dT%H:%M` text succeeds exactly when nothing follows and the day exists in that year's month (year 0 and 31 February are rejected), and then it returns those fields |
| TimeFormat.FormatTtp | main.py:50-51 | `strftime(TTP_TIME_FORMAT)`: zero-padded year, month, day, hour and minute joined by `-`, `-`, `T`, `:`; defined by the format, its meaning is given by FormatTtpRoundTrip and ParseTtpText |
| TimeFormat.FormatTtpRoundTrip | main.py:21 | `strptime(strftime(dt, TTP_TIME_FORMAT), TTP_TIME_FORMAT) == dt` |
| TimeFormat.ParseRejectsTrailing | main.py:65 | any text after a complete timestamp makes `strptime` fail ("unconverted data remains") |
| TimeFormat.TwelveHourClock | main.py:24 | `%I` is 01-12 and `%p` is AM exactly for hours 0-11; midnight is 12 AM and noon is 12 PM; the pair determines the 24-hour hour |
| TimeFormat.FormatMessageTime | main.py:68 | `strftime(MESSAGE_TIME_FORMAT)` in the C locale: weekday and month names, zero-padded day, four-digit year, 12-hour time and AM/PM; defined by the format, its meaning is given by MessageTimeRoundTrip and TwelveHourClock |
| TimeFormat.MessageTimeRoundTrip | main.py:24 | the `%A, %B %d, %Y at %I:%M %p` rendering can be read back to the datetime, so the weekday shown is the date's Gregorian weekday and no field is lost |
| Tweeting.IsDuplicateStatus | main.py:38 | the test `len(e.message) == 1 and e.message[0]["code"] == 187`; what follows from it is stated by Tweet, DuplicateNeedsSingleEntry and OtherCodesRaise |
| Tweeting.Tweet | main.py:35-41 | `tweet()` returns normally exactly when the post succeeds or the error list is one entry with code 187; it raises exactly otherwise; the raised error is the original, or a KeyError for a lone entry without "code" |
| Tweeting.DuplicateNeedsSingleEntry | main.py:38 | an error list of any length other than one is raised, even if it holds a 187 |
| Tweeting.OtherCodesRaise | main.py:38-41 | a single entry with any code other than 187 is raised |
| Poller.WindowEnd | main.py:46 | the window end is a valid date at the start's time of day, exactly 7 * 12 = 84 days later |
| Poller.WindowEndSameWeekday | main.py:46 | the window ends on the weekday it starts |
| Poller.FetchUrl | main.py:46-52 | building the URL fails (OverflowError) exactly when the window end falls after year 9999 |
| Poller.UrlRoundTrip | main.py:48-52 | the URL can be read back to the location code, the start, and the end 84 days after the start |
| Poller.Message | main.py:66-69 | `NOTIF_MESSAGE.format(location=..., date=...)`: the notification starts with "New appointment slot open at "; the rest of its meaning is given by MessageRoundTrip |
| Poller.MessageRoundTrip | main.py:66-69 | for a location name without ':', the notification can be read back to the name and the slot's datetime |
| Poller.MessageNamesLocation | main.py:12-16 | the notification for each of the three configured centres can be read back to that centre's name and the slot's time |
| Poller.FirstOpening | main.py:61-62 | the selected record has active > 0 and every earlier record has active <= 0; there is none exactly when no record is active |
| Poller.FirstOpeningAt | main.py:61-62 | an active record preceded only by inactive ones is the one selected |
| Poller.FirstOpeningIgnoresLater | main.py:75 | a list that agrees up to the first opening selects the same record |
| Poller.ScanForOpening | main.py:61-77 | the loop over the records produces the outcome of `Scan`: nothing when no record is active; a ValueError on an unparsable timestamp; otherwise one print or tweet of the first opening's message, after which it halts |
| Poller.CheckForOpenings | main.py:43-77 | `check_for_openings` produces the outcome of `Check`: an OverflowError before fetching, `sys.exit(1)` after the one fetch on a ConnectionError, otherwise the fetch followed by the scan |
| Poller.Announce | main.py:70-74 | `print(message)` in test mode, otherwise `tweet(message)`, whose re-raised error ends the check; its meaning is given by AnnounceEmitsMessage and AnnounceAsTweet |
| Poller.AnnounceEmitsMessage | main.py:70-74 | announcing emits exactly the one message, by print or by tweet, and fetches nothing |
| Poller.ScanEmitsFirstOpening | main.py:61-75 | the scan fetches nothing and emits the first opening's message when its timestamp parses, and nothing otherwise |
| Poller.CheckEmitsFirstOpening | main.py:45-75 | one check fetches exactly its location's URL (none when the window overflows) and emits a message exactly when the fetch succeeded, a record was active and the first active record's timestamp parsed; that message is the template filled with the location name and the rendered time |
| Poller.CheckEndsAs | main.py:45-77 | how one check ends: OverflowError before any fetch when the window passes year 9999, exit status 1 on a ConnectionError, a normal return when no record is active, a ValueError naming the first active record's timestamp when it does not parse, and otherwise a normal return exactly when the message is printed or its tweet does not raise |
| Poller.NoOpeningNoMessage | main.py:61-77 | when no record is active, a check fetches once, emits nothing and returns normally |
| Poller.CheckIgnoresLaterRecords | main.py:75 | replacing the records after the first opening leaves the check's outcome unchanged |
| Poller.TestModeKeepsMessage | main.py:70-74 | `--test` changes neither the messages nor the fetches of a check |
| Poller.CheckTestModeOnlyChoosesChannel | main.py:70-74 | when no tweet raises, a tweeting check does what the test-mode check does with its print replaced by a tweet of the same text, and ends the same way |
| Poller.ChainRunsUntilFirstStop | main.py:104-105 | checks run in order: the run performs the actions of the checks up to and including the first that does not return normally, and ends as that check ends, or normally if every check returns |
| Poller.ChainStopsAt | main.py:104-105 | when the first check that does not return normally is check i, the run performs the actions of checks 0..i, ends with its status, and runs exactly i+1 checks |
| Poller.CheckAll | main.py:104-105 | the loop over the locations produces the outcome of `Chain(Steps(...))` |
| Poller.Run | main.py:94-105 | `main()` over LOCATIONS produces the outcome of `Chain(Steps(inp, LOCATIONS))` |
| Poller.RunVisitsInOrder | main.py:104-105 | a run's k-th fetch is the URL of location k for its clock reading; every location checked is fetched except possibly the last; at most one message is emitted per location checked; the run ends normally exactly when every location's check returns normally |
| Poller.RunMessagesInOrder | main.py:104-105 | a run's messages are the per-location messages joined in the order of the locations, over the locations checked |
| Poller.CompletedCheckContinues | main.py:75 | the halt on the first opening is per location: when locations 0..j all return normally, location j + 1 is checked too |
| Poller.ConnectionErrorEndsRun | main.py:55-59 | a ConnectionError at location i, after normal checks before it, ends the run with exit status 1; the earlier actions stand, location i has fetched once, and no later location is checked |
| Poller.TestModeOnlyChoosesChannel | main.py:104-105 | when no tweet raises, the tweeting run equals the test run with every print replaced by a tweet of the same message, and ends the same way |

## Left out

- The network is not modelled. `requests.get(url).json()` is an input function from URL to slot list or `ConnectionError`. Other `requests` exceptions, JSON that fails to decode, a top-level JSON value that is not a list, and records that lack the `active` or `timestamp` key are not modelled.
- The Twitter client is not modelled. `PostUpdate` is an input function from message to outcome.
- Building `twitter.Api` from the four environment variables is left out, and so is the KeyError when one is missing. These are configuration, not logic.
- A `TwitterError` whose `message` is a string instead of a list is not modelled, and neither are non-integer `code` values. Error entries map keys to integers.
- `datetime.now()` is not modelled. It is supplied as one valid reading per location.
- Seconds and microseconds are not modelled. Neither format shows them, so datetimes have minute precision.
- Logging is left out: `logging.info`, `logging.exception`, `setup_logging`, Google Cloud logging, and the "Tweeting:" and "Opening found" lines. None of it affects the outcome.
- `argparse` is left out. `--test` is the `testMode` input, and `--verbose` is read by nothing.
- `google_cloud_entry` and the `__main__` guard only call `main()` and are left out.
- Only ASCII digits are modelled. `strptime`'s `\d` also accepts other Unicode decimal digits.
- `%p` is read as the C locale's "AM"/"PM". `%Y` is rendered zero-padded to four digits, as current CPython does on Linux; this makes a difference only for years below 1000.
- Time zones are not modelled: all datetimes are naive, as in the source.
- `print` and the tweet are modelled as trace actions (`Print`, `Post`) rather than as output.

