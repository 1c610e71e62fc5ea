# Appointment slot optimizer — a Dafny model

This project models the scheduling core of a field-visit planner. The planner reads a
calendar of existing appointments and computes the free windows of each business day
between them. Each window starts and ends at a known place: the home base, or an
appointment's location. It then places a new visit, of a given length and at a given
lead address, into those windows.

Candidate start times are laid on a 15-minute grid. The first one comes from the arrival
from the previous place plus a buffer: its minute of the day, seconds dropped, is rounded
half-to-even to a 15-minute mark. So the first start can be up to 7 minutes earlier than a
whole-minute arrival, and just under 8 minutes earlier than one with seconds. They stop where there is no longer time
to travel on to the next place. Each candidate gets a travel score, weighted by the time
of day (midday preferred). The candidates are sorted stably by score, and the best
`max_slots` are reported with the score mapped onto 0..100, where higher is better.

Business hours, the buffer, the look-ahead and the cache lifetime come from a settings
object. Its "HH:MM" fields are validated when it is built.

Modules, one per source file, follow the program's structure:

- `Config` — app/config.py. The settings record, the "HH:MM" validator, the two
  time converters and the CACHE_TTL text handling. Two helper modules sit under it:
  - `Text` models Python's `split`, `strip` and `int()`, restricted to decimal digits;
  - `Datetime` models instants, dates, times of day and `datetime.combine`.
- `DateUtils` — app/utils/date_utils.py. The look-ahead range, business hours on a date,
  the business-days loop (a method), the business-hours test and round-half-even rounding
  to the slot grid.
- `Appointments`, `TimeWindows`, `CandidateSlots` — the record and model classes.
  Each is a datatype, because none of them is ever updated in place.
- `Sorting` — Python's stable `sorted(key=…)`, as an insertion sort proved sorted,
  a permutation and stable.
- `FreeWindows` and `FreeWindowProperties` — `get_free_time_windows`. The methods keep
  the source's loops and are proved equal to recursive specification functions. The
  lemmas about those functions cover:
  - which windows appear;
  - their bounds and time order;
  - that they cover exactly the instants not inside an appointment, for a day whose
    appointments do not overlap;
  - when the whole computation fails.
- `Candidates` and `CandidateProperties` — `generate_candidate_slots`. The methods are
  proved equal to specification functions. The lemmas describe the start-time grid
  exactly and give each candidate's fields, travel and score.
- `Optimizer` — `get_optimized_slots`: geocode, free windows, candidates, ranking and
  score normalization.

The collaborators are parameters:

| Collaborator | Modelled as |
|---|---|
| geocoding | `string -> Option<Location>` |
| travel times | `(Location, Location) -> int`, in minutes |
| the calendar | the list of appointments it returns |
| the clock | `now`, an instant |

Time is one timeline of whole seconds, `Instant = int`. A date is `t / 86400` and the
time of day is `t % 86400`.

Failures that Python raises as exceptions are modelled as `Err` results:
- a `TimeWindow` whose end is not after its start;
- `round_datetime_to_nearest` with a zero interval, or rounding up to 24:00;
- a bad "HH:MM" text or CACHE_TTL text.

The source and its own description disagree in two places; the model follows the code.
- A day with one appointment yields two windows (before and after it), not three.
  See `FreeWindowProperties.SingleAppointmentDay`.
- The validators accept business hours whose closing time is before the opening time.
  On such a day without appointments, building the free window fails and the whole
  request fails. See `FreeWindowProperties.ReversedHoursEmptyDay`.

## Model

| member | source | states |
|---|---|---|
| Config.ValidateTimeFormat | app/config.py:48-56 | Accepts exactly the texts that split at ':' into two integer parts with hours in 0..23 and minutes in 0..59; returns the text unchanged; otherwise fails with that text |
| Config.ValidateTimeFormatAccepts | app/config.py:50-53 | The accepted texts are exactly digits ':' digits with hours below 24 and minutes below 60 (leading zeros and any digit count allowed) |
| Config.TimeFromText | app/config.py:58-66 | The converted time is a valid time of day whose hour and minute are the two parsed parts |
| Config.FormatTimeRoundTrip | app/config.py:48-66 | A time written as "HH:MM" passes the validator and converts back to the same time |
| Config.BusinessHoursStartTime | app/config.py:58-61 | The opening time is valid and carries the hour and minute of BUSINESS_HOURS_START |
| Config.BusinessHoursEndTime | app/config.py:63-66 | The closing time is valid and carries the hour and minute of BUSINESS_HOURS_END |
| Config.CacheTtlText | app/config.py:83 | The text handed to int() holds no '#' and neither begins nor ends with whitespace |
| Config.ParseCacheTtl | app/config.py:83 | CACHE_TTL converts exactly when that text is a decimal digit string |
| Config.CacheTtlIgnoresComment | app/config.py:83 | Digits surrounded by whitespace and followed by a '#' comment read as their value |
| Config.LoadSettings | app/config.py:75-84 | The settings load exactly when CACHE_TTL converts and both business-hours texts validate; the loaded object is valid and holds the given values |
| Config.DefaultTimeTexts | app/config.py:20-21 | The default texts "09:00" and "18:00" validate and convert to 09:00 and 18:00 |
| Config.DefaultCacheTtl | app/config.py:83 | The default CACHE_TTL text "3600" converts to 3600 |
| Config.DefaultSettingsValues | app/config.py:19-26 | The defaults load with hours 09:00 to 18:00, a 15-minute buffer, 60-minute appointments, 7 look-ahead days and a 3600-second cache lifetime |
| Text.Split | app/config.py:51 | `str.split`: at least one part, and no part contains the separator |
| Text.SplitJoin | app/config.py:51 | Joining the parts of a split with the separator gives the text back, and there is one more part than separators |
| Text.ParseInt | app/config.py:51 | `int()` on digits: defined exactly on non-empty decimal digit strings |
| Text.StripSurroundedBy | app/config.py:83 | `strip()` removes exactly the surrounding whitespace (the characters of `str.isspace()`) from a text that neither begins nor ends with whitespace |
| Datetime.Combine | app/utils/date_utils.py:39-40 | `datetime.combine(d, t)` falls on date d at time of day t, with t's hour |
| Datetime.WholeMinutes | app/models/time_window.py:27-28 | `int(seconds / 60)`: whole minutes truncated toward zero, for both signs |
| DateUtils.DateRange | app/utils/date_utils.py:7-23 | The range starts at the given date, or tomorrow when none is given, and spans `days` days |
| DateUtils.BusinessHoursForDate | app/utils/date_utils.py:26-42 | Opening and closing instants fall on the given date, at the configured opening and closing times |
| DateUtils.BusinessDaysDatetimes | app/utils/date_utils.py:45-69 | The loop yields max(days, 0) pairs, the i-th being the business hours of the i-th date of the range |
| DateUtils.BusinessDaysConsecutive | app/utils/date_utils.py:45-69 | Consecutive pairs are exactly one day apart, with no date skipped |
| DateUtils.WithinBusinessHoursOfDate | app/utils/date_utils.py:72-86 | The time-of-day test holds exactly when the instant lies in [opening, closing) of its own date |
| DateUtils.RoundHalfEvenNearest | app/utils/date_utils.py:101 | Python's `round(n / d)`: within one half of n / d, and even on a tie |
| DateUtils.RoundHalfEvenMonotone | app/utils/date_utils.py:101 | A later minute never rounds to an earlier multiple |
| DateUtils.RoundHalfEvenOfMultiple | app/utils/date_utils.py:101 | An exact multiple rounds to itself |
| DateUtils.RoundedNonNegative | app/utils/date_utils.py:100-101 | A minute of the day never rounds below midnight |
| DateUtils.RoundToNearestShape | app/utils/date_utils.py:89-106 | Rounding fails exactly when it reaches 24:00. Otherwise the result is on the same date, a whole multiple of the interval after midnight, within half an interval of the original minute (ties to even), with zero seconds |
| DateUtils.RoundToNearestIdempotent | app/utils/date_utils.py:89-106 | A rounded instant rounds to itself |
| DateUtils.RoundToNearestMonotone | app/utils/date_utils.py:89-106 | When both roundings succeed, a later instant never rounds to an earlier one, also across dates |
| TimeWindows.NewTimeWindow | app/models/time_window.py:16-22 | Construction succeeds exactly when the end is after the start, and then keeps the given fields |
| TimeWindows.TimeWindow.DurationMinutes | app/models/time_window.py:24-28 | Whole minutes between start and end, truncated toward zero |
| TimeWindows.IsValidForDurationMonotone | app/models/time_window.py:30-33 | A window long enough for a longer visit is long enough for a shorter one |
| TimeWindows.IsValidForDurationSeconds | app/models/time_window.py:30-33 | The window fits exactly when it spans at least the duration plus twice the buffer (before and after), counted in seconds |
| TimeWindows.OverlapsIff | app/models/time_window.py:39-45 | Two windows overlap exactly when each starts before the other ends |
| TimeWindows.OverlapsIffSharedInstant | app/models/time_window.py:35-45 | Two valid windows overlap exactly when some instant lies in both |
| TimeWindows.OverlapsSymmetricReflexive | app/models/time_window.py:39-45 | Overlap is symmetric, and a valid window overlaps itself |
| TimeWindows.BackToBackDisjoint | app/models/time_window.py:39-45 | A window ending where the next starts does not overlap it |
| CandidateSlots.CandidateSlot.DurationMinutes | app/models/candidate_slot.py:20-24 | Whole minutes between start and end, truncated toward zero |
| CandidateSlots.DurationOfWholeMinutes | app/models/candidate_slot.py:20-24 | A slot spanning a whole number of minutes reports exactly that number |
| CandidateSlots.NewSlotRequest | app/models/candidate_slot.py:40-44 | A request is rejected exactly when a duration is given below 15. An omitted duration defaults to 60, an explicit null stays null, and an accepted duration is at least 15 |
| Sorting.SortByCorrect | app/services/optimizer.py:252-253 | The stable sort is sorted by key, a permutation of its input, and keeps the input order among equal keys |
| FreeWindows.OnDate | app/services/optimizer.py:59-62 | Every appointment the filter keeps is from the input and starts on the given date, and it keeps no more than the input has |
| FreeWindowProperties.OnDateMembers | app/services/optimizer.py:59-62 | The filter keeps exactly the appointments that start on the given date |
| FreeWindows.AppointmentDayWindows | app/services/optimizer.py:76-115 | The leading-window, gap and trailing-window loop computes the day's windows as the specification does |
| FreeWindows.GetFreeTimeWindows | app/services/optimizer.py:32-117 | The loop over business days gives the specification's windows for the start-sorted appointments, or that day's error |
| FreeWindowProperties.GapWindowsMembers | app/services/optimizer.py:89-102 | A window appears between two consecutive appointments exactly when the first ends before the next starts; it runs from the first's location to the next's |
| FreeWindowProperties.GapWindowsValid | app/services/optimizer.py:94-102 | Every gap window ends after it starts |
| FreeWindowProperties.EmptyDayWindows | app/services/optimizer.py:64-74 | A day without appointments gives one home-to-home window spanning business hours, or fails when closing is not after opening |
| FreeWindowProperties.DayWindowsMembers | app/services/optimizer.py:76-115 | A leading window exists exactly when the day opens before the first appointment, and a trailing one exactly when the last ends before closing; both connect to the home base |
| FreeWindowProperties.DayWindowsBounded | app/services/optimizer.py:76-115 | A day with k appointments gives at most k + 1 windows, all valid |
| FreeWindowProperties.WindowsForDaysOutcome | app/services/optimizer.py:58-117 | The computation fails exactly when some day without appointments has closing not after opening; otherwise every window is valid |
| FreeWindowProperties.FreeWindowsFailOnlyForEmptyBusinessDay | app/services/optimizer.py:32-117 | The same, stated for the configured business hours and the look-ahead range |
| FreeWindowProperties.OnDateSorted | app/services/optimizer.py:53-62 | Filtering start-sorted appointments by date keeps them sorted |
| FreeWindowProperties.GapWindowsChronological | app/services/optimizer.py:89-102 | For start-sorted appointments that each end after they start, the gaps are in time order and lie between the first start and the last start |
| FreeWindowProperties.DayWindowsChronological | app/services/optimizer.py:76-115 | A day's windows are in time order, each ending no later than the next starts |
| FreeWindowProperties.DayWindowsOnDate | app/services/optimizer.py:58-115 | A day's windows lie within that calendar date |
| FreeWindowProperties.WindowsForDaysChronological | app/services/optimizer.py:58-117 | Over ascending dates, all windows are in time order and end before the day after the last date |
| FreeWindowProperties.FreeWindowsChronological | app/services/optimizer.py:32-117 | When it succeeds on appointments that each end after they start, `get_free_time_windows` returns windows in time order, each ending before the next begins |
| FreeWindowProperties.BusinessDaysDates | app/utils/date_utils.py:45-69 | The i-th business day falls on the i-th date of the range, so the dates strictly ascend |
| FreeWindowProperties.NotBusyInGap | app/services/optimizer.py:89-102 | An instant inside a gap window is inside no appointment of the day |
| FreeWindowProperties.GapWindowsTiling | app/services/optimizer.py:89-102 | Between the first start and the last end, an instant lies in a gap window exactly when no appointment holds it |
| FreeWindowProperties.DayWindowsTiling | app/services/optimizer.py:58-115 | Within business hours and for non-overlapping appointments inside them, an instant lies in a free window exactly when no appointment holds it, and every window lies within business hours |
| FreeWindowProperties.OverlapYieldsBusyWindows | app/services/optimizer.py:89-115 | With overlapping appointments, the windows include instants inside an appointment |
| FreeWindowProperties.EarlyAppointmentWindow | app/services/optimizer.py:104-115 | An appointment that ends before opening yields a trailing window that starts at its end, before opening time |
| FreeWindowProperties.SingleAppointmentDay | app/services/optimizer.py:76-115 | A day with one appointment inside business hours has exactly two windows: home to the appointment, then back home |
| FreeWindowProperties.TwoAppointmentDay | tests/test_optimizer.py:59-98 | The windows test's day with 10:00-11:00 and 14:00-15:00 has exactly three windows, with the expected ends and locations |
| FreeWindowProperties.ReversedHoursLoad | app/config.py:48-56 | Business hours 18:00 to 09:00 pass validation and load |
| FreeWindowProperties.ReversedHoursEmptyDay | app/services/optimizer.py:64-74 | For any settings whose opening time is 18:00 and closing time 09:00, a one-day look-ahead without appointments fails with the window error instead of returning windows |
| Candidates.TimeOfDayFactor | app/services/optimizer.py:183-188 | The factor is 0.9 exactly for hours 10-14, 1.1 exactly before 9 or after 16, and 1.0 exactly at 9, 15 and 16 |
| Candidates.ScorePrefersMidday | app/services/optimizer.py:178-191 | For the same non-negative travel, a midday start never scores worse than any other, and strictly better when travel is positive; a 9, 15 or 16 o'clock start never scores worse than an early or late one |
| Candidates.WindowBounds | app/services/optimizer.py:146-163 | Looks up travel in and out, and gives the rounded earliest start after travel and buffer, the latest end before travel and buffer, and the rounded latest start; fails exactly when either rounding fails |
| Candidates.EnumerateWindow | app/services/optimizer.py:169-208 | The `while` loop with its `break` yields exactly the specified sequence of slots |
| Candidates.GenerateWindowSlots | app/services/optimizer.py:139-208 | One window's candidates and travel lookups are exactly as specified; a short window gives none and looks nothing up |
| Candidates.GenerateCandidateSlots | app/services/optimizer.py:119-210 | The candidates over all windows are as specified, or the first rounding error; on success the lookups are exactly those of the long-enough windows |
| CandidateProperties.StepsShape | app/services/optimizer.py:169-208 | Every generated slot starts on the grid between the earliest and latest start, lasts the visit's duration and ends no later than the latest end |
| CandidateProperties.StepsSpacing | app/services/optimizer.py:169-208 | Consecutive slots start exactly one interval apart |
| CandidateProperties.StepsOrder | app/services/optimizer.py:169-208 | Slot starts strictly increase |
| CandidateProperties.StepsComplete | app/services/optimizer.py:169-208 | Every grid start up to the latest start whose end fits before the latest end is generated |
| CandidateProperties.StepsExactly | app/services/optimizer.py:169-208 | A slot starts at s exactly when s is on the grid, no later than the latest start, and its end fits before the latest end |
| CandidateProperties.WindowCandidatesOfBounds | app/services/optimizer.py:139-169 | A long-enough window with computed bounds yields the loop's slots, or none when the earliest start is after the latest |
| CandidateProperties.WindowCandidatesExactly | app/services/optimizer.py:139-208 | A long-enough window's candidates start exactly at the fitting grid points, in strictly increasing order |
| CandidateProperties.WindowCandidatesShape | app/services/optimizer.py:139-208 | Each candidate comes from a long-enough window. It lasts the visit's duration and ends before travel out plus buffer. Its locations are the window's and the lead's, and its travel times are the window's lookups. Its score is total travel times the factor of its start hour |
| CandidateProperties.EarliestNearTravel | app/services/optimizer.py:154-156 | The earliest start is within about half an interval of arrival time plus buffer, and can be before it |
| CandidateProperties.EarliestBelowArrival | app/services/optimizer.py:154-156 | With 7 minutes of travel from 09:00 and a 15-minute buffer, arrival is 09:22 but the earliest start rounds to 09:15 |
| CandidateProperties.FullDayScenario | app/services/optimizer.py:139-208 | With the default 09:00-18:00 business hours (app/config.py:20-21) as one window, 15 minutes of travel each way, the default buffer and a one-hour visit, the first start is 09:30, 16:30 is a start, and every slot ends by 17:30 |
| CandidateProperties.TestWindowScenario | tests/test_optimizer.py:100-129 | The candidate test's 09:00-17:00 window with 15 minutes of travel each way and a one-hour visit yields candidates, from 09:30 to 15:30, each for the lead with travel 15 and 15 and lasting 60 minutes, none ending after 16:30 |
| CandidateProperties.BoundsShorterForLonger | app/services/optimizer.py:146-163 | The earliest start and the latest end do not depend on the visit length, and a longer visit's latest start is no later |
| CandidateProperties.LongerVisitFewerCandidates | app/services/optimizer.py:139-208 | For the same window, when both generations succeed, a longer visit never yields more candidates than a shorter one, and its start times are the first of the shorter visit's |
| CandidateProperties.AllCandidatesFromWindows | app/services/optimizer.py:139-208 | Generation fails exactly when some window's rounding fails. Every candidate is one of its window's candidates, and every lookup belongs to a long-enough window |
| CandidateProperties.ShortWindowContributesNothing | app/services/optimizer.py:140-144 | Adding a window too short for the visit changes neither the candidates nor the lookups |
| Optimizer.Normalize | app/services/optimizer.py:260 | The reported score lies in 0..100. It is 100 at no travel or less and 0 from 200 on, and 100 minus half the score in between |
| Optimizer.NormalizeAntitone | app/services/optimizer.py:260 | A better (lower) internal score never reports lower |
| Optimizer.NormalizeScenario | app/services/optimizer.py:258-260 | Scores 0, 200 and 250 report as 100, 0 and 0 |
| Optimizer.Take | app/services/optimizer.py:257 | Python's `[:n]`: a prefix of length min(n, len) for n ≥ 0, and with -n items dropped from the end for n < 0 |
| Optimizer.ToAvailableSlots | app/services/optimizer.py:257-270 | The loop turns each kept candidate into an available slot with its start, end and normalized score |
| Optimizer.GetOptimizedSlots | app/services/optimizer.py:212-270 | An ungeocodable lead gets no slots. Otherwise the result is the specified ranking of the candidates from the look-ahead's free windows, or the window or rounding error |
| Optimizer.RankedProperties | app/services/optimizer.py:252-270 | The sort is a stable permutation, and min(max_slots, n) slots are kept for non-negative max_slots. Each kept slot is a candidate, no left-out candidate scores better, and reported scores lie in 0..100 and never increase |
| Optimizer.OptimizedSlotsOutcome | app/services/optimizer.py:230-253 | An ungeocodable lead gets an empty list. On success, the windows and the candidates succeeded and the slots are their ranking |
| Optimizer.LookAheadBusinessDays | app/services/optimizer.py:237-245 | A target date gives that one business day; otherwise the configured number of days starting tomorrow, none when it is not positive |

## Left out

- app/services/gohighlevel.py: HTTP, headers and JSON mapping are I/O. The calendar is the list of appointments passed in.
- Calendar fetch range: `get_appointments()` receives no date range. The model takes the whole list, as the code does, and filters it by date. With no range the calendar service fetches only from tomorrow 00:00 for MAX_DAYS_AHEAD days (app/services/gohighlevel.py:93-98), so a `target_date` outside that span sees an empty calendar and is treated as a free day; the model gets that behaviour only when the list passed in is the one the service returned.
- app/utils/distance_utils.py and app/services/google_routes.py: OAuth, the network, geodesic distances and the TTL cache are I/O. They are replaced by the travel-time parameter.
- Travel times are any integer. A negative value is used as-is, as the code does; only `Candidates.ScorePrefersMidday` needs a non-negative one.
- Geocoding is a parameter. Its failure is `None`, which gives an empty result.
- app/api/routes.py and app/main.py: FastAPI routing, CORS, logging and mapping exceptions to HTTP status are plumbing outside the core.
- `format_time_for_display` and `format_datetime_for_display` (app/utils/date_utils.py:109-132): `strftime` output depends on the platform.
- Floating point: the factors 0.9/1.0/1.1 and the halving in normalization are exact reals, so IEEE rounding of scores and of `minutes_since_midnight / minutes` is not reproduced.
- Timezones: calendar times are timezone-aware and business hours are naive. Python would refuse to compare them; the model places both on one timeline.
- Microseconds are dropped; instants are whole seconds.
- The clock: `datetime.now()` in `get_date_range` is the `now` parameter.
- `int()` leniency: Python also accepts surrounding whitespace, a sign and underscores in the "HH:MM" parts and in CACHE_TTL. The model accepts decimal digit strings only.
- Config.LoadSettings: when both "HH:MM" texts are bad, pydantic raises one ValidationError listing both; the model returns only the opening-time error.
- Pydantic machinery: field validators other than `validate_time_format`, environment-file loading and the `Appointment.calculate_duration` default are not modelled. `Appointment` is its record shape, with the duration as a given field.
- Candidates.GenerateCandidateSlots: requires a positive interval. Python raises ZeroDivisionError at 0, and with a negative interval the loop does not terminate normally (it walks backwards, appending a candidate on every step, until a date overflow or memory exhaustion); the optimizer always passes 15.
- Candidates.GenerateCandidateSlots: on a rounding error the lookups already made are not stated.
- A request with an explicit null duration is accepted by `SlotRequest` and would fail with a TypeError in the generator. The route handling that passes it on is outside the core, and the generator takes an integer duration.
- Optimizer.NewAppointmentOptimizer: modelled without a contract. It only copies the buffer and the home base from the settings.
- Logging in every function is left out.
