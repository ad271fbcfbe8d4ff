# Door access control and security monitoring, modelled in Dafny

The system watches a biometric/RFID door terminal. Its **access engine**
takes each live authentication attempt, looks the user up in the terminal's
roster, and decides by whitelist, blacklist and allowed hours whether to
unlock the door. The current engine (`app/src/access_control_core.py`) turns
every malformed hour list of the modelled types into a deny (an
`allowed_hours` without a length, such as the int 8, would raise TypeError
at `len()`). It plays the "access denied" voice prompt on a deny and, in its
streaming form, yields one event per attempt. The legacy engine
(`src/access_control_core.py`) differs in three ways:
- it finds the name by binary search over ids it assumes sorted;
- it reads the hour bounds with its own nested `parse_time`;
- it raises on a missing list or a missing or short hour range.

Its **security monitor** (`src/monitor_core.py`, and the earlier `core.py`)
audits the terminal on each cycle:
- clock drift of more than 300 seconds;
- more administrators than allowed;
- users without a password, on the first check only;
- attendances outside the allowed range;
- two entries of one user less than 30 seconds apart, over the check
  window: the whole log on the first check, otherwise its first three
  records.

The model has these modules:

- `Wrappers`, `Entities` (`entities.dfy`): the shared vocabulary. It holds
  the users, attendance records, the policy and the hour arguments, and
  decisions and actuations. `TimeOfDay` is microseconds since midnight, so
  comparisons with `datetime.now().time()` are exact. Record timestamps are
  whole seconds.
- `AppAccess` (`app_access.dfy`): the current access engine and its two
  live loops, over a finite prefix of the live feed.
- `LegacyAccess` (`legacy_access.dfy`): the legacy engine. It covers its
  `strptime("%H:%M")` reading, the binary search, the ordered exception
  paths of the decision, and the live loop that an exception ends.
- `Audit` (`audit.dfy`): the checks both monitors share. These are the
  check window, the grouping by user, the sort, the rapid-entry rule, the
  roster check and the clock check.
- `Monitor` (`monitor.dfy`): `src/monitor_core.py`. It adds the guard on
  the configured range and the time-of-day range test.
- `CoreMonitor` (`core_monitor.dfy`): `core.py`. Its range test compares
  whole hours against integer bounds and raises on a missing or short
  range.
- `Compare` (`compare.dfy`): how the versions relate.

Three facts the source does not pin down become parameters or inputs:
- Each check returns the findings it prints or logs, in order.
- Device reads (roster, attendance log, device clock) and `datetime.now()`
  are inputs. A live attempt carries the roster and clock read for it.
- The `parse_time` that the current engine and `src/monitor_core.py`
  import is not part of this model. It is a parameter
  `HourArg -> Option<TimeOfDay>`, where `None` is its ValueError.

Some consequences of the code that a reader might not expect:
- The legacy `parse_time` reads a string only when it contains a colon
  (`src/access_control_core.py:53-60`), so a digit-only hour string such as
  `"8"` raises ValueError while the int 8 is read as 08:00.
- `src/monitor_core.py:23-27` returns on an invalid range before the
  attendance log is read, so the rapid-entry check does not run in that
  cycle either.
- The legacy live loop (`src/access_control_core.py:95-116`) has no
  exception handler, so an exception from `allow_access` ends it. It also
  plays no "access denied" prompt.
- `get_name`'s docstring (`app/src/access_control_core.py:13`) promises the
  id itself for an unknown user; the code returns `None`, and the model
  follows the code.

## Model

| member | source | states |
|---|---|---|
| Entities.Ids | app/src/access_control_core.py:38 | the id list has one entry per user, each that user's id, in roster order |
| Entities.Present | app/src/access_control_core.py:115-118 | an attempt is handled exactly when it is a non-None entry of the feed, and there are no more attempts than entries |
| Entities.PresentConcat | app/src/access_control_core.py:115-118 | skipping `None` works stretch by stretch: a `None` contributes nothing and an attempt contributes itself, so the handled attempts keep feed order and multiplicity |
| AppAccess.IndexOf | app/src/access_control_core.py:17-20 | `list.index`: None (the ValueError) exactly when the id is absent; otherwise the first position holding it |
| AppAccess.GetName | app/src/access_control_core.py:10-20 | None exactly for an unknown id; otherwise the name of the first user holding that id |
| AppAccess.AllowAccess | app/src/access_control_core.py:23-83 | never raises. Each outcome holds exactly when its condition does. Unknown id: denied. Known and whitelisted: granted, ahead of the blacklist. Otherwise blacklisted: denied. Otherwise no hours set: granted. Otherwise a wrong hour count: denied. Otherwise an unparsable bound: denied. Otherwise granted inside the inclusive window and denied outside it |
| AppAccess.Actuate | app/src/access_control_core.py:129-143 | the five-second unlock of `enable_device_access` is sent exactly on a grant, the "access denied" prompt 2 exactly otherwise |
| AppAccess.RealTimeAccessControl | app/src/access_control_core.py:96-150 | one actuation per non-None attempt, in order: a five-second unlock exactly when granted, the "access denied" prompt 2 exactly when not |
| AppAccess.RealTimeAccessControlStream | app/src/access_control_core.py:166-250 | one event and one actuation per non-None attempt. Each event carries the attempt's user id, timestamp and resolved name. Its kind and door-unlocked flag match the decision, and the actuation matches it |
| AppAccess.SameNameSameDecision | app/src/access_control_core.py:45-56 | the decision depends on the user only through the resolved name |
| LegacyAccess.ParseTime | src/access_control_core.py:50-60 | an int is read exactly when it is 0 to 23, as `h:00`. A string without a colon raises, and so does a value that is neither int, float nor str. A read bound is a whole minute |
| LegacyAccess.ParseTextIff | src/access_control_core.py:53-54 | a string is read exactly when it is a one- or two-digit hour below 24, a colon and a one- or two-digit minute below 60, and then as that time; every other string raises |
| LegacyAccess.ParseZeroPadded | src/access_control_core.py:53-54 | every zero-padded "HH:MM" within range reads as that time |
| LegacyAccess.ParseOneDigitHour | src/access_control_core.py:53-54 | a one-digit hour before the colon is read too ("8:05") |
| LegacyAccess.ParseRejectsRange | src/access_control_core.py:53-54 | "24:00" and "8:60" raise |
| LegacyAccess.ParseRejectsSeconds | src/access_control_core.py:53-54 | "08:36:00" raises (unconverted data remains) |
| LegacyAccess.ParseRejectsBareHour | src/access_control_core.py:51-60 | the string "8" raises although the int 8 is read; "abc" raises |
| LegacyAccess.Search | src/access_control_core.py:7-15 | a found position lies within the bounds and holds the id |
| LegacyAccess.SearchFindsSorted | src/access_control_core.py:6-16 | on sorted ids an id between the bounds is always found |
| LegacyAccess.GetName | src/access_control_core.py:5-16 | the loop computes the search. A found name belongs to a user with that id. An absent id gives None. On sorted ids a present id is always found |
| LegacyAccess.UnsortedIdsCanBeMissed | src/access_control_core.py:6-16 | on unsorted ids [3, 1, 2] the present id 3 is missed |
| LegacyAccess.AllowAccess | src/access_control_core.py:19-70 | each outcome holds exactly when its condition does. Unknown id: denied. Known and whitelisted: granted, even without a blacklist. Blacklisted: denied. TypeError when a list or the hours are missing at the point they are read. IndexError for an empty range, or a one-entry range whose bound parses. ValueError when a bound reached does not parse. With both lists naming neither way and both bounds read: granted inside the inclusive window, denied outside it |
| LegacyAccess.WindowInclusive | src/access_control_core.py:65-67 | an attempt exactly at either bound is granted |
| LegacyAccess.EnableDeviceAccess | src/access_control_core.py:73-80 | True exactly when the five-second unlock reached the terminal; handed the wrapper, nothing is sent and the result is False |
| LegacyAccess.RealTimeAccessControl | src/access_control_core.py:83-116 | the loop's commands and ending exception are those of the loop specification `Run` |
| LegacyAccess.RunRaisesIff | src/access_control_core.py:95-103 | the loop ends with an exception exactly when some attempt's decision raises |
| LegacyAccess.RunRaisesFirst | src/access_control_core.py:95-103 | the exception that ends the loop is the one raised by the first attempt whose decision raises |
| LegacyAccess.WrapperNeverUnlocks | src/access_control_core.py:103-105 | as written, the loop sends the terminal no command at all |
| LegacyAccess.GrantedButLocked | src/access_control_core.py:103-105 | a whitelisted attempt is granted, yet as written the door stays locked; with the session it unlocks |
| LegacyAccess.SessionOnlyUnlocks | src/access_control_core.py:73-80 | with the session, every command sent is the five-second unlock |
| LegacyAccess.SessionUnlocksIffGranted | src/access_control_core.py:95-105 | with the session, the door is unlocked exactly when some attempt before the first exception is granted |
| Audit.CheckWindow | src/monitor_core.py:37-49 | the window is the whole log on the first check, otherwise the first three records, or all of them when fewer exist; it is always a prefix |
| Audit.SortSorted | src/monitor_core.py:77 | `times.sort()` leaves the timestamps ascending and a permutation of what they were |
| Audit.InsertSorted | src/monitor_core.py:77 | inserting into a sorted list keeps it sorted and adds exactly that element |
| Audit.UsersKeys | src/monitor_core.py:70-73 | every key of `user_times` is the id of some record of the window, and no key appears twice |
| Audit.GroupByUser | src/monitor_core.py:70-73 | `user_times` has one key per user of the window, in order of first record; each key holds that user's timestamps in window order |
| Audit.AdjacentGaps | src/monitor_core.py:78-80 | the loop over adjacent pairs computes the rapid-pair specification |
| Audit.DetectRapidEntries | src/monitor_core.py:70-84 | grouping, sorting and the pair loop compute the spam specification over the window |
| Audit.RapidPairsMember | src/monitor_core.py:78-80 | a rapid entry is reported exactly for adjacent sorted timestamps less than 30 s apart |
| Audit.SpamForMember | src/monitor_core.py:76-80 | a rapid entry for a user is reported exactly when that user's sorted timestamps yield it |
| Audit.RapidPairsOnlyRapid | src/monitor_core.py:78-84 | the pair loop reports only rapid entries, for the user scanned |
| Audit.SpamOnlyRapid | src/monitor_core.py:76-84 | the spam check reports only rapid entries, for users of the window |
| Audit.RapidEntrySound | src/monitor_core.py:70-84 | a reported pair is ascending, less than 30 s apart, and two entries of that user's timestamps |
| Audit.RapidEntryComplete | src/monitor_core.py:70-84 | any two records of one user in the window less than 30 s apart cause a rapid-entry report for that user |
| Audit.SpamOfPair | src/monitor_core.py:78-80 | two records of one user `gap` seconds apart are reported exactly when the gap is under 30 s |
| Audit.RapidEntryBoundary | src/monitor_core.py:80 | 29 s apart is reported, 30 s apart is not |
| Audit.AdminCount | src/monitor_core.py:109 | the admin count never exceeds the roster size |
| Audit.AdminCountConcat | src/monitor_core.py:109 | the count adds up over the roster, one per user whose privilege is `USER_ADMIN`, so it is the length of the filtered list |
| Audit.PasswordAlerts | src/monitor_core.py:116-121 | the password loop computes the password-finding specification |
| Audit.CheckUsers | src/monitor_core.py:101-121 | `check_users` computes the roster-finding specification |
| Audit.PasswordFindingsMember | src/monitor_core.py:119-121 | a password finding is reported exactly for the users with an empty password |
| Audit.UserFindingsRules | src/monitor_core.py:101-121 | an empty roster gives only "no users". The admin alert fires exactly when admins exceed the threshold, carrying the count. On the first check only, a password alert for an id exactly when some user with that id has no password |
| Audit.PasswordFindingsConcat | src/monitor_core.py:116-121 | the password alerts add up over the roster, one per user whose password is empty, in roster order |
| Audit.ExcessAdminsScenario | src/monitor_core.py:109-111 | three admins against a threshold of two give one alert with count 3 |
| Audit.DriftBoundary | src/monitor_core.py:92-94 | exactly 300 s of drift either way is tolerated; one microsecond more is reported |
| Audit.GeneralCheck | src/monitor_core.py:87-98 | at most one finding, carrying the drift; reported exactly when the host clock is more than 300 s before or after the device clock |
| Monitor.CheckRange | src/monitor_core.py:51-67 | the range loop computes the range specification. Bounds are parsed for every record; a parse failure is logged and skipped |
| Monitor.RangeFindingsKinds | src/monitor_core.py:51-67 | the range loop reports only format errors and out-of-range alerts |
| Monitor.RangeAlertIff | src/monitor_core.py:64 | with parsed bounds, a record is flagged exactly when it is in the window and its time of day is outside the inclusive window |
| Monitor.UnparsableRangeReportsFormat | src/monitor_core.py:55-62 | with unparsable bounds each record gives one format error and nothing is flagged out of range |
| Monitor.CheckAttendances | src/monitor_core.py:21-84 | `check_attendances` computes the attendance-finding specification |
| Monitor.InvalidRangeIff | src/monitor_core.py:23-27 | the findings are just "invalid range" exactly when the range is missing, empty or not two entries long |
| Monitor.AttendanceRangeAlerts | src/monitor_core.py:37-67 | with a valid range, a record is flagged exactly when it is in the check window, the bounds parse and it lies outside them |
| Monitor.AttendanceSpamAlerts | src/monitor_core.py:70-84 | with a valid range, the rapid-entry alerts are exactly those of the spam check over the check window |
| Monitor.CheckSecurity | src/monitor_core.py:8-18 | the clock, roster and attendance findings, in that order |
| CoreMonitor.CheckHours | core.py:36-40 | the hour loop computes the hour-check specification: the first exception ends it |
| CoreMonitor.HourAlertIff | core.py:37-38 | with two bounds nothing raises, and a record is flagged exactly when its hour is below the first or above the second |
| CoreMonitor.SingleBoundRaisesIff | core.py:38 | with one bound, IndexError exactly when some record's hour is not below it; nothing else is raised |
| CoreMonitor.CheckAttendances | core.py:14-54 | `check_attendances` computes the attendance outcome: an exception in the hour loop skips the spam check |
| CoreMonitor.MissingRangeRaises | core.py:36-38 | a missing or empty range raises exactly when the log is non-empty: TypeError or IndexError, before any finding |
| CoreMonitor.CheckSecurity | core.py:7-11 | the clock and roster findings, then the attendance outcome, whose exception ends the check |
| Compare.RangeTestsDiffer | core.py:37-38 | for a `parse_time` that reads an int `h` as `h:00`, with the same integer bounds, the time-of-day test flags exactly what the hour test flags, plus the records after `high:00` inside hour `high` |
| Compare.HalfPastSix | core.py:37-38 | for a `parse_time` that reads an int `h` as `h:00`, an attendance at 18:30 against (8, 18) is flagged by the time-of-day test but not by the hour test |
| Compare.SearchIsIndexOf | src/access_control_core.py:5-16 | on strictly ascending ids the binary search finds the position `list.index` returns |
| Compare.LookupsAgree | src/access_control_core.py:36 | on strictly ascending ids both engines resolve a known id to the same name |
| Compare.VersionsAgree | src/access_control_core.py:19-70 | when the current engine uses the legacy `parse_time`, on strictly ascending ids, with both lists and exactly two hours, the legacy decision is the current one, except that the legacy engine raises ValueError where the current one denies |
| Compare.EmptyHoursDiverge | app/src/access_control_core.py:59-61 | an empty hours list grants in the current engine but raises IndexError in the legacy one |

## Left out

- Device I/O, the connection wrapper and its nested `with conn as zk` scoping, and `live_capture()`'s blocking feed. Each loop is modelled over a finite prefix of the feed, with each attempt carrying the roster and clock read for it.
- The outer `while True` reconnect loops, the KeyboardInterrupt and generic exception handlers, the `system_shutdown` and `error` events, `asyncio.sleep` and `check_interval` of the current engine: they are control flow around the modelled per-event body.
- Log and print text, and the `message` field of stream events.
- AppAccess.RealTimeAccessControlStream: the stream reads `get_users()` and `datetime.now()` twice per attempt (once in the loop, once in `allow_access`). The model uses one roster and one clock reading per attempt.
- AppAccess.AllowAccess: `parse_time` comes from a helper module that is not part of this model. It is a parameter, and exceptions other than ValueError from it are not modelled.
- Monitor.CheckAttendances: the monitor imports `parse_time` from `utils/helpers.py`, which defines only the connection wrapper. The model takes it as a parameter too, and its per-record failure is the ValueError path only.
- LegacyAccess.ParseTime: the float branch (`src/access_control_core.py:55-58`) is not modelled, because floating-point arithmetic is out of scope. Unicode digits that `strptime` accepts are not modelled. A `bool` bound is an int to Python, so `f"{True}:00:00"` reaches `strptime` and raises ValueError: it is modelled as `OtherValue`, which raises, not as `IntHour(1)`.
- AppAccess.AllowAccess and Monitor.CheckAttendances: `HourArg` has no float case, so a float bound such as 17.5 cannot be given to the imported `parse_time` either; floating point is out of scope.
- User ids are modelled as integers compared numerically. The device library may report string ids, which Python compares lexicographically.
- core.py ranges given as strings or other non-integers (a TypeError on comparison) are not modelled: core.py's bounds are integer sequences or `None`.
- `enable_device_access`'s return value is not used by either loop: the loops keep only the command it sends.
- LegacyAccess.SessionUnlocksIffGranted and LegacyAccess.SessionOnlyUnlocks assume the outer session `zk` is still connected when the unlock is sent. As written, `allow_access` re-enters `conn` (`src/access_control_core.py:26`), and leaving that inner `with` calls `disconnect()` on the connection it opened from the same device object, which may leave the outer session disconnected. So the intended fix also needs `allow_access` to use the open session.
- `main.py`, the helper modules, the scripts and the web layer are not part of this model.

## Findings

| source | as written | input that shows it | evidently intended | confidence | as-written member | corrected member |
|---|---|---|---|---|---|---|
| src/access_control_core.py:105 | `enable_device_access(conn)` hands over the connection wrapper. It has no `unlock`, so the AttributeError is caught inside `enable_device_access` and the door never opens. | any granted attempt, e.g. a whitelisted user | `enable_device_access(zk)`, with `allow_access` using that open session instead of re-entering `conn`, as the current engine does at `app/src/access_control_core.py:131` | high (not executed) | LegacyAccess.WrapperNeverUnlocks | LegacyAccess.SessionUnlocksIffGranted |
