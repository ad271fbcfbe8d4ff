// Shared vocabulary of the access-control and monitoring engines: the option
// type, the device's users and attendance records, clock values, the access
// policy, and the decisions and actuations the engines produce.

module Wrappers {
  /** Python's `None` versus a present value. */
  datatype Option<+T> = None | Some(value: T)
}

module Entities {
  import opened Wrappers

  const MicrosPerSecond: int := 1_000_000
  const SecondsPerDay: int := 86_400
  const MicrosPerDay: int := SecondsPerDay * MicrosPerSecond

  /** A `datetime.time`: microseconds since midnight. Comparing two of these is
      Python's lexicographic comparison of (hour, minute, second, microsecond). */
  type TimeOfDay = t: int | 0 <= t < MicrosPerDay

  /** The time of day `h:m:s.000000`. */
  function Clock(h: int, m: int, s: int): TimeOfDay
    requires 0 <= h < 24 && 0 <= m < 60 && 0 <= s < 60
  {
    ((h * 60 + m) * 60 + s) * MicrosPerSecond
  }

  /** `datetime.now().time()` for a host clock reading, given in microseconds of
      local time since the epoch. */
  function TimeOfDayOf(clock: int): TimeOfDay {
    clock % MicrosPerDay
  }

  /** The privilege code the device library uses for administrators
      (`const.USER_ADMIN`). */
  const USER_ADMIN: int := 14

  /** A user enrolled on the terminal. `userId` is the terminal-assigned key;
      the empty string stands for an unset password. */
  datatype User = User(userId: int, name: string, privilege: int, password: string)

  /** An attendance-log entry; `timestamp` is the device's local clock in whole
      seconds since the epoch. */
  datatype Record = Record(userId: int, timestamp: int)

  /** `[user.user_id for user in users]` */
  function Ids(users: seq<User>): (ids: seq<int>)
    ensures |ids| == |users|
    ensures forall i :: 0 <= i < |users| ==> ids[i] == users[i].userId
  {
    if users == [] then [] else [users[0].userId] + Ids(users[1..])
  }

  /** `record.timestamp.time()`: the time of day of a whole-second timestamp. */
  function RecordTimeOfDay(timestamp: int): TimeOfDay {
    var secs := timestamp % SecondsPerDay;
    assert secs * MicrosPerSecond < MicrosPerDay by {
      assert secs <= SecondsPerDay - 1;
    }
    secs * MicrosPerSecond
  }

  /** `record.timestamp.hour` */
  function RecordHour(timestamp: int): int {
    (timestamp % SecondsPerDay) / 3600
  }

  /** A configured hour bound as the configuration supplies it: an `int`, a
      `str`, or a value that is neither an `int`, a `float` nor a `str`
      (floats are not part of this model). */
  datatype HourArg = IntHour(hour: int) | Text(text: string) | OtherValue

  /** The access rules: whitelist and blacklist of user NAMES, and the
      allowed-hours pair. `None` is Python's `None`; `Some([])` an empty list. */
  datatype Policy = Policy(
    whitelist: Option<seq<string>>,
    blacklist: Option<seq<string>>,
    allowedHours: Option<seq<HourArg>>)

  datatype GrantReason = Whitelisted | Unrestricted | WithinHours
  datatype DenyReason = UnknownUser | Blacklisted | MalformedHours | UnparsableHours | OutsideHours
  /** The Python exception that escapes a call. */
  datatype PyError = TypeError | IndexError | ValueError

  /** The outcome of `allow_access`: `True`, `False` (with the reason its log
      line gives), or an exception. */
  datatype Decision = Grant(why: GrantReason) | Deny(reason: DenyReason) | Raise(error: PyError)

  /** A command sent to the terminal: `unlock(time=seconds)` or `test_voice(index)`. */
  datatype Actuation = Unlock(seconds: int) | VoicePrompt(index: int)

  const UNLOCK_SECONDS: int := 5
  const DENIED_VOICE: int := 2

  /** One authentication attempt from `live_capture()`, with what the engine
      reads while handling it: the roster returned by `get_users()` and the
      host clock (microseconds since the epoch, local time). */
  datatype Capture = Capture(userId: int, roster: seq<User>, clock: int)

  /** Python's truthiness of an optional list. */
  predicate Truthy<T>(xs: Option<seq<T>>) {
    xs.Some? && xs.value != []
  }

  predicate Sorted(xs: seq<int>) {
    forall i, j :: 0 <= i < j < |xs| ==> xs[i] <= xs[j]
  }

  /** The window `[start, end]` when a configured hour range has exactly two
      entries and `parse_time` reads both (None: one of them raised ValueError). */
  function Window(hours: seq<HourArg>, parse: HourArg -> Option<TimeOfDay>): Option<(TimeOfDay, TimeOfDay)> {
    if |hours| != 2 then None
    else
      match (parse(hours[0]), parse(hours[1]))
      case (Some(start), Some(end)) => Some((start, end))
      case _ => None
  }

  /** The attempts of a live feed with the `None` entries skipped, in order. */
  function Present(xs: seq<Option<Capture>>): (ps: seq<Capture>)
    ensures |ps| <= |xs|
    ensures forall x :: x in ps <==> Some(x) in xs
  {
    if xs == [] then []
    else
      var rest := Present(xs[..|xs| - 1]);
      assert forall x :: Some(x) in xs <==> Some(x) in xs[..|xs| - 1] || xs[|xs| - 1] == Some(x) by {
        assert xs == xs[..|xs| - 1] + [xs[|xs| - 1]];
      }
      match xs[|xs| - 1]
      case None => rest
      case Some(x) => rest + [x]
  }

  /** Skipping `None` entries works piecewise: the attempts of two stretches
      of the feed are those of the first followed by those of the second, a
      `None` contributes nothing and an attempt contributes itself. So the
      attempts keep their feed order and multiplicity. */
  lemma {:induction false} PresentConcat(xs: seq<Option<Capture>>, ys: seq<Option<Capture>>)
    ensures Present(xs + ys) == Present(xs) + Present(ys)
    ensures Present([None]) == [] && forall c :: Present([Some(c)]) == [c]
  {
    var none: seq<Option<Capture>> := [None];
    assert none[..0] == [];
    if ys != [] {
      var n := |ys| - 1;
      assert (xs + ys)[..|xs + ys| - 1] == xs + ys[..n];
      PresentConcat(xs, ys[..n]);
    } else {
      assert xs + ys == xs;
    }
    forall c ensures Present([Some(c)]) == [c] {
      var one: seq<Option<Capture>> := [Some(c)];
      assert one[..0] == [];
    }
  }
}
