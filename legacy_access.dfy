// The legacy access-control engine (src/access_control_core.py): a binary
// search for the user's name that relies on sorted ids, the unguarded access
// decision with its nested `parse_time`, and the live loop, which has no
// exception handler, so the first exception ends it.

module LegacyAccess {
  import opened Wrappers
  import opened Entities

  // ---------------------------------------------------------------------
  // parse_time (nested in allow_access)
  // ---------------------------------------------------------------------

  predicate IsDigit(c: char) {
    '0' <= c <= '9'
  }

  function DigitValue(c: char): int
    requires IsDigit(c)
  {
    c as int - '0' as int
  }

  /** The ways strptime's `%H` pattern, `2[0-3]|[0-1]\d|\d`, can match at the
      start of `s`, as (hour, characters consumed), in the order the regular
      expression engine tries them. */
  function HourMatches(s: string): (hs: seq<(int, nat)>)
    ensures forall k :: 0 <= k < |hs| ==> 0 <= hs[k].0 < 24 && 1 <= hs[k].1 <= |s|
  {
    (if |s| >= 2 && s[0] == '2' && '0' <= s[1] <= '3' then [(20 + DigitValue(s[1]), 2)] else [])
    + (if |s| >= 2 && '0' <= s[0] <= '1' && IsDigit(s[1]) then [(10 * DigitValue(s[0]) + DigitValue(s[1]), 2)] else [])
    + (if |s| >= 1 && IsDigit(s[0]) then [(DigitValue(s[0]), 1)] else [])
  }

  /** The first alternative of strptime's `%M` pattern, `[0-5]\d|\d`, that
      matches at the start of `s`, as (minute, characters consumed). */
  function MinuteMatch(s: string): (m: Option<(int, nat)>)
    ensures m.Some? ==> 0 <= m.value.0 < 60 && 1 <= m.value.1 <= |s|
  {
    if |s| >= 2 && '0' <= s[0] <= '5' && IsDigit(s[1]) then Some((10 * DigitValue(s[0]) + DigitValue(s[1]), 2))
    else if |s| >= 1 && IsDigit(s[0]) then Some((DigitValue(s[0]), 1))
    else None
  }

  /** `re.match` of `%H:%M` at the start of `s`: the first hour alternative in
      `hs` that is followed by `:` and a minute; (hour, minute, end of match). */
  function MatchHourMinute(s: string, hs: seq<(int, nat)>): (r: Option<(int, int, nat)>)
    requires forall k :: 0 <= k < |hs| ==> 0 <= hs[k].0 < 24 && 1 <= hs[k].1 <= |s|
    ensures r.Some? ==> 0 <= r.value.0 < 24 && 0 <= r.value.1 < 60 && r.value.2 <= |s|
  {
    if hs == [] then None
    else
      var (h, n) := hs[0];
      if n < |s| && s[n] == ':' && MinuteMatch(s[n + 1..]).Some? then
        var (m, len) := MinuteMatch(s[n + 1..]).value;
        Some((h, m, n + 1 + len))
      else MatchHourMinute(s, hs[1..])
  }

  /** `datetime.strptime(s, "%H:%M").time()`; None for the ValueError raised
      when the pattern does not match or unconverted characters remain. */
  function StrptimeHourMinute(s: string): Option<TimeOfDay> {
    match MatchHourMinute(s, HourMatches(s))
    case None => None
    case Some((h, m, end)) => if end == |s| then Some(Clock(h, m, 0)) else None
  }

  /** The nested `parse_time`; None stands for the ValueError. An int `h`
      becomes `strptime(f"{h}:00:00", "%H:%M:%S")`, which reads exactly the
      hours 0 to 23; a string is read only when it contains a colon. */
  function ParseTime(hour: HourArg): (t: Option<TimeOfDay>)
    ensures hour.IntHour? ==>
      (t.Some? <==> 0 <= hour.hour < 24) && (t.Some? ==> t.value == Clock(hour.hour, 0, 0))
    ensures hour.Text? && ':' !in hour.text ==> t.None?
    ensures hour.OtherValue? ==> t.None?
    // a parsed bound is always a whole minute
    ensures t.Some? ==> t.value % (60 * MicrosPerSecond) == 0
  {
    match hour
    case IntHour(h) => if 0 <= h < 24 then Some(Clock(h, 0, 0)) else None
    case Text(s) => if ':' in s then StrptimeHourMinute(s) else None
    case OtherValue => None
  }

  function Digit(d: int): char
    requires 0 <= d < 10
  {
    ('0' as int + d) as char
  }

  /** The zero-padded rendering `f"{v:02d}"` of a value below 100. */
  function TwoDigits(v: int): string
    requires 0 <= v < 100
  {
    [Digit(v / 10), Digit(v % 10)]
  }

  /** Every well-formed "HH:MM" string parses to that time, seconds zero. */
  lemma ParseZeroPadded(h: int, m: int)
    requires 0 <= h < 24 && 0 <= m < 60
    ensures ParseTime(Text(TwoDigits(h) + ":" + TwoDigits(m))) == Some(Clock(h, m, 0))
  {
    var s := TwoDigits(h) + ":" + TwoDigits(m);
    assert s[2] == ':';
    assert ':' in s;
    assert DigitValue(s[0]) == h / 10 && DigitValue(s[1]) == h % 10;
    assert DigitValue(s[3]) == m / 10 && DigitValue(s[4]) == m % 10;
    assert s[3..] == TwoDigits(m);
    assert MinuteMatch(s[3..]) == Some((m, 2));
    var hs := HourMatches(s);
    assert hs[0] == (h, 2);
  }

  /** A single-digit hour before the colon is read too: "8:05" is 08:05. */
  lemma ParseOneDigitHour(h: int, m: int)
    requires 0 <= h < 10 && 0 <= m < 60
    ensures ParseTime(Text([Digit(h)] + ":" + TwoDigits(m))) == Some(Clock(h, m, 0))
  {
    var s := [Digit(h)] + ":" + TwoDigits(m);
    assert s[1] == ':';
    assert ':' in s;
    assert s[2..] == TwoDigits(m);
    assert MinuteMatch(s[2..]) == Some((m, 2));
    var hs := HourMatches(s);
    assert hs == [(h, 1)];
  }

  /** Out-of-range fields are refused: an hour of 24 and a minute of 60. */
  lemma ParseRejectsRange()
    ensures ParseTime(Text("24:00")) == None
    ensures ParseTime(Text("8:60")) == None
  {
    assert HourMatches("24:00") == [(2, 1)];
    assert MinuteMatch("60") == Some((6, 1));
    assert MatchHourMinute("8:60", HourMatches("8:60")) == Some((8, 6, 3));
  }

  /** Trailing seconds are refused: "08:36:00" leaves unconverted data. */
  lemma ParseRejectsSeconds()
    ensures ParseTime(Text("08:36:00")) == None
  {
    assert HourMatches("08:36:00") == [(8, 2), (0, 1)];
    assert MinuteMatch("36:00") == Some((36, 2));
  }

  /** Strings without a colon are never read: a bare "8" is refused although
      the int 8 is read, and so is a non-numeric string. */
  lemma ParseRejectsBareHour()
    ensures ParseTime(Text("8")) == None && ParseTime(IntHour(8)) == Some(Clock(8, 0, 0))
    ensures ParseTime(Text("abc")) == None
  {
    assert ':' !in "8";
    assert ':' !in "abc";
  }

  /** `x` is what `%H` reads as the hour `h`: two digits below 24, or one. */
  predicate HourText(x: string, h: int) {
    (0 <= h < 24 && x == TwoDigits(h)) || (0 <= h < 10 && x == [Digit(h)])
  }

  /** `x` is what `%M` reads as the minute `m`: two digits below 60, or one. */
  predicate MinuteText(x: string, m: int) {
    (0 <= m < 60 && x == TwoDigits(m)) || (0 <= m < 10 && x == [Digit(m)])
  }

  /** `s` is an hour text, a colon at position `i`, and a minute text. */
  predicate HourMinuteText(s: string, i: int, h: int, m: int) {
    0 <= i < |s| && s[i] == ':' && HourText(s[..i], h) && MinuteText(s[i + 1..], m)
  }

  /** A string is read exactly when it is an hour of one or two digits below
      24, a colon and a minute of one or two digits below 60, and then it is
      read as that time; any other string raises ValueError. */
  lemma ParseTextIff(s: string, t: TimeOfDay)
    ensures ParseTime(Text(s)) == Some(t) <==>
      exists i, h, m :: HourMinuteText(s, i, h, m) && 0 <= h < 24 && 0 <= m < 60 && t == Clock(h, m, 0)
  {
    if ParseTime(Text(s)) == Some(t) {
      var i, h, m := ParseTextSound(s);
    }
    if exists i, h, m :: HourMinuteText(s, i, h, m) && 0 <= h < 24 && 0 <= m < 60 && t == Clock(h, m, 0) {
      var i, h, m :| HourMinuteText(s, i, h, m) && 0 <= h < 24 && 0 <= m < 60 && t == Clock(h, m, 0);
      ParseTextComplete(s, i, h, m);
    }
  }

  lemma DigitOf(c: char)
    requires IsDigit(c)
    ensures Digit(DigitValue(c)) == c
  {
  }

  /** A read string has the shape `HourMinuteText`, and is read as its fields. */
  lemma ParseTextSound(s: string) returns (i: int, h: int, m: int)
    requires ParseTime(Text(s)).Some?
    ensures HourMinuteText(s, i, h, m) && 0 <= h < 24 && 0 <= m < 60
    ensures ParseTime(Text(s)) == Some(Clock(h, m, 0))
  {
    var k;
    i, h, m, k := MatchHourMinuteWitness(s, HourMatches(s));
    var (_, _, end) := MatchHourMinute(s, HourMatches(s)).value;
    assert end == |s|;
    var rest := s[i + 1..];
    var len := MinuteMatch(rest).value.1;
    assert |rest| == len;
    HourMatchText(s, k);
    MinuteMatchText(rest);
  }

  /** The hour alternative and the minute that `re.match` settles on. */
  lemma {:induction false} MatchHourMinuteWitness(s: string, hs: seq<(int, nat)>) returns (i: int, h: int, m: int, k: int)
    requires forall k :: 0 <= k < |hs| ==> 0 <= hs[k].0 < 24 && 1 <= hs[k].1 <= |s|
    requires MatchHourMinute(s, hs).Some?
    ensures 0 <= k < |hs| && hs[k] == (h, i) && i < |s| && s[i] == ':'
    ensures MinuteMatch(s[i + 1..]).Some? && MinuteMatch(s[i + 1..]).value.0 == m
    ensures MatchHourMinute(s, hs).value == (h, m, i + 1 + MinuteMatch(s[i + 1..]).value.1)
  {
    var (h0, n) := hs[0];
    if n < |s| && s[n] == ':' && MinuteMatch(s[n + 1..]).Some? {
      i, h, m, k := n, h0, MinuteMatch(s[n + 1..]).value.0, 0;
    } else {
      i, h, m, k := MatchHourMinuteWitness(s, hs[1..]);
      k := k + 1;
    }
  }

  /** Each `%H` alternative consumes the hour text of the hour it reads. */
  lemma HourMatchText(s: string, k: int)
    requires 0 <= k < |HourMatches(s)|
    ensures HourText(s[..HourMatches(s)[k].1], HourMatches(s)[k].0)
  {
    var (h, n) := HourMatches(s)[k];
    DigitOf(s[0]);
    if n == 2 {
      DigitOf(s[1]);
      assert h / 10 == DigitValue(s[0]) && h % 10 == DigitValue(s[1]);
      assert s[..2] == TwoDigits(h);
    } else {
      assert s[..1] == [Digit(h)];
    }
  }

  /** A `%M` match that ends the string consumes the minute text of its minute. */
  lemma MinuteMatchText(x: string)
    requires MinuteMatch(x).Some? && MinuteMatch(x).value.1 == |x|
    ensures MinuteText(x, MinuteMatch(x).value.0)
  {
    var (m, n) := MinuteMatch(x).value;
    DigitOf(x[0]);
    if n == 2 {
      DigitOf(x[1]);
      assert m / 10 == DigitValue(x[0]) && m % 10 == DigitValue(x[1]);
      assert x == TwoDigits(m);
    } else {
      assert x == [Digit(m)];
    }
  }

  /** Every string of the shape `HourMinuteText` is read as its fields. */
  lemma ParseTextComplete(s: string, i: int, h: int, m: int)
    requires HourMinuteText(s, i, h, m)
    ensures 0 <= h < 24 && 0 <= m < 60
    ensures ParseTime(Text(s)) == Some(Clock(h, m, 0))
  {
    assert ':' in s;
    var rest := s[i + 1..];
    if i == 2 {
      assert s[0] == Digit(h / 10) && s[1] == Digit(h % 10);
      assert HourMatches(s)[0] == (h, 2);
    } else {
      assert s[0] == Digit(h) && s[1] == ':';
      assert HourMatches(s) == [(h, 1)];
    }
    if |rest| == 2 {
      assert rest[0] == Digit(m / 10) && rest[1] == Digit(m % 10);
      assert MinuteMatch(rest) == Some((m, 2));
    } else {
      assert MinuteMatch(rest) == Some((m, 1));
    }
  }

  // ---------------------------------------------------------------------
  // get_name: binary search over ids the code assumes sorted
  // ---------------------------------------------------------------------

  /** The `while l <= r` search of `get_name` from the bounds `l`, `r`. */
  function Search(ids: seq<int>, userId: int, l: int, r: int): (res: Option<nat>)
    requires 0 <= l <= r + 1 <= |ids|
    ensures res.Some? ==> l <= res.value <= r && ids[res.value] == userId
    decreases r - l + 1
  {
    if l > r then None
    else
      var mid := (l + r) / 2;
      if ids[mid] == userId then Some(mid)
      else if ids[mid] < userId then Search(ids, userId, mid + 1, r)
      else Search(ids, userId, l, mid - 1)
  }

  /** In sorted ids a smaller value sits at a smaller position. */
  lemma SortedLess(ids: seq<int>, i: int, j: int)
    requires Sorted(ids)
    requires 0 <= i < |ids| && 0 <= j < |ids| && ids[i] < ids[j]
    ensures i < j
  {
  }

  /** On sorted ids, an id between the bounds is always found. */
  lemma {:induction false} SearchFindsSorted(ids: seq<int>, userId: int, l: int, r: int, k: int)
    requires 0 <= l <= r + 1 <= |ids|
    requires Sorted(ids)
    requires l <= k <= r && ids[k] == userId
    ensures Search(ids, userId, l, r).Some?
    decreases r - l + 1
  {
    var mid := (l + r) / 2;
    if ids[mid] < userId {
      SortedLess(ids, mid, k);
      SearchFindsSorted(ids, userId, mid + 1, r, k);
    } else if ids[mid] > userId {
      SortedLess(ids, k, mid);
      SearchFindsSorted(ids, userId, l, mid - 1, k);
    }
  }

  function NameAt(users: seq<User>, i: Option<nat>): Option<string>
    requires i.Some? ==> i.value < |users|
  {
    match i
    case None => None
    case Some(k) => Some(users[k].name)
  }

  /** The name the binary search yields over the whole roster. */
  function SearchName(allUsers: seq<User>, allIds: seq<int>, userId: int): Option<string>
    requires |allIds| == |allUsers|
  {
    NameAt(allUsers, Search(allIds, userId, 0, |allIds| - 1))
  }

  /** `get_name`: a found name belongs to a user with that id; an absent id
      gives None; on sorted ids a present id is always found. */
  method GetName(userId: int, allUsers: seq<User>, allIds: seq<int>) returns (name: Option<string>)
    requires |allIds| == |allUsers|
    ensures name == SearchName(allUsers, allIds, userId)
    ensures name.Some? ==> exists i :: 0 <= i < |allIds| && allIds[i] == userId && name.value == allUsers[i].name
    ensures userId !in allIds ==> name.None?
    ensures Sorted(allIds) && userId in allIds ==> name.Some?
  {
    if Sorted(allIds) && userId in allIds {
      var k :| 0 <= k < |allIds| && allIds[k] == userId;
      SearchFindsSorted(allIds, userId, 0, |allIds| - 1, k);
    }
    var l, r := 0, |allIds| - 1;
    while l <= r
      invariant 0 <= l <= r + 1 <= |allIds|
      invariant Search(allIds, userId, l, r) == Search(allIds, userId, 0, |allIds| - 1)
      decreases r - l
    {
      var mid := (l + r) / 2;
      if allIds[mid] == userId {
        return Some(allUsers[mid].name);
      } else if allIds[mid] < userId {
        l := mid + 1;
      } else {
        r := mid - 1;
      }
    }
    return None;
  }

  /** On an unsorted roster a present id can be missed: ids [3, 1, 2] and id 3. */
  lemma UnsortedIdsCanBeMissed()
    ensures 3 in [3, 1, 2] && Search([3, 1, 2], 3, 0, 2).None?
  {
    assert Search([3, 1, 2], 3, 2, 2) == Search([3, 1, 2], 3, 3, 2);
  }

  // ---------------------------------------------------------------------
  // allow_access
  // ---------------------------------------------------------------------

  /** `user_name in names`: a TypeError on None; a name the search missed
      (None) is in no list of strings. */
  function Member(name: Option<string>, names: Option<seq<string>>): Option<bool> {
    if names.None? then None else Some(name.Some? && name.value in names.value)
  }

  /** The lists let a known user through to the next test: the whitelist
      does not name them, and the blacklist (when one is reached) does not
      either. A missing list stops the screening with TypeError. */
  predicate Screened(userId: int, users: seq<User>, policy: Policy)
    requires userId in Ids(users)
  {
    var name := SearchName(users, Ids(users), userId);
    Member(name, policy.whitelist) != Some(true)
    && (Member(name, policy.whitelist) == Some(false) ==> Member(name, policy.blacklist) != Some(true))
  }

  /** Both lists are present and name neither way: the hours decide. */
  predicate Unlisted(userId: int, users: seq<User>, policy: Policy)
    requires userId in Ids(users)
  {
    var name := SearchName(users, Ids(users), userId);
    Member(name, policy.whitelist) == Some(false) && Member(name, policy.blacklist) == Some(false)
  }

  /** `allowed_hours[0]` and `allowed_hours[1]` exist and `parse_time` reads both. */
  predicate BoundsRead(policy: Policy) {
    policy.allowedHours.Some? && |policy.allowedHours.value| >= 2
    && ParseTime(policy.allowedHours.value[0]).Some? && ParseTime(policy.allowedHours.value[1]).Some?
  }

  /** `allow_access` for the roster `users` and the time of day `now`. */
  function AllowAccess(userId: int, users: seq<User>, policy: Policy, now: TimeOfDay): (d: Decision)
    // an unknown id is denied before any list or time logic can raise
    ensures d == Deny(UnknownUser) <==> userId !in Ids(users)
    // the whitelist is consulted first, so it wins over the blacklist (even a missing one)
    ensures d == Grant(Whitelisted) <==>
      userId in Ids(users) && Member(SearchName(users, Ids(users), userId), policy.whitelist) == Some(true)
    ensures d == Deny(Blacklisted) <==>
      userId in Ids(users) && Member(SearchName(users, Ids(users), userId), policy.whitelist) == Some(false)
      && Member(SearchName(users, Ids(users), userId), policy.blacklist) == Some(true)
    // a missing list or a missing or short allowed_hours raises instead of denying
    ensures d == Raise(TypeError) <==> (
      userId in Ids(users) && Screened(userId, users, policy)
      && (policy.whitelist.None? || policy.blacklist.None? || policy.allowedHours.None?))
    ensures d == Raise(IndexError) <==> (
      userId in Ids(users) && Unlisted(userId, users, policy) && policy.allowedHours.Some?
      && var hours := policy.allowedHours.value;
         |hours| == 0 || (|hours| == 1 && ParseTime(hours[0]).Some?))
    ensures d == Raise(ValueError) <==> (
      userId in Ids(users) && Unlisted(userId, users, policy) && policy.allowedHours.Some?
      && var hours := policy.allowedHours.value;
         |hours| >= 1 && (ParseTime(hours[0]).None? || (|hours| >= 2 && ParseTime(hours[1]).None?)))
    // a known user is never granted without a time window unless whitelisted
    ensures d.Grant? ==> d == Grant(Whitelisted) || d == Grant(WithinHours)
    // with both bounds read: granted exactly inside the inclusive window, denied outside it
    ensures d == Grant(WithinHours) <==> (
      userId in Ids(users) && Unlisted(userId, users, policy) && BoundsRead(policy)
      && ParseTime(policy.allowedHours.value[0]).value <= now <= ParseTime(policy.allowedHours.value[1]).value)
    ensures d == Deny(OutsideHours) <==> (
      userId in Ids(users) && Unlisted(userId, users, policy) && BoundsRead(policy)
      && !(ParseTime(policy.allowedHours.value[0]).value <= now <= ParseTime(policy.allowedHours.value[1]).value))
  {
    var ids := Ids(users);
    if userId !in ids then Deny(UnknownUser)
    else
      var name := SearchName(users, ids, userId);
      match Member(name, policy.whitelist)
      case None => Raise(TypeError)
      case Some(true) => Grant(Whitelisted)
      case Some(false) =>
        match Member(name, policy.blacklist)
        case None => Raise(TypeError)
        case Some(true) => Deny(Blacklisted)
        case Some(false) =>
          match policy.allowedHours
          case None => Raise(TypeError)
          case Some(hours) =>
            if |hours| == 0 then Raise(IndexError)
            else
              match ParseTime(hours[0])
              case None => Raise(ValueError)
              case Some(start) =>
                if |hours| == 1 then Raise(IndexError)
                else
                  match ParseTime(hours[1])
                  case None => Raise(ValueError)
                  case Some(end) =>
                    if start <= now <= end then Grant(WithinHours) else Deny(OutsideHours)
  }

  /** After the list checks, the window test is inclusive at both ends. */
  lemma WindowInclusive(userId: int, users: seq<User>, policy: Policy, now: TimeOfDay)
    requires userId in Ids(users)
    requires Member(SearchName(users, Ids(users), userId), policy.whitelist) == Some(false)
    requires Member(SearchName(users, Ids(users), userId), policy.blacklist) == Some(false)
    requires policy.allowedHours.Some? && |policy.allowedHours.value| >= 2
    requires ParseTime(policy.allowedHours.value[0]) == Some(now) || ParseTime(policy.allowedHours.value[1]) == Some(now)
    requires ParseTime(policy.allowedHours.value[0]).Some? && ParseTime(policy.allowedHours.value[1]).Some?
    requires ParseTime(policy.allowedHours.value[0]).value <= ParseTime(policy.allowedHours.value[1]).value
    ensures AllowAccess(userId, users, policy, now) == Grant(WithinHours)
  {
  }

  // ---------------------------------------------------------------------
  // real_time_access_control
  // ---------------------------------------------------------------------

  /** What `enable_device_access` is handed: the connected device session, or
      the `ZKConnection` wrapper, which has no `unlock` attribute. */
  datatype UnlockTarget = DeviceSession | ConnectionWrapper

  /** `enable_device_access(target)`: `target.unlock(time=5)`, with any
      exception (the wrapper's AttributeError) caught and reported as False. */
  function EnableDeviceAccess(target: UnlockTarget): (result: (bool, seq<Actuation>))
    // True exactly when the five-second unlock reached the terminal
    ensures result.0 <==> result.1 == [Unlock(UNLOCK_SECONDS)]
    ensures result.1 == [] || result.1 == [Unlock(UNLOCK_SECONDS)]
    // the wrapper's missing `unlock` is swallowed: False, nothing sent
    ensures target == ConnectionWrapper ==> result == (false, [])
  {
    match target
    case DeviceSession => (true, [Unlock(UNLOCK_SECONDS)])
    case ConnectionWrapper => (false, [])
  }

  function Decide(c: Capture, policy: Policy): Decision {
    AllowAccess(c.userId, c.roster, policy, TimeOfDayOf(c.clock))
  }

  /** The device commands issued over a feed, and the exception that ended the
      loop, if one did. */
  datatype LoopRun = LoopRun(actions: seq<Actuation>, raised: Option<PyError>)

  /** The loop over a finite prefix of the feed: a grant calls
      `enable_device_access(target)`, a deny only logs, and the first
      exception propagates out and ends the loop. */
  function Run(feed: seq<Option<Capture>>, policy: Policy, target: UnlockTarget): LoopRun {
    if feed == [] then LoopRun([], None)
    else
      match feed[0]
      case None => Run(feed[1..], policy, target)
      case Some(c) =>
        var d := Decide(c, policy);
        if d.Raise? then LoopRun([], Some(d.error))
        else
          var rest := Run(feed[1..], policy, target);
          var acts := if d.Grant? then EnableDeviceAccess(target).1 else [];
          LoopRun(acts + rest.actions, rest.raised)
  }

  /** `real_time_access_control`; the source hands `enable_device_access` the
      wrapper `conn` (target ConnectionWrapper), the intended call hands it the
      session `zk` (target DeviceSession). */
  method RealTimeAccessControl(feed: seq<Option<Capture>>, policy: Policy, target: UnlockTarget)
    returns (actions: seq<Actuation>, raised: Option<PyError>)
    ensures LoopRun(actions, raised) == Run(feed, policy, target)
  {
    actions, raised := [], None;
    var rest := feed;
    while rest != []
      invariant Run(feed, policy, target) == LoopRun(actions + Run(rest, policy, target).actions, Run(rest, policy, target).raised)
      decreases |rest|
    {
      if rest[0].Some? {
        var d := Decide(rest[0].value, policy);
        if d.Raise? {
          return actions, Some(d.error);
        }
        if d.Grant? {
          var (_, acts) := EnableDeviceAccess(target);
          actions := actions + acts;
        }
      }
      rest := rest[1..];
    }
  }

  /** A capture that raises ends the loop; a None entry or a decided attempt does not. */
  predicate RaisesAt(feed: seq<Option<Capture>>, policy: Policy, i: int)
    requires 0 <= i < |feed|
  {
    feed[i].Some? && Decide(feed[i].value, policy).Raise?
  }

  /** The loop reports an exception exactly when some attempt's decision raises. */
  lemma {:induction false} RunRaisesIff(feed: seq<Option<Capture>>, policy: Policy, target: UnlockTarget)
    ensures Run(feed, policy, target).raised.Some? <==> exists i :: 0 <= i < |feed| && RaisesAt(feed, policy, i)
  {
    if feed == [] {
      return;
    }
    var rest := feed[1..];
    RunRaisesIff(rest, policy, target);
    if RaisesAt(feed, policy, 0) {
      assert Run(feed, policy, target).raised.Some?;
    } else {
      assert Run(feed, policy, target).raised == Run(rest, policy, target).raised;
      if exists i :: 0 <= i < |feed| && RaisesAt(feed, policy, i) {
        var i :| 0 <= i < |feed| && RaisesAt(feed, policy, i);
        assert i > 0 && rest[i - 1] == feed[i];
        assert RaisesAt(rest, policy, i - 1);
      }
      if exists i :: 0 <= i < |rest| && RaisesAt(rest, policy, i) {
        var i :| 0 <= i < |rest| && RaisesAt(rest, policy, i);
        assert rest[i] == feed[i + 1];
        assert RaisesAt(feed, policy, i + 1);
      }
    }
  }

  /** The exception that ends the loop is the one the first raising attempt
      raises. */
  lemma {:induction false} RunRaisesFirst(feed: seq<Option<Capture>>, policy: Policy, target: UnlockTarget, i: int)
    requires 0 <= i < |feed| && RaisesAt(feed, policy, i)
    requires forall j :: 0 <= j < i ==> !RaisesAt(feed, policy, j)
    ensures Run(feed, policy, target).raised == Some(Decide(feed[i].value, policy).error)
  {
    if i > 0 {
      var rest := feed[1..];
      assert !RaisesAt(feed, policy, 0);
      assert Run(feed, policy, target).raised == Run(rest, policy, target).raised;
      assert rest[i - 1] == feed[i];
      forall j | 0 <= j < i - 1
        ensures !RaisesAt(rest, policy, j)
      {
        assert !RaisesAt(feed, policy, j + 1);
        assert rest[j] == feed[j + 1];
      }
      RunRaisesFirst(rest, policy, target, i - 1);
    }
  }

  /** As written: with the wrapper handed to `enable_device_access`, the loop
      never sends the terminal a single command, granted attempts included. */
  lemma {:induction false} WrapperNeverUnlocks(feed: seq<Option<Capture>>, policy: Policy)
    ensures Run(feed, policy, ConnectionWrapper).actions == []
  {
    if feed != [] {
      WrapperNeverUnlocks(feed[1..], policy);
    }
  }

  /** A whitelisted user's attempt: granted, yet the door stays locked as written. */
  lemma GrantedButLocked()
    ensures var alice := User(1, "alice", 0, "");
            var c := Capture(1, [alice], 0);
            var policy := Policy(Some(["alice"]), Some([]), None);
            Decide(c, policy) == Grant(Whitelisted)
            && Run([Some(c)], policy, ConnectionWrapper).actions == []
            && Run([Some(c)], policy, DeviceSession).actions == [Unlock(UNLOCK_SECONDS)]
  {
    var alice := User(1, "alice", 0, "");
    assert Ids([alice]) == [1];
    assert Search([1], 1, 0, 0) == Some(0);
  }

  /** Attempt `i` is granted and no attempt before it raises. */
  predicate GrantedBeforeRaise(feed: seq<Option<Capture>>, policy: Policy, i: int)
    requires 0 <= i < |feed|
  {
    feed[i].Some? && Decide(feed[i].value, policy).Grant?
    && forall j :: 0 <= j < i ==> !RaisesAt(feed, policy, j)
  }

  /** Intended: with the session handed to `enable_device_access`, the only
      command the loop sends is the five-second unlock. */
  lemma {:induction false} SessionOnlyUnlocks(feed: seq<Option<Capture>>, policy: Policy)
    ensures forall a :: a in Run(feed, policy, DeviceSession).actions ==> a == Unlock(UNLOCK_SECONDS)
  {
    if feed != [] {
      SessionOnlyUnlocks(feed[1..], policy);
    }
  }

  /** Intended: with the session handed to `enable_device_access`, the door is
      unlocked exactly when some attempt before the first exception is granted. */
  lemma SessionUnlocksIffGranted(feed: seq<Option<Capture>>, policy: Policy)
    ensures Run(feed, policy, DeviceSession).actions != [] <==>
      exists i :: 0 <= i < |feed| && GrantedBeforeRaise(feed, policy, i)
  {
    if Run(feed, policy, DeviceSession).actions != [] {
      var i := UnlockWitness(feed, policy);
    }
    if exists i :: 0 <= i < |feed| && GrantedBeforeRaise(feed, policy, i) {
      var i :| 0 <= i < |feed| && GrantedBeforeRaise(feed, policy, i);
      GrantUnlocks(feed, policy, i);
    }
  }

  lemma {:induction false} UnlockWitness(feed: seq<Option<Capture>>, policy: Policy) returns (i: int)
    requires Run(feed, policy, DeviceSession).actions != []
    ensures 0 <= i < |feed| && GrantedBeforeRaise(feed, policy, i)
  {
    var rest := feed[1..];
    if feed[0].Some? && Decide(feed[0].value, policy).Grant? {
      i := 0;
    } else {
      assert Run(rest, policy, DeviceSession).actions != [];
      var k := UnlockWitness(rest, policy);
      i := k + 1;
      assert feed[i] == rest[k];
      forall j | 0 <= j < i
        ensures !RaisesAt(feed, policy, j)
      {
        if j > 0 {
          assert !RaisesAt(rest, policy, j - 1);
          assert rest[j - 1] == feed[j];
        }
      }
    }
  }

  lemma {:induction false} GrantUnlocks(feed: seq<Option<Capture>>, policy: Policy, i: int)
    requires 0 <= i < |feed| && GrantedBeforeRaise(feed, policy, i)
    ensures Run(feed, policy, DeviceSession).actions != []
  {
    if i > 0 {
      var rest := feed[1..];
      assert !RaisesAt(feed, policy, 0);
      assert rest[i - 1] == feed[i];
      forall j | 0 <= j < i - 1
        ensures !RaisesAt(rest, policy, j)
      {
        assert !RaisesAt(feed, policy, j + 1);
        assert rest[j] == feed[j + 1];
      }
      GrantUnlocks(rest, policy, i - 1);
    }
  }
}
