// How the versions of the engines relate: the two monitors' range tests
// (whole hours in core.py, times of day in src/monitor_core.py), and the
// legacy and current access decisions on a well-formed configuration.

module Compare {
  import opened Wrappers
  import opened Entities
  import opened Audit
  import AppAccess
  import LegacyAccess
  import Monitor
  import CoreMonitor

  // ---------------------------------------------------------------------
  // The range test: whole hours against times of day
  // ---------------------------------------------------------------------

  /** A record's time of day against the full hour `h:00`, in terms of its
      hour. */
  lemma HourVersusClock(timestamp: int, h: int)
    requires 0 <= h < 24
    ensures RecordTimeOfDay(timestamp) < Clock(h, 0, 0) <==> RecordHour(timestamp) < h
    ensures RecordTimeOfDay(timestamp) > Clock(h, 0, 0) <==>
      RecordHour(timestamp) > h || (RecordHour(timestamp) == h && timestamp % SecondsPerDay != h * 3600)
  {
    var secs := timestamp % SecondsPerDay;
    assert RecordTimeOfDay(timestamp) == secs * MicrosPerSecond;
    assert Clock(h, 0, 0) == (h * 3600) * MicrosPerSecond;
    assert RecordTimeOfDay(timestamp) < Clock(h, 0, 0) <==> secs < h * 3600;
    assert RecordTimeOfDay(timestamp) > Clock(h, 0, 0) <==> secs > h * 3600;
    var hour := RecordHour(timestamp);
    assert hour == secs / 3600;
    assert hour * 3600 <= secs < hour * 3600 + 3600;
  }

  /** With the same integer bounds, read by a `parse_time` that maps an hour
      `h` to `h:00`, the time-of-day test of src/monitor_core.py flags a
      record exactly when the whole-hour test of core.py does, or when the
      record falls after `high:00` within the hour `high` itself. So core.py
      never flags a record inside the last allowed hour, and src flags every
      such record except one at exactly `high:00:00`. */
  lemma RangeTestsDiffer(w: seq<Record>, low: int, high: int, parse: HourArg -> Option<TimeOfDay>, r: Record)
    requires 0 <= low < 24 && 0 <= high < 24
    requires parse(IntHour(low)) == Some(Clock(low, 0, 0)) && parse(IntHour(high)) == Some(Clock(high, 0, 0))
    ensures OutOfRange(r) in Monitor.RangeFindings(w, Window([IntHour(low), IntHour(high)], parse)) <==>
      OutOfRange(r) in CoreMonitor.HourChecks(w, Some([low, high])).findings
      || (r in w && RecordHour(r.timestamp) == high && r.timestamp % SecondsPerDay != high * 3600)
  {
    assert Window([IntHour(low), IntHour(high)], parse) == Some((Clock(low, 0, 0), Clock(high, 0, 0)));
    Monitor.RangeAlertIff(w, Clock(low, 0, 0), Clock(high, 0, 0), r);
    CoreMonitor.HourAlertIff(w, [low, high], r);
    HourVersusClock(r.timestamp, low);
    HourVersusClock(r.timestamp, high);
  }

  /** An attendance at 18:30 against the default range (8, 18): src flags it,
      core.py does not. */
  lemma HalfPastSix(parse: HourArg -> Option<TimeOfDay>)
    requires parse(IntHour(8)) == Some(Clock(8, 0, 0)) && parse(IntHour(18)) == Some(Clock(18, 0, 0))
    ensures var w := [Record(7, 18 * 3600 + 30 * 60)];
      Monitor.RangeFindings(w, Window([IntHour(8), IntHour(18)], parse)) == [OutOfRange(w[0])]
      && CoreMonitor.HourChecks(w, Some([8, 18])) == CoreMonitor.Outcome([], None)
  {
    var w := [Record(7, 18 * 3600 + 30 * 60)];
    assert RecordHour(w[0].timestamp) == 18;
    assert RecordTimeOfDay(w[0].timestamp) == (18 * 3600 + 30 * 60) * MicrosPerSecond;
    assert Window([IntHour(8), IntHour(18)], parse) == Some((Clock(8, 0, 0), Clock(18, 0, 0)));
    assert w[..0] == [];
    assert w[1..] == [];
  }

  // ---------------------------------------------------------------------
  // The access decision: legacy against current
  // ---------------------------------------------------------------------

  predicate StrictlySorted(xs: seq<int>) {
    forall i, j :: 0 <= i < j < |xs| ==> xs[i] < xs[j]
  }

  lemma StrictlySortedIsSorted(xs: seq<int>)
    requires StrictlySorted(xs)
    ensures Sorted(xs)
  {
  }

  lemma StrictlySortedInjective(xs: seq<int>, i: int, j: int)
    requires StrictlySorted(xs)
    requires 0 <= i < |xs| && 0 <= j < |xs| && xs[i] == xs[j]
    ensures i == j
  {
  }

  /** On strictly ascending ids the binary search lands on the position the
      first-match lookup returns. */
  lemma SearchIsIndexOf(ids: seq<int>, userId: int)
    requires StrictlySorted(ids)
    requires userId in ids
    ensures LegacyAccess.Search(ids, userId, 0, |ids| - 1) == AppAccess.IndexOf(ids, userId)
  {
    StrictlySortedIsSorted(ids);
    var k :| 0 <= k < |ids| && ids[k] == userId;
    LegacyAccess.SearchFindsSorted(ids, userId, 0, |ids| - 1, k);
    var found := LegacyAccess.Search(ids, userId, 0, |ids| - 1).value;
    var first := AppAccess.IndexOf(ids, userId).value;
    StrictlySortedInjective(ids, found, first);
  }

  /** So both engines resolve a known id to the same name. */
  lemma LookupsAgree(userId: int, users: seq<User>)
    requires StrictlySorted(Ids(users))
    requires userId in Ids(users)
    ensures LegacyAccess.SearchName(users, Ids(users), userId) == AppAccess.GetName(userId, users, Ids(users))
  {
    var ids := Ids(users);
    SearchIsIndexOf(ids, userId);
    var i := AppAccess.IndexOf(ids, userId).value;
    assert LegacyAccess.SearchName(users, ids, userId) == Some(users[i].name);
    assert AppAccess.GetName(userId, users, ids) == Some(users[i].name);
  }

  /** With ids in strictly ascending order, both lists present and exactly two
      allowed hours, the legacy decision (with its own `parse_time`) is the
      current one, except that a bound that does not parse raises ValueError
      in the legacy engine where the current one denies. */
  lemma VersionsAgree(userId: int, users: seq<User>, policy: Policy, now: TimeOfDay)
    requires StrictlySorted(Ids(users))
    requires policy.whitelist.Some? && policy.blacklist.Some?
    requires policy.allowedHours.Some? && |policy.allowedHours.value| == 2
    ensures var legacy := LegacyAccess.AllowAccess(userId, users, policy, now);
      var current := AppAccess.AllowAccess(userId, users, policy, now, LegacyAccess.ParseTime);
      legacy == current || (legacy == Raise(ValueError) && current == Deny(UnparsableHours))
  {
    if userId in Ids(users) {
      LookupsAgree(userId, users);
      var name := AppAccess.NameOf(users, userId);
      var hours := policy.allowedHours.value;
      assert LegacyAccess.Member(Some(name), policy.whitelist) == Some(AppAccess.Listed(name, policy.whitelist));
      assert LegacyAccess.Member(Some(name), policy.blacklist) == Some(AppAccess.Listed(name, policy.blacklist));
      if !AppAccess.Listed(name, policy.whitelist) && !AppAccess.Listed(name, policy.blacklist) {
        assert AppAccess.AllowAccess(userId, users, policy, now, LegacyAccess.ParseTime) ==
          match Window(hours, LegacyAccess.ParseTime)
          case Some((start, end)) => if start <= now <= end then Grant(WithinHours) else Deny(OutsideHours)
          case None => Deny(UnparsableHours);
      }
    }
  }

  /** An empty allowed-hours list: the current engine lets a known user in at
      any time, the legacy engine raises IndexError. */
  lemma EmptyHoursDiverge(now: TimeOfDay)
    ensures var users := [User(1, "alice", 0, "pw")];
      var policy := Policy(Some([]), Some([]), Some([]));
      AppAccess.AllowAccess(1, users, policy, now, LegacyAccess.ParseTime) == Grant(Unrestricted)
      && LegacyAccess.AllowAccess(1, users, policy, now) == Raise(IndexError)
  {
    var users := [User(1, "alice", 0, "pw")];
    assert Ids(users) == [1];
  }
}
