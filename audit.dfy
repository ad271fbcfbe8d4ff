// The security-audit rules shared by src/monitor_core.py and core.py, which
// implement them with the same code: the check window, the per-user grouping,
// the rapid-entry rule over sorted timestamps, the roster check and the clock
// drift check. Each check returns the findings it prints or logs, in order.

module Audit {
  import opened Wrappers
  import opened Entities

  /** One security finding, as printed or logged. A rapid-entry finding
      carries the two timestamps whose gap fired it. */
  datatype Finding =
    | ClockDrift(micros: int)
    | NoUsers
    | TooManyAdmins(count: nat)
    | NoPassword(userId: int)
    | InvalidRange
    | NoAttendances
    | TimeFormatError
    | OutOfRange(record: Record)
    | RapidEntry(userId: int, previous: int, current: int)

  const DRIFT_TOLERANCE_SECONDS: int := 300
  const RAPID_ENTRY_SECONDS: int := 30
  const INCREMENTAL_WINDOW: int := 3

  // ---------------------------------------------------------------------
  // The check window
  // ---------------------------------------------------------------------

  /** The records examined in one cycle: all of them on the first check,
      otherwise the first three (the newest, as the device lists them). */
  function CheckWindow(records: seq<Record>, firstCheck: bool): (w: seq<Record>)
    ensures |w| == if firstCheck || |records| < INCREMENTAL_WINDOW then |records| else INCREMENTAL_WINDOW
    ensures w == records[..|w|]
  {
    if firstCheck then records
    else if |records| < INCREMENTAL_WINDOW then records
    else records[..INCREMENTAL_WINDOW]
  }

  // ---------------------------------------------------------------------
  // Grouping by user (defaultdict(list) filled in window order)
  // ---------------------------------------------------------------------

  /** The keys of `user_times`, in insertion order: each user id once, in the
      order of its first record. */
  function Users(w: seq<Record>): seq<int> {
    if w == [] then []
    else
      var prefix := Users(w[..|w| - 1]);
      var u := w[|w| - 1].userId;
      if u in prefix then prefix else prefix + [u]
  }

  /** `user_times[u]`: the timestamps of `u`'s records, in window order. */
  function UserTimes(w: seq<Record>, u: int): seq<int> {
    if w == [] then []
    else
      var last := w[|w| - 1];
      UserTimes(w[..|w| - 1], u) + (if last.userId == u then [last.timestamp] else [])
  }

  /** A user with no key in `user_times` has no timestamps. */
  lemma {:induction false} UserTimesOfAbsent(w: seq<Record>, u: int)
    requires u !in Users(w)
    ensures UserTimes(w, u) == []
  {
    if w != [] {
      var prefix := w[..|w| - 1];
      assert u !in Users(prefix);
      UserTimesOfAbsent(prefix, u);
    }
  }

  // ---------------------------------------------------------------------
  // times.sort()
  // ---------------------------------------------------------------------

  function Insert(x: int, s: seq<int>): seq<int> {
    if s == [] then [x]
    else if x <= s[0] then [x] + s
    else [s[0]] + Insert(x, s[1..])
  }

  /** The list `times` after `times.sort()`. */
  function Sort(s: seq<int>): seq<int> {
    if s == [] then [] else Insert(s[0], Sort(s[1..]))
  }

  lemma {:induction false} InsertSorted(x: int, s: seq<int>)
    requires Sorted(s)
    ensures |Insert(x, s)| == |s| + 1
    ensures Insert(x, s)[0] == if s != [] && s[0] < x then s[0] else x
    ensures Sorted(Insert(x, s))
    ensures multiset(Insert(x, s)) == multiset(s) + multiset{x}
  {
    if s != [] && x > s[0] {
      var tail := s[1..];
      assert s == [s[0]] + tail;
      assert Sorted(tail);
      InsertSorted(x, tail);
      var r := Insert(x, tail);
      assert Insert(x, s) == [s[0]] + r;
      forall i | 0 <= i < |r|
        ensures s[0] <= r[i]
      {
        assert r[i] in multiset(r);
        assert r[i] in multiset(tail) + multiset{x};
      }
      SortedCons(s[0], r);
    }
  }

  lemma SortedCons(x: int, r: seq<int>)
    requires Sorted(r)
    requires forall i :: 0 <= i < |r| ==> x <= r[i]
    ensures Sorted([x] + r)
  {
  }

  /** `times.sort()` leaves the timestamps in ascending order, as a
      permutation of what they were. */
  lemma {:induction false} SortSorted(s: seq<int>)
    ensures Sorted(Sort(s))
    ensures multiset(Sort(s)) == multiset(s)
  {
    if s != [] {
      assert s == [s[0]] + s[1..];
      SortSorted(s[1..]);
      InsertSorted(s[0], Sort(s[1..]));
    }
  }

  // ---------------------------------------------------------------------
  // The rapid-entry (spam) rule
  // ---------------------------------------------------------------------

  /** `for i in range(1, len(times))` over sorted `times`: one finding per
      adjacent pair less than 30 seconds apart. */
  function RapidPairs(u: int, times: seq<int>): seq<Finding> {
    if |times| < 2 then []
    else
      var n := |times|;
      RapidPairs(u, times[..n - 1])
      + (if times[n - 1] - times[n - 2] < RAPID_ENTRY_SECONDS then [RapidEntry(u, times[n - 2], times[n - 1])] else [])
  }

  /** The spam findings for the users `us`, each over its sorted timestamps. */
  function SpamFor(us: seq<int>, w: seq<Record>): seq<Finding> {
    if us == [] then []
    else
      var u := us[|us| - 1];
      SpamFor(us[..|us| - 1], w) + RapidPairs(u, Sort(UserTimes(w, u)))
  }

  /** All spam findings of a window, users in order of first appearance. */
  function SpamFindings(w: seq<Record>): seq<Finding> {
    SpamFor(Users(w), w)
  }

  /** The `defaultdict(list)` loop: `user_times[att.user_id].append(att.timestamp)`
      for each record of the window; `order` holds the keys in insertion order. */
  method GroupByUser(w: seq<Record>) returns (order: seq<int>, userTimes: map<int, seq<int>>)
    ensures order == Users(w)
    ensures forall u :: u in userTimes <==> u in order
    ensures forall u :: u in userTimes ==> userTimes[u] == UserTimes(w, u)
  {
    userTimes, order := map[], [];
    for i := 0 to |w|
      invariant order == Users(w[..i])
      invariant forall u :: u in userTimes <==> u in order
      invariant forall u :: u in userTimes ==> userTimes[u] == UserTimes(w[..i], u)
    {
      var prefix := w[..i + 1];
      assert prefix[..i] == w[..i];
      var att := w[i];
      if att.userId in userTimes {
        userTimes := userTimes[att.userId := userTimes[att.userId] + [att.timestamp]];
      } else {
        UserTimesOfAbsent(w[..i], att.userId);
        userTimes := userTimes[att.userId := [att.timestamp]];
        order := order + [att.userId];
      }
    }
    assert w[..|w|] == w;
  }

  /** `for i in range(1, len(times))`, over one user's sorted timestamps. */
  method AdjacentGaps(u: int, times: seq<int>) returns (findings: seq<Finding>)
    ensures findings == RapidPairs(u, times)
  {
    findings := [];
    if |times| < 2 {
      return;
    }
    for i := 1 to |times|
      invariant findings == RapidPairs(u, times[..i])
    {
      assert times[..i + 1][..i] == times[..i];
      if times[i] - times[i - 1] < RAPID_ENTRY_SECONDS {
        findings := findings + [RapidEntry(u, times[i - 1], times[i])];
      }
    }
    assert times[..|times|] == times;
  }

  /** One more user of the key list adds that user's pairs. */
  lemma SpamForStep(us: seq<int>, w: seq<Record>, j: int)
    requires 0 <= j < |us|
    ensures SpamFor(us[..j + 1], w) == SpamFor(us[..j], w) + RapidPairs(us[j], Sort(UserTimes(w, us[j])))
  {
    assert us[..j + 1][..j] == us[..j];
  }

  /** The spam check of `check_attendances`: group, sort each user's list in
      place, and walk its adjacent pairs. */
  method DetectRapidEntries(w: seq<Record>) returns (findings: seq<Finding>)
    ensures findings == SpamFindings(w)
  {
    var order, userTimes := GroupByUser(w);
    findings := [];
    for j := 0 to |order|
      invariant findings == SpamFor(order[..j], w)
    {
      var u := order[j];
      assert u in userTimes;
      var times := userTimes[u];
      times := Sort(times);
      var pairs := AdjacentGaps(u, times);
      SpamForStep(order, w, j);
      findings := findings + pairs;
    }
    assert order[..|order|] == order;
  }

  /** Positions `k - 1` and `k` of `times` hold `a` and `b`, less than 30
      seconds apart. */
  predicate ClosePairAt(times: seq<int>, k: int, a: int, b: int) {
    1 <= k < |times| && times[k - 1] == a && times[k] == b && b - a < RAPID_ENTRY_SECONDS
  }

  /** A finding of RapidPairs is an adjacent pair of the sorted timestamps less
      than 30 seconds apart, and every such pair gives one. */
  lemma {:induction false} RapidPairsMember(u: int, times: seq<int>, v: int, a: int, b: int)
    ensures RapidEntry(v, a, b) in RapidPairs(u, times) <==> v == u && exists k :: ClosePairAt(times, k, a, b)
  {
    if |times| >= 2 {
      var n := |times|;
      var prefix := times[..n - 1];
      RapidPairsMember(u, prefix, v, a, b);
      var last := if times[n - 1] - times[n - 2] < RAPID_ENTRY_SECONDS then [RapidEntry(u, times[n - 2], times[n - 1])] else [];
      assert RapidPairs(u, times) == RapidPairs(u, prefix) + last;
      assert RapidEntry(v, a, b) in last <==> v == u && ClosePairAt(times, n - 1, a, b);
      if exists k :: ClosePairAt(prefix, k, a, b) {
        var k :| ClosePairAt(prefix, k, a, b);
        assert ClosePairAt(times, k, a, b);
      }
      if exists k :: ClosePairAt(times, k, a, b) {
        var k :| ClosePairAt(times, k, a, b);
        if k < n - 1 {
          assert ClosePairAt(prefix, k, a, b);
        }
      }
    }
  }

  lemma {:induction false} SpamForMember(us: seq<int>, w: seq<Record>, v: int, a: int, b: int)
    ensures RapidEntry(v, a, b) in SpamFor(us, w) <==>
      v in us && RapidEntry(v, a, b) in RapidPairs(v, Sort(UserTimes(w, v)))
  {
    if us != [] {
      var prefix := us[..|us| - 1];
      var u := us[|us| - 1];
      SpamForMember(prefix, w, v, a, b);
      assert us == prefix + [u];
      RapidPairsMember(u, Sort(UserTimes(w, u)), v, a, b);
    }
  }

  /** The spam check reports nothing but rapid entries, each for the user whose
      timestamps it scanned. */
  lemma {:induction false} RapidPairsOnlyRapid(u: int, times: seq<int>, f: Finding)
    ensures f in RapidPairs(u, times) ==> f.RapidEntry? && f.userId == u
  {
    if |times| >= 2 {
      RapidPairsOnlyRapid(u, times[..|times| - 1], f);
    }
  }

  lemma {:induction false} SpamOnlyRapid(us: seq<int>, w: seq<Record>, f: Finding)
    ensures f in SpamFor(us, w) ==> f.RapidEntry? && f.userId in us
  {
    if us != [] {
      var u := us[|us| - 1];
      SpamOnlyRapid(us[..|us| - 1], w, f);
      RapidPairsOnlyRapid(u, Sort(UserTimes(w, u)), f);
    }
  }

  /** Sound: a rapid-entry finding for `u` names two distinct records of `u`
      in the window, in ascending order, less than 30 seconds apart. */
  lemma RapidEntrySound(w: seq<Record>, u: int, a: int, b: int)
    requires RapidEntry(u, a, b) in SpamFindings(w)
    ensures 0 <= b - a < RAPID_ENTRY_SECONDS
    ensures multiset{a, b} <= multiset(UserTimes(w, u))
  {
    var times := UserTimes(w, u);
    var s := Sort(times);
    SpamForMember(Users(w), w, u, a, b);
    RapidPairsMember(u, s, u, a, b);
    SortSorted(times);
    var k :| ClosePairAt(s, k, a, b);
    assert s[k - 1] <= s[k];
    AdjacentInMultiset(s, k);
    assert multiset(s) == multiset(times);
  }

  lemma AdjacentInMultiset(s: seq<int>, k: int)
    requires 1 <= k < |s|
    ensures multiset{s[k - 1], s[k]} <= multiset(s)
  {
    assert s == s[..k - 1] + [s[k - 1], s[k]] + s[k + 1..];
  }

  /** Every user with a record in the window is a key of `user_times`. */
  lemma {:induction false} UsersHas(w: seq<Record>, i: int)
    requires 0 <= i < |w|
    ensures w[i].userId in Users(w)
  {
    var prefix := w[..|w| - 1];
    if i < |w| - 1 {
      UsersHas(prefix, i);
    }
  }

  /** The keys of `user_times` are the window's users, each exactly once: a
      key belongs to some record, and no key repeats. */
  lemma {:induction false} UsersKeys(w: seq<Record>)
    ensures forall u :: u in Users(w) ==> exists i :: 0 <= i < |w| && w[i].userId == u
    ensures forall i, j :: 0 <= i < j < |Users(w)| ==> Users(w)[i] != Users(w)[j]
  {
    if w != [] {
      var prefix := w[..|w| - 1];
      UsersKeys(prefix);
      forall u | u in Users(w)
        ensures exists i :: 0 <= i < |w| && w[i].userId == u
      {
        if u in Users(prefix) {
          var i :| 0 <= i < |prefix| && prefix[i].userId == u;
          assert w[i] == prefix[i];
        } else {
          assert w[|w| - 1].userId == u;
        }
      }
    }
  }

  /** `UserTimes` keeps every timestamp of `u`: two records of `u` at distinct
      window positions contribute two entries. */
  lemma {:induction false} UserTimesHoldsPair(w: seq<Record>, u: int, i: int, j: int)
    requires 0 <= i < j < |w| && w[i].userId == u && w[j].userId == u
    ensures multiset{w[i].timestamp, w[j].timestamp} <= multiset(UserTimes(w, u))
  {
    var prefix := w[..|w| - 1];
    if j < |w| - 1 {
      UserTimesHoldsPair(prefix, u, i, j);
    } else {
      UserTimesHolds(prefix, u, i);
    }
  }

  lemma {:induction false} UserTimesHolds(w: seq<Record>, u: int, i: int)
    requires 0 <= i < |w| && w[i].userId == u
    ensures w[i].timestamp in multiset(UserTimes(w, u))
  {
    var prefix := w[..|w| - 1];
    if i < |w| - 1 {
      UserTimesHolds(prefix, u, i);
    }
  }

  /** Two entries of a multiset occupy two distinct positions. */
  lemma TwoPositions(s: seq<int>, a: int, b: int) returns (p: int, q: int)
    requires multiset{a, b} <= multiset(s)
    ensures 0 <= p < |s| && 0 <= q < |s| && p != q && s[p] == a && s[q] == b
  {
    assert a in multiset(s);
    p :| 0 <= p < |s| && s[p] == a;
    var rest := s[..p] + s[p + 1..];
    assert s == s[..p] + [a] + s[p + 1..];
    assert multiset(rest) == multiset(s) - multiset{a};
    assert b in multiset(rest);
    var r :| 0 <= r < |rest| && rest[r] == b;
    q := if r < p then r else r + 1;
  }

  /** In an ascending sequence, two entries less than 30 apart have an
      adjacent pair less than 30 apart between them. */
  lemma CloseNeighbours(s: seq<int>, p: int, q: int) returns (k: int)
    requires Sorted(s)
    requires 0 <= p < |s| && 0 <= q < |s| && p != q
    requires -RAPID_ENTRY_SECONDS < s[q] - s[p] < RAPID_ENTRY_SECONDS
    ensures 1 <= k < |s| && s[k] - s[k - 1] < RAPID_ENTRY_SECONDS
  {
    var lo := if p < q then p else q;
    var hi := if p < q then q else p;
    k := lo + 1;
    assert s[k] <= s[hi];
  }

  /** Complete: two records of the same user in the window less than 30
      seconds apart always raise a rapid-entry finding for that user. */
  lemma RapidEntryComplete(w: seq<Record>, i: int, j: int)
    requires 0 <= i < |w| && 0 <= j < |w| && i != j
    requires w[i].userId == w[j].userId
    requires -RAPID_ENTRY_SECONDS < w[j].timestamp - w[i].timestamp < RAPID_ENTRY_SECONDS
    ensures exists a, b :: RapidEntry(w[i].userId, a, b) in SpamFindings(w)
  {
    var u := w[i].userId;
    if i < j {
      UserTimesHoldsPair(w, u, i, j);
    } else {
      UserTimesHoldsPair(w, u, j, i);
      assert multiset{w[j].timestamp, w[i].timestamp} == multiset{w[i].timestamp, w[j].timestamp};
    }
    var times := UserTimes(w, u);
    var s := Sort(times);
    SortSorted(times);
    var p, q := TwoPositions(s, w[i].timestamp, w[j].timestamp);
    var k := CloseNeighbours(s, p, q);
    assert ClosePairAt(s, k, s[k - 1], s[k]);
    RapidPairsMember(u, s, u, s[k - 1], s[k]);
    UsersHas(w, i);
    SpamForMember(Users(w), w, u, s[k - 1], s[k]);
    assert RapidEntry(u, s[k - 1], s[k]) in SpamFindings(w);
  }

  /** The findings of a window holding two records of one user, `gap` seconds apart. */
  lemma SpamOfPair(u: int, t: int, gap: nat)
    ensures SpamFindings([Record(u, t), Record(u, t + gap)]) ==
      if gap < RAPID_ENTRY_SECONDS then [RapidEntry(u, t, t + gap)] else []
  {
    var first := [Record(u, t)];
    var w := first + [Record(u, t + gap)];
    assert w[..1] == first && first[..0] == [];
    assert Users(first) == [u];
    assert Users(w) == [u];
    assert UserTimes(first, u) == [t];
    assert UserTimes(w, u) == [t, t + gap];
    assert [t, t + gap][1..] == [t + gap];
    assert Sort([t + gap]) == [t + gap];
    assert Sort([t, t + gap]) == [t, t + gap];
    assert [t, t + gap][..1] == [t];
    assert [u][..0] == [];
    assert RapidPairs(u, [t]) == [];
    assert SpamFor([u], w) == RapidPairs(u, [t, t + gap]);
    assert w == [Record(u, t), Record(u, t + gap)];
  }

  /** The strict boundary: two entries 29 seconds apart raise one finding, 30
      seconds apart none. */
  lemma RapidEntryBoundary(u: int, t: int)
    ensures SpamFindings([Record(u, t), Record(u, t + 29)]) == [RapidEntry(u, t, t + 29)]
    ensures SpamFindings([Record(u, t), Record(u, t + 30)]) == []
  {
    SpamOfPair(u, t, 29);
    SpamOfPair(u, t, 30);
  }

  // ---------------------------------------------------------------------
  // check_users
  // ---------------------------------------------------------------------

  /** `len([u for u in users if u.privilege == const.USER_ADMIN])` */
  function AdminCount(users: seq<User>): (n: nat)
    ensures n <= |users|
  {
    if users == [] then 0
    else AdminCount(users[..|users| - 1]) + (if users[|users| - 1].privilege == USER_ADMIN then 1 else 0)
  }

  /** The admin count adds up over the roster: the count of two stretches is
      the sum of their counts, and one user counts 1 exactly when its
      privilege is `USER_ADMIN`. */
  lemma {:induction false} AdminCountConcat(xs: seq<User>, ys: seq<User>)
    ensures AdminCount(xs + ys) == AdminCount(xs) + AdminCount(ys)
    ensures forall u :: AdminCount([u]) == if u.privilege == USER_ADMIN then 1 else 0
  {
    if ys != [] {
      var n := |ys| - 1;
      assert (xs + ys)[..|xs + ys| - 1] == xs + ys[..n];
      AdminCountConcat(xs, ys[..n]);
    } else {
      assert xs + ys == xs;
    }
    forall u ensures AdminCount([u]) == if u.privilege == USER_ADMIN then 1 else 0 {
      var one := [u];
      assert one[..0] == [];
    }
  }

  /** One finding per user with an unset (empty) password, in roster order. */
  function PasswordFindings(users: seq<User>): seq<Finding> {
    if users == [] then []
    else
      var u := users[|users| - 1];
      PasswordFindings(users[..|users| - 1]) + (if u.password == "" then [NoPassword(u.userId)] else [])
  }

  /** The findings of `check_users` for the roster `users`. */
  function UserFindings(users: seq<User>, adminCount: int, firstCheck: bool): seq<Finding> {
    if users == [] then [NoUsers]
    else
      (if AdminCount(users) > adminCount then [TooManyAdmins(AdminCount(users))] else [])
      + (if firstCheck then PasswordFindings(users) else [])
  }

  /** The first-check loop of `check_users` over the roster. */
  method PasswordAlerts(users: seq<User>) returns (findings: seq<Finding>)
    ensures findings == PasswordFindings(users)
  {
    findings := [];
    for i := 0 to |users|
      invariant findings == PasswordFindings(users[..i])
    {
      assert users[..i + 1][..i] == users[..i];
      if users[i].password == "" {
        findings := findings + [NoPassword(users[i].userId)];
      }
    }
    assert users[..|users|] == users;
  }

  /** `check_users`, for the roster `users` the device returns. */
  method CheckUsers(users: seq<User>, adminCount: int, firstCheck: bool) returns (findings: seq<Finding>)
    ensures findings == UserFindings(users, adminCount, firstCheck)
  {
    if users == [] {
      return [NoUsers];
    }
    var admins := AdminCount(users);
    findings := if admins > adminCount then [TooManyAdmins(admins)] else [];
    if firstCheck {
      var alerts := PasswordAlerts(users);
      findings := findings + alerts;
    }
  }

  /** The user at position `k` has id `id` and no password. */
  predicate UnsetPasswordAt(users: seq<User>, k: int, id: int) {
    0 <= k < |users| && users[k].userId == id && users[k].password == ""
  }

  lemma {:induction false} PasswordFindingsMember(users: seq<User>, f: Finding)
    ensures f in PasswordFindings(users) <==> f.NoPassword? && exists k :: UnsetPasswordAt(users, k, f.userId)
  {
    if users != [] {
      var n := |users|;
      var prefix := users[..n - 1];
      PasswordFindingsMember(prefix, f);
      var last := if users[n - 1].password == "" then [NoPassword(users[n - 1].userId)] else [];
      assert PasswordFindings(users) == PasswordFindings(prefix) + last;
      assert f in last <==> f.NoPassword? && UnsetPasswordAt(users, n - 1, f.userId);
      if f.NoPassword? && exists k :: UnsetPasswordAt(prefix, k, f.userId) {
        var k :| UnsetPasswordAt(prefix, k, f.userId);
        assert UnsetPasswordAt(users, k, f.userId);
      }
      if f.NoPassword? && exists k :: UnsetPasswordAt(users, k, f.userId) {
        var k :| UnsetPasswordAt(users, k, f.userId);
        if k < n - 1 {
          assert UnsetPasswordAt(prefix, k, f.userId);
        }
      }
    }
  }

  /** The password alerts add up over the roster: those of two stretches are
      the first's followed by the second's, and one user contributes one alert
      exactly when its password is empty. */
  lemma {:induction false} PasswordFindingsConcat(xs: seq<User>, ys: seq<User>)
    ensures PasswordFindings(xs + ys) == PasswordFindings(xs) + PasswordFindings(ys)
    ensures forall u :: PasswordFindings([u]) == if u.password == "" then [NoPassword(u.userId)] else []
  {
    if ys != [] {
      var n := |ys| - 1;
      assert (xs + ys)[..|xs + ys| - 1] == xs + ys[..n];
      PasswordFindingsConcat(xs, ys[..n]);
    } else {
      assert xs + ys == xs;
    }
    forall u ensures PasswordFindings([u]) == if u.password == "" then [NoPassword(u.userId)] else [] {
      var one := [u];
      assert one[..0] == [];
    }
  }

  /** The roster rules: an empty roster yields only "no users"; the admin alert
      fires exactly when the admins outnumber the threshold; a password alert
      for an id, only on the first check, exactly when some user with that id
      has no password. */
  lemma UserFindingsRules(users: seq<User>, adminCount: int, firstCheck: bool)
    ensures users == [] ==> UserFindings(users, adminCount, firstCheck) == [NoUsers]
    ensures forall n: nat :: TooManyAdmins(n) in UserFindings(users, adminCount, firstCheck) <==>
      users != [] && n == AdminCount(users) && n > adminCount
    ensures forall id :: NoPassword(id) in UserFindings(users, adminCount, firstCheck) <==>
      firstCheck && exists k :: UnsetPasswordAt(users, k, id)
  {
    forall n: nat ensures TooManyAdmins(n) in PasswordFindings(users) <==> false {
      PasswordFindingsMember(users, TooManyAdmins(n));
    }
    forall id ensures NoPassword(id) in PasswordFindings(users) <==> exists k :: UnsetPasswordAt(users, k, id) {
      PasswordFindingsMember(users, NoPassword(id));
    }
  }

  /** Three admins against a threshold of two raise the alert with count 3. */
  lemma ExcessAdminsScenario()
    ensures var admin := User(1, "a", USER_ADMIN, "p");
            UserFindings([admin, admin.(userId := 2), admin.(userId := 3)], 2, false) == [TooManyAdmins(3)]
  {
    var admin := User(1, "a", USER_ADMIN, "p");
    var users := [admin, admin.(userId := 2), admin.(userId := 3)];
    assert users[..2][..1] == [admin];
    assert AdminCount(users[..2]) == 2;
  }

  // ---------------------------------------------------------------------
  // general_check
  // ---------------------------------------------------------------------

  function Abs(x: int): nat {
    if x < 0 then -x else x
  }

  /** `general_check`: the device clock (whole seconds) against the host clock
      (microseconds); a drift above 300 seconds is a finding. */
  function GeneralCheck(deviceSeconds: int, systemMicros: int): (findings: seq<Finding>)
    // at most one finding, carrying the drift in microseconds
    ensures findings == [] || findings == [ClockDrift(Abs(deviceSeconds * MicrosPerSecond - systemMicros))]
    // reported exactly when the clocks are more than 300 seconds apart, either way
    ensures findings != [] <==>
      deviceSeconds * MicrosPerSecond - systemMicros > DRIFT_TOLERANCE_SECONDS * MicrosPerSecond
      || systemMicros - deviceSeconds * MicrosPerSecond > DRIFT_TOLERANCE_SECONDS * MicrosPerSecond
  {
    var drift := Abs(deviceSeconds * MicrosPerSecond - systemMicros);
    if drift > DRIFT_TOLERANCE_SECONDS * MicrosPerSecond then [ClockDrift(drift)] else []
  }

  /** The drift rule is strict and symmetric: exactly 300 seconds either way is
      tolerated, one microsecond more is reported. */
  lemma DriftBoundary(deviceSeconds: int)
    ensures GeneralCheck(deviceSeconds, (deviceSeconds + 300) * MicrosPerSecond) == []
    ensures GeneralCheck(deviceSeconds, (deviceSeconds - 300) * MicrosPerSecond) == []
    ensures GeneralCheck(deviceSeconds, (deviceSeconds + 300) * MicrosPerSecond + 1) != []
    ensures GeneralCheck(deviceSeconds, (deviceSeconds - 300) * MicrosPerSecond - 1) != []
  {
  }
}
