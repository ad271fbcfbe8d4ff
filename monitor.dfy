// The security monitor of src/monitor_core.py: the three periodic checks
// (device clock, roster, attendance log) and the attendance check's guard on
// the configured range, its time-of-day range test and its spam test.
//
// The `parse_time` this file imports is defined in no file of this model, so
// the checks take it as the parameter `parse`; `None` stands for the
// ValueError it raises on a value it cannot read.

module Monitor {
  import opened Wrappers
  import opened Entities
  import opened Audit

  // ---------------------------------------------------------------------
  // The time-of-day range test
  // ---------------------------------------------------------------------

  /** What one record of the window contributes to the range test, given the
      bounds parsed for it: a format error when `parse_time` raised, an alert
      when its time of day lies outside the inclusive window. */
  function RangeStep(r: Record, bounds: Option<(TimeOfDay, TimeOfDay)>): seq<Finding> {
    match bounds
    case None => [TimeFormatError]
    case Some((start, end)) =>
      if start <= RecordTimeOfDay(r.timestamp) <= end then [] else [OutOfRange(r)]
  }

  /** The findings of the range test over the window `w`, in window order. */
  function RangeFindings(w: seq<Record>, bounds: Option<(TimeOfDay, TimeOfDay)>): seq<Finding> {
    if w == [] then []
    else RangeFindings(w[..|w| - 1], bounds) + RangeStep(w[|w| - 1], bounds)
  }

  /** The range loop of `check_attendances`: the bounds are parsed again for
      every record, and a record whose bounds do not parse is skipped. */
  method CheckRange(w: seq<Record>, range: seq<HourArg>, parse: HourArg -> Option<TimeOfDay>)
    returns (findings: seq<Finding>)
    requires |range| == 2
    ensures findings == RangeFindings(w, Window(range, parse))
  {
    findings := [];
    for k := 0 to |w|
      invariant findings == RangeFindings(w[..k], Window(range, parse))
    {
      assert w[..k + 1][..k] == w[..k];
      var attendanceTime := RecordTimeOfDay(w[k].timestamp);
      var start, end := parse(range[0]), parse(range[1]);
      if start.None? || end.None? {
        findings := findings + [TimeFormatError];
      } else if !(start.value <= attendanceTime <= end.value) {
        findings := findings + [OutOfRange(w[k])];
      }
    }
    assert w[..|w|] == w;
  }

  lemma {:induction false} RangeFindingsMember(w: seq<Record>, bounds: Option<(TimeOfDay, TimeOfDay)>, f: Finding)
    ensures f in RangeFindings(w, bounds) <==> exists i :: 0 <= i < |w| && f in RangeStep(w[i], bounds)
  {
    if w != [] {
      var prefix := w[..|w| - 1];
      RangeFindingsMember(prefix, bounds, f);
      if exists i :: 0 <= i < |prefix| && f in RangeStep(prefix[i], bounds) {
        var i :| 0 <= i < |prefix| && f in RangeStep(prefix[i], bounds);
        assert w[i] == prefix[i];
      }
      if exists i :: 0 <= i < |w| && f in RangeStep(w[i], bounds) {
        var i :| 0 <= i < |w| && f in RangeStep(w[i], bounds);
        if i < |w| - 1 {
          assert prefix[i] == w[i];
        }
      }
    }
  }

  /** The range test reports nothing but format errors and out-of-range
      alerts. */
  lemma {:induction false} RangeFindingsKinds(w: seq<Record>, bounds: Option<(TimeOfDay, TimeOfDay)>, f: Finding)
    ensures f in RangeFindings(w, bounds) ==> f == TimeFormatError || f.OutOfRange?
  {
    if w != [] {
      RangeFindingsKinds(w[..|w| - 1], bounds, f);
    }
  }

  /** With bounds that parse, a record is reported exactly when it is in the
      window and its time of day lies outside the inclusive window. */
  lemma RangeAlertIff(w: seq<Record>, start: TimeOfDay, end: TimeOfDay, r: Record)
    ensures OutOfRange(r) in RangeFindings(w, Some((start, end))) <==>
      r in w && !(start <= RecordTimeOfDay(r.timestamp) <= end)
  {
    RangeFindingsMember(w, Some((start, end)), OutOfRange(r));
    if r in w {
      var i :| 0 <= i < |w| && w[i] == r;
      assert OutOfRange(r) in RangeStep(w[i], Some((start, end))) <==> !(start <= RecordTimeOfDay(r.timestamp) <= end);
    }
  }

  /** With bounds that do not parse, every record gives one format error and
      no record is ever reported as out of range. */
  lemma {:induction false} UnparsableRangeReportsFormat(w: seq<Record>)
    ensures |RangeFindings(w, None)| == |w|
    ensures forall f :: f in RangeFindings(w, None) ==> f == TimeFormatError
  {
    if w != [] {
      UnparsableRangeReportsFormat(w[..|w| - 1]);
    }
  }

  // ---------------------------------------------------------------------
  // check_attendances
  // ---------------------------------------------------------------------

  /** The guard of `check_attendances`: a range that is missing, empty or not
      exactly two entries long. */
  predicate InvalidRangeConfig(range: Option<seq<HourArg>>) {
    !Truthy(range) || |range.value| != 2
  }

  /** The findings of `check_attendances` for the log `records` that
      `get_attendance()` returns. An invalid range stops the check before the
      log is read, so the spam test is skipped too. */
  function AttendanceFindings(range: Option<seq<HourArg>>, records: seq<Record>, firstCheck: bool,
                              parse: HourArg -> Option<TimeOfDay>): seq<Finding> {
    if InvalidRangeConfig(range) then [InvalidRange]
    else
      var w := CheckWindow(records, firstCheck);
      (if records == [] then [NoAttendances] else [])
      + RangeFindings(w, Window(range.value, parse))
      + SpamFindings(w)
  }

  method CheckAttendances(range: Option<seq<HourArg>>, records: seq<Record>, firstCheck: bool,
                          parse: HourArg -> Option<TimeOfDay>) returns (findings: seq<Finding>)
    ensures findings == AttendanceFindings(range, records, firstCheck, parse)
  {
    if !range.Some? || range.value == [] || |range.value| != 2 {
      return [InvalidRange];
    }
    findings := if records == [] then [NoAttendances] else [];
    var w := CheckWindow(records, firstCheck);
    var alerts := CheckRange(w, range.value, parse);
    var spam := DetectRapidEntries(w);
    findings := findings + alerts + spam;
  }

  /** The guard is the only source of the invalid-range finding, and it
      suppresses every other attendance finding. */
  lemma InvalidRangeIff(range: Option<seq<HourArg>>, records: seq<Record>, firstCheck: bool,
                        parse: HourArg -> Option<TimeOfDay>)
    ensures AttendanceFindings(range, records, firstCheck, parse) == [InvalidRange] <==> InvalidRangeConfig(range)
  {
    if !InvalidRangeConfig(range) {
      var w := CheckWindow(records, firstCheck);
      var bounds := Window(range.value, parse);
      var head: seq<Finding> := if records == [] then [NoAttendances] else [];
      assert AttendanceFindings(range, records, firstCheck, parse) == head + RangeFindings(w, bounds) + SpamFindings(w);
      RangeFindingsKinds(w, bounds, InvalidRange);
      SpamOnlyRapid(Users(w), w, InvalidRange);
      assert InvalidRange !in head + RangeFindings(w, bounds) + SpamFindings(w);
    }
  }

  /** With a valid range: an out-of-range alert is raised exactly for the
      records of the check window whose time of day lies outside the parsed
      window, and for no record when the bounds do not parse. */
  lemma AttendanceRangeAlerts(range: Option<seq<HourArg>>, records: seq<Record>, firstCheck: bool,
                              parse: HourArg -> Option<TimeOfDay>, r: Record)
    requires !InvalidRangeConfig(range)
    ensures OutOfRange(r) in AttendanceFindings(range, records, firstCheck, parse) <==>
      r in CheckWindow(records, firstCheck) && Window(range.value, parse).Some?
      && !(Window(range.value, parse).value.0 <= RecordTimeOfDay(r.timestamp) <= Window(range.value, parse).value.1)
  {
    var w := CheckWindow(records, firstCheck);
    var bounds := Window(range.value, parse);
    SpamOnlyRapid(Users(w), w, OutOfRange(r));
    match bounds
    case Some((start, end)) =>
      RangeAlertIff(w, start, end, r);
    case None =>
      UnparsableRangeReportsFormat(w);
  }

  /** With a valid range, the rapid-entry alerts are exactly those of the spam
      test over the check window. */
  lemma AttendanceSpamAlerts(range: Option<seq<HourArg>>, records: seq<Record>, firstCheck: bool,
                             parse: HourArg -> Option<TimeOfDay>, u: int, a: int, b: int)
    requires !InvalidRangeConfig(range)
    ensures RapidEntry(u, a, b) in AttendanceFindings(range, records, firstCheck, parse) <==>
      RapidEntry(u, a, b) in SpamFindings(CheckWindow(records, firstCheck))
  {
    var w := CheckWindow(records, firstCheck);
    var head: seq<Finding> := if records == [] then [NoAttendances] else [];
    assert AttendanceFindings(range, records, firstCheck, parse) ==
      head + RangeFindings(w, Window(range.value, parse)) + SpamFindings(w);
    RangeFindingsKinds(w, Window(range.value, parse), RapidEntry(u, a, b));
  }

  // ---------------------------------------------------------------------
  // check_security
  // ---------------------------------------------------------------------

  /** `check_security`: the clock check, the roster check and the attendance
      check, in that order. The device clock, the host clock, the roster and
      the log are what the device session and `datetime.now()` return. */
  method CheckSecurity(deviceSeconds: int, systemMicros: int, users: seq<User>, adminCount: int,
                       range: Option<seq<HourArg>>, records: seq<Record>, firstCheck: bool,
                       parse: HourArg -> Option<TimeOfDay>) returns (findings: seq<Finding>)
    ensures findings == GeneralCheck(deviceSeconds, systemMicros) + UserFindings(users, adminCount, firstCheck)
      + AttendanceFindings(range, records, firstCheck, parse)
  {
    var drift := GeneralCheck(deviceSeconds, systemMicros);
    var roster := CheckUsers(users, adminCount, firstCheck);
    var attendance := CheckAttendances(range, records, firstCheck, parse);
    findings := drift + roster + attendance;
  }
}
