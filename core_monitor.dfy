// The earlier security monitor of core.py. It runs the same clock, roster and
// spam checks as src/monitor_core.py, but its attendance check has no guard on
// the configured range and compares whole hours with plain integer bounds:
// `allowed_time_range[0]` and `[1]` are indexed for every record, so a missing
// or short range raises out of the check.

module CoreMonitor {
  import opened Wrappers
  import opened Entities
  import opened Audit

  /** What a check returns: the findings printed before it ended, and the
      exception that ended it, if any. */
  datatype Outcome = Outcome(findings: seq<Finding>, raised: Option<PyError>)

  /** The range test for one record:
      `hour < range[0] or hour > range[1]`, whose `or` does not index
      `range[1]` when the first comparison already holds. Indexing `None`
      raises TypeError; indexing past the end raises IndexError. */
  function HourStep(r: Record, range: Option<seq<int>>): Outcome {
    var hour := RecordHour(r.timestamp);
    if range.None? then Outcome([], Some(TypeError))
    else if |range.value| == 0 then Outcome([], Some(IndexError))
    else if hour < range.value[0] then Outcome([OutOfRange(r)], None)
    else if |range.value| == 1 then Outcome([], Some(IndexError))
    else if hour > range.value[1] then Outcome([OutOfRange(r)], None)
    else Outcome([], None)
  }

  /** The range loop over the window `w`: the first exception ends it. */
  function HourChecks(w: seq<Record>, range: Option<seq<int>>): Outcome {
    if w == [] then Outcome([], None)
    else
      var step := HourStep(w[0], range);
      if step.raised.Some? then step
      else
        var rest := HourChecks(w[1..], range);
        Outcome(step.findings + rest.findings, rest.raised)
  }

  method CheckHours(w: seq<Record>, range: Option<seq<int>>) returns (findings: seq<Finding>, raised: Option<PyError>)
    ensures Outcome(findings, raised) == HourChecks(w, range)
  {
    findings, raised := [], None;
    var rest := w;
    while rest != []
      invariant HourChecks(w, range) == Outcome(findings + HourChecks(rest, range).findings, HourChecks(rest, range).raised)
      decreases |rest|
    {
      var hour := RecordHour(rest[0].timestamp);
      if range.None? {
        return findings, Some(TypeError);
      }
      if |range.value| == 0 {
        return findings, Some(IndexError);
      }
      if hour < range.value[0] {
        findings := findings + [OutOfRange(rest[0])];
      } else if |range.value| == 1 {
        return findings, Some(IndexError);
      } else if hour > range.value[1] {
        findings := findings + [OutOfRange(rest[0])];
      }
      rest := rest[1..];
    }
  }

  /** With at least two bounds nothing raises, and a record is reported
      exactly when it is in the window and its hour lies outside
      `[range[0], range[1]]`. */
  lemma {:induction false} HourAlertIff(w: seq<Record>, bounds: seq<int>, r: Record)
    requires |bounds| >= 2
    ensures HourChecks(w, Some(bounds)).raised.None?
    ensures OutOfRange(r) in HourChecks(w, Some(bounds)).findings <==>
      r in w && (RecordHour(r.timestamp) < bounds[0] || RecordHour(r.timestamp) > bounds[1])
  {
    if w != [] {
      HourAlertIff(w[1..], bounds, r);
      assert w == [w[0]] + w[1..];
    }
  }

  /** With a single bound the check raises IndexError exactly when some
      record's hour is not below it, that is when `range[1]` is reached. */
  lemma {:induction false} SingleBoundRaisesIff(w: seq<Record>, low: int)
    ensures HourChecks(w, Some([low])).raised == Some(IndexError) <==>
      exists i :: 0 <= i < |w| && RecordHour(w[i].timestamp) >= low
    ensures HourChecks(w, Some([low])).raised.None? || HourChecks(w, Some([low])).raised == Some(IndexError)
  {
    if w != [] {
      SingleBoundRaisesIff(w[1..], low);
      if exists i :: 0 <= i < |w[1..]| && RecordHour(w[1..][i].timestamp) >= low {
        var i :| 0 <= i < |w[1..]| && RecordHour(w[1..][i].timestamp) >= low;
        assert RecordHour(w[i + 1].timestamp) >= low;
      }
      if exists i :: 0 <= i < |w| && RecordHour(w[i].timestamp) >= low {
        var i :| 0 <= i < |w| && RecordHour(w[i].timestamp) >= low;
        if i > 0 {
          assert RecordHour(w[1..][i - 1].timestamp) >= low;
        }
      }
    }
  }

  /** The findings of `check_attendances` for the log `records` that
      `get_attendance()` returns; an exception from the range loop skips the
      spam test. */
  function AttendanceOutcome(range: Option<seq<int>>, records: seq<Record>, firstCheck: bool): Outcome {
    var w := CheckWindow(records, firstCheck);
    var head := if records == [] then [NoAttendances] else [];
    var hours := HourChecks(w, range);
    if hours.raised.Some? then Outcome(head + hours.findings, hours.raised)
    else Outcome(head + hours.findings + SpamFindings(w), None)
  }

  method CheckAttendances(range: Option<seq<int>>, records: seq<Record>, firstCheck: bool)
    returns (findings: seq<Finding>, raised: Option<PyError>)
    ensures Outcome(findings, raised) == AttendanceOutcome(range, records, firstCheck)
  {
    findings := if records == [] then [NoAttendances] else [];
    var w := CheckWindow(records, firstCheck);
    var alerts;
    alerts, raised := CheckHours(w, range);
    findings := findings + alerts;
    if raised.Some? {
      return;
    }
    var spam := DetectRapidEntries(w);
    findings := findings + spam;
  }

  /** A missing or empty range is only noticed once there is a record to
      check: then the attendance check raises before reporting anything
      about the log, and runs no spam test. */
  lemma MissingRangeRaises(range: Option<seq<int>>, records: seq<Record>, firstCheck: bool)
    requires range.None? || range.value == []
    ensures AttendanceOutcome(range, records, firstCheck).raised.Some? <==> records != []
    ensures records != [] ==>
      AttendanceOutcome(range, records, firstCheck) == Outcome([], Some(if range.None? then TypeError else IndexError))
  {
    var w := CheckWindow(records, firstCheck);
    if records != [] {
      assert w != [];
      assert HourChecks(w, range) == HourStep(w[0], range);
    }
  }

  /** `check_security`: the clock check, the roster check and the attendance
      check, in that order; an exception from the last ends it. */
  method CheckSecurity(deviceSeconds: int, systemMicros: int, users: seq<User>, adminCount: int,
                       range: Option<seq<int>>, records: seq<Record>, firstCheck: bool)
    returns (findings: seq<Finding>, raised: Option<PyError>)
    ensures findings == GeneralCheck(deviceSeconds, systemMicros) + UserFindings(users, adminCount, firstCheck)
      + AttendanceOutcome(range, records, firstCheck).findings
    ensures raised == AttendanceOutcome(range, records, firstCheck).raised
  {
    var drift := GeneralCheck(deviceSeconds, systemMicros);
    var roster := CheckUsers(users, adminCount, firstCheck);
    var attendance;
    attendance, raised := CheckAttendances(range, records, firstCheck);
    findings := drift + roster + attendance;
  }
}
