// The current access-control engine (app/src/access_control_core.py): a
// first-match name lookup, the guarded access decision that turns every
// malformed configuration into a deny, and the per-event body of the two live
// loops (plain and streaming).
//
// The `parse_time` this file imports is defined in no file of this model, so
// the decision takes it as the parameter `parse`; `None` stands for the
// ValueError it raises on a value it cannot read.

module AppAccess {
  import opened Wrappers
  import opened Entities

  /** `xs.index(x)`: the position of the first `x`, or None for the ValueError. */
  function IndexOf(xs: seq<int>, x: int): (r: Option<nat>)
    ensures r.None? <==> x !in xs
    ensures r.Some? ==> r.value < |xs| && xs[r.value] == x && x !in xs[..r.value]
  {
    if xs == [] then None
    else if xs[0] == x then Some(0)
    else
      match IndexOf(xs[1..], x)
      case None => None
      case Some(i) =>
        assert xs[..i + 1] == [xs[0]] + xs[1..][..i];
        Some(i + 1)
  }

  /** `get_name`: the name of the first user whose id is `userId`. */
  function GetName(userId: int, allUsers: seq<User>, allIds: seq<int>): (name: Option<string>)
    requires |allIds| == |allUsers|
    ensures name.None? <==> userId !in allIds
    ensures name.Some? ==>
      exists i :: 0 <= i < |allIds| && allIds[i] == userId && userId !in allIds[..i]
        && name.value == allUsers[i].name
  {
    match IndexOf(allIds, userId)
    case None => None
    case Some(i) => Some(allUsers[i].name)
  }

  /** The name `allow_access` resolves for a user known to the roster. */
  function NameOf(users: seq<User>, userId: int): string
    requires userId in Ids(users)
  {
    GetName(userId, users, Ids(users)).value
  }

  /** `whitelist and name in whitelist` (and the same for the blacklist). */
  predicate Listed(name: string, names: Option<seq<string>>) {
    Truthy(names) && name in names.value
  }

  /** A known user whom neither list names: the allowed hours decide. */
  predicate ReachesHours(userId: int, users: seq<User>, policy: Policy) {
    userId in Ids(users) && !Listed(NameOf(users, userId), policy.whitelist)
    && !Listed(NameOf(users, userId), policy.blacklist)
  }

  /** `allow_access`, for the roster `users` that `get_users()` returns and the
      time of day `now` that `datetime.now()` reads. */
  function AllowAccess(userId: int, users: seq<User>, policy: Policy, now: TimeOfDay,
                       parse: HourArg -> Option<TimeOfDay>): (d: Decision)
    // every malformed input becomes a deny: nothing escapes
    ensures !d.Raise?
    // an unknown id is denied before any list or time logic
    ensures d == Deny(UnknownUser) <==> userId !in Ids(users)
    // the whitelist is consulted first, so it wins over the blacklist
    ensures d == Grant(Whitelisted) <==>
      userId in Ids(users) && Listed(NameOf(users, userId), policy.whitelist)
    ensures d == Deny(Blacklisted) <==>
      userId in Ids(users) && !Listed(NameOf(users, userId), policy.whitelist)
      && Listed(NameOf(users, userId), policy.blacklist)
    // no hours (None or empty) means no time restriction
    ensures d == Grant(Unrestricted) <==>
      ReachesHours(userId, users, policy) && !Truthy(policy.allowedHours)
    // a wrong length or an unreadable bound is a deny, never an exception
    ensures d == Deny(MalformedHours) <==>
      ReachesHours(userId, users, policy) && Truthy(policy.allowedHours) && |policy.allowedHours.value| != 2
    ensures d == Deny(UnparsableHours) <==>
      ReachesHours(userId, users, policy) && Truthy(policy.allowedHours) && |policy.allowedHours.value| == 2
      && Window(policy.allowedHours.value, parse).None?
    // otherwise: granted exactly inside the inclusive window, denied outside it
    ensures d == Grant(WithinHours) <==>
      ReachesHours(userId, users, policy) && Truthy(policy.allowedHours)
      && Window(policy.allowedHours.value, parse).Some?
      && Window(policy.allowedHours.value, parse).value.0 <= now <= Window(policy.allowedHours.value, parse).value.1
    ensures d == Deny(OutsideHours) <==>
      ReachesHours(userId, users, policy) && Truthy(policy.allowedHours)
      && Window(policy.allowedHours.value, parse).Some?
      && !(Window(policy.allowedHours.value, parse).value.0 <= now <= Window(policy.allowedHours.value, parse).value.1)
  {
    var ids := Ids(users);
    if userId !in ids then Deny(UnknownUser)
    else
      var name := GetName(userId, users, ids).value;
      if Listed(name, policy.whitelist) then Grant(Whitelisted)
      else if Listed(name, policy.blacklist) then Deny(Blacklisted)
      else if !Truthy(policy.allowedHours) then Grant(Unrestricted)
      else
        var hours := policy.allowedHours.value;
        if |hours| != 2 then Deny(MalformedHours)
        else
          match (parse(hours[0]), parse(hours[1]))
          case (Some(start), Some(end)) =>
            if start <= now <= end then Grant(WithinHours) else Deny(OutsideHours)
          case _ => Deny(UnparsableHours)
  }

  /** The decision for one live attempt, against the roster and clock read for it. */
  function Decide(c: Capture, policy: Policy, parse: HourArg -> Option<TimeOfDay>): Decision {
    AllowAccess(c.userId, c.roster, policy, TimeOfDayOf(c.clock), parse)
  }

  /** What the terminal is told to do for one attempt: `enable_device_access`
      unlocks for five seconds on a grant, `test_voice(2)` plays the
      "access denied" prompt otherwise. */
  function Actuate(d: Decision): (a: Actuation)
    // the door opens exactly on a grant, for five seconds
    ensures a == Unlock(UNLOCK_SECONDS) <==> d.Grant?
    // every other outcome plays the "access denied" prompt
    ensures a == VoicePrompt(DENIED_VOICE) <==> !d.Grant?
  {
    if d.Grant? then Unlock(UNLOCK_SECONDS) else VoicePrompt(DENIED_VOICE)
  }

  /** The per-event body of `real_time_access_control`, over a finite prefix of
      the live feed (`None` entries are skipped). */
  method RealTimeAccessControl(feed: seq<Option<Capture>>, policy: Policy, parse: HourArg -> Option<TimeOfDay>)
    returns (actions: seq<Actuation>)
    ensures |actions| == |Present(feed)|
    ensures forall i :: 0 <= i < |actions| ==>
      (actions[i] == Unlock(UNLOCK_SECONDS) <==> Decide(Present(feed)[i], policy, parse).Grant?)
      && (actions[i] == VoicePrompt(DENIED_VOICE) <==> !Decide(Present(feed)[i], policy, parse).Grant?)
  {
    actions := [];
    for k := 0 to |feed|
      invariant |actions| == |Present(feed[..k])|
      invariant forall i :: 0 <= i < |actions| ==>
        actions[i] == Actuate(Decide(Present(feed[..k])[i], policy, parse))
    {
      assert feed[..k + 1][..k] == feed[..k];
      match feed[k]
      case None =>
      case Some(attempt) =>
        actions := actions + [Actuate(Decide(attempt, policy, parse))];
    }
    assert feed[..|feed|] == feed;
  }

  datatype EventKind = AccessGranted | AccessDenied

  /** The record `real_time_access_control_stream` yields for one attempt. */
  datatype AccessEvent = AccessEvent(
    kind: EventKind, timestamp: int, userId: int, userName: Option<string>, doorUnlocked: bool)

  /** The event yielded for one attempt, with the actuation issued for it. */
  function Handle(c: Capture, policy: Policy, parse: HourArg -> Option<TimeOfDay>): (Actuation, AccessEvent) {
    var d := Decide(c, policy, parse);
    var name := GetName(c.userId, c.roster, Ids(c.roster));
    var event := if d.Grant? then AccessEvent(AccessGranted, c.clock, c.userId, name, true)
                 else AccessEvent(AccessDenied, c.clock, c.userId, name, false);
    (Actuate(d), event)
  }

  /** The per-event body of `real_time_access_control_stream`: every attempt
      that is not `None` yields exactly one event, in feed order. */
  method RealTimeAccessControlStream(feed: seq<Option<Capture>>, policy: Policy, parse: HourArg -> Option<TimeOfDay>)
    returns (actions: seq<Actuation>, events: seq<AccessEvent>)
    ensures |events| == |actions| == |Present(feed)|
    ensures forall i :: 0 <= i < |events| ==>
      var c := Present(feed)[i];
      var granted := Decide(c, policy, parse).Grant?;
      && events[i].userId == c.userId
      && events[i].timestamp == c.clock
      && events[i].userName == GetName(c.userId, c.roster, Ids(c.roster))
      && (events[i].kind == AccessGranted <==> granted)
      && events[i].doorUnlocked == granted
      && actions[i] == (if granted then Unlock(UNLOCK_SECONDS) else VoicePrompt(DENIED_VOICE))
  {
    actions, events := [], [];
    for k := 0 to |feed|
      invariant |events| == |actions| == |Present(feed[..k])|
      invariant forall i :: 0 <= i < |events| ==>
        (actions[i], events[i]) == Handle(Present(feed[..k])[i], policy, parse)
    {
      assert feed[..k + 1][..k] == feed[..k];
      match feed[k]
      case None =>
      case Some(attempt) =>
        var (act, ev) := Handle(attempt, policy, parse);
        actions, events := actions + [act], events + [ev];
    }
    assert feed[..|feed|] == feed;
  }

  /** The decision depends on the user only through the resolved name: two ids
      that resolve to the same name are treated alike, whatever their ids. */
  lemma SameNameSameDecision(id1: int, id2: int, users: seq<User>, policy: Policy, now: TimeOfDay,
                             parse: HourArg -> Option<TimeOfDay>)
    requires id1 in Ids(users) && id2 in Ids(users)
    requires NameOf(users, id1) == NameOf(users, id2)
    ensures AllowAccess(id1, users, policy, now, parse) == AllowAccess(id2, users, policy, now, parse)
  {
  }
}
