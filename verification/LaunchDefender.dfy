/**
 App launch events as the binder layer delivers them, and the filter in front of the event manager
 that lets only launches in the documented order through.
 */
module LaunchDefender {
  import opened Wrappers
  import opened Bytes

  // The event types; the binder layer casts any int32_t into one.
  datatype Kind =
    | Uninitialized
    | IntentStarted
    | IntentFailed
    | ActivityLaunched
    | ActivityLaunchFinished
    | ActivityLaunchCancelled
    | ReportFullyDrawn
    | Unnamed(code: int)

  datatype Temperature = Cold | Warm | Hot | NoTemperature(code: int)

  datatype Intent = Intent(hasComponent: bool, packageName: Text, className: Text)

  datatype LaunchEvent = LaunchEvent(
    kind: Kind, sequenceId: nat, intent: Intent, temperature: Temperature, title: Text, timestampNanos: int)

  datatype Verdict = Accept | Overwrite(replacement: LaunchEvent) | Reject

  // The type the filter remembers next, and its verdict.
  function Judge(last: Kind, event: LaunchEvent): (Kind, Verdict) {
    match last
    case IntentStarted =>
      if event.kind.IntentFailed? || event.kind.ActivityLaunched? then (event.kind, Accept)
      else (IntentFailed, Overwrite(event.(kind := IntentFailed)))
    case ActivityLaunched =>
      if event.kind.ActivityLaunchFinished? || event.kind.ActivityLaunchCancelled? then (event.kind, Accept)
      else (ActivityLaunchCancelled, Overwrite(event.(kind := ActivityLaunchCancelled)))
    case ActivityLaunchFinished =>
      if event.kind.IntentStarted? || event.kind.ReportFullyDrawn? then (event.kind, Accept)
      else (Uninitialized, Reject)
    case _ =>
      if event.kind.IntentStarted? then (event.kind, Accept) else (Uninitialized, Reject)
  }

  function Passed(event: LaunchEvent, verdict: Verdict): seq<LaunchEvent> {
    match verdict
    case Accept => [event]
    case Overwrite(replacement) => [replacement]
    case Reject => []
  }

  class AppLaunchEventDefender {
    var lastEventType: Kind

    constructor ()
      ensures lastEventType == Uninitialized
    {
      lastEventType := Uninitialized;
    }

    method OnAppLaunchEvent(event: LaunchEvent) returns (result: Verdict)
      requires !lastEventType.Unnamed?
      modifies this
      ensures !lastEventType.Unnamed?
      ensures (lastEventType, result) == Judge(old(lastEventType), event)
    {
      match lastEventType {
        case Uninitialized | IntentFailed | ActivityLaunchCancelled | ReportFullyDrawn =>
          if event.kind != IntentStarted {
            lastEventType := Uninitialized;
            return Reject;
          }
          lastEventType := event.kind;
          return Accept;
        case IntentStarted =>
          if event.kind == IntentFailed || event.kind == ActivityLaunched {
            lastEventType := event.kind;
            return Accept;
          }
          lastEventType := IntentFailed;
          return Overwrite(event.(kind := IntentFailed));
        case ActivityLaunched =>
          if event.kind == ActivityLaunchFinished || event.kind == ActivityLaunchCancelled {
            lastEventType := event.kind;
            return Accept;
          }
          lastEventType := ActivityLaunchCancelled;
          return Overwrite(event.(kind := ActivityLaunchCancelled));
        case ActivityLaunchFinished =>
          if event.kind == IntentStarted || event.kind == ReportFullyDrawn {
            lastEventType := event.kind;
            return Accept;
          }
          lastEventType := Uninitialized;
          return Reject;
      }
    }
  }

  // The event manager's side: what its subject has emitted, for the events received so far.
  class LaunchEventGate {
    const defender: AppLaunchEventDefender
    var delivered: seq<LaunchEvent>
    ghost var received: seq<LaunchEvent>

    ghost predicate Valid()
      reads this, defender
    {
      !defender.lastEventType.Unnamed? && Filtered(defender.lastEventType, delivered) == Filter(received)
    }

    constructor ()
      ensures Valid() && fresh(defender) && received == []
    {
      defender := new AppLaunchEventDefender();
      delivered, received := [], [];
    }

    method OnAppLaunchEvent(event: LaunchEvent) returns (ok: bool)
      requires Valid()
      modifies this, defender
      ensures Valid() && received == old(received) + [event]
      ensures ok <==> delivered == old(delivered) + [event]
    {
      var result := defender.OnAppLaunchEvent(event);
      AcceptedOrChanged(old(defender.lastEventType), event);
      received := received + [event];
      assert received[..|received| - 1] == old(received);
      match result {
        case Accept =>
          delivered := delivered + [event];
          return true;
        case Overwrite(replacement) =>
          delivered := delivered + [replacement];
          assert delivered[|old(delivered)|] == replacement != event;
          return false;
        case Reject =>
          return false;
      }
    }
  }

  datatype Filtered = Filtered(last: Kind, delivered: seq<LaunchEvent>)

  // What a history of raw events leaves behind.
  function Filter(events: seq<LaunchEvent>): Filtered {
    if events == [] then Filtered(Uninitialized, []) else
    var before, event := Filter(events[..|events| - 1]), events[|events| - 1];
    var (last, verdict) := Judge(before.last, event);
    Filtered(last, before.delivered + Passed(event, verdict))
  }

  // What one event comes to, by the type delivered last; None where nothing is delivered.
  function Delivery(last: Kind, kind: Kind): Option<Kind> {
    if last == IntentStarted then Some(if kind in {IntentFailed, ActivityLaunched} then kind else IntentFailed)
    else if last == ActivityLaunched then
      Some(if kind in {ActivityLaunchFinished, ActivityLaunchCancelled} then kind else ActivityLaunchCancelled)
    else if kind == IntentStarted || (last == ActivityLaunchFinished && kind == ReportFullyDrawn) then Some(kind)
    else None
  }

  lemma JudgeDelivers(last: Kind, event: LaunchEvent)
    ensures var (next, verdict) := Judge(last, event);
            match Delivery(last, event.kind)
            case Some(kind) => next == kind && Passed(event, verdict) == [event.(kind := kind)]
            case None => next == Uninitialized && Passed(event, verdict) == []
  {
  }

  /**
   While a launch is under way every event is delivered, one out of order as its failure or cancellation with
   all other fields as they are; between launches only the next intent is, and a report right after the end.
   */
  lemma StrayEventsEndTheLaunch(events: seq<LaunchEvent>, event: LaunchEvent)
    ensures var before, after := Filter(events), Filter(events + [event]);
            match Delivery(before.last, event.kind)
            case Some(kind) => after == Filtered(kind, before.delivered + [event.(kind := kind)])
            case None => after == Filtered(Uninitialized, before.delivered)
  {
    hide Judge, Delivery, Passed;
    assert (events + [event])[..|events|] == events;
    JudgeDelivers(Filter(events).last, event);
  }

  function Kinds(events: seq<LaunchEvent>): seq<Kind> {
    seq(|events|, i requires 0 <= i < |events| => events[i].kind)
  }

  /// The documented order, as a language of its own.

  // One launch from beginning to end.
  predicate IsLaunch(kinds: seq<Kind>) {
    || kinds == [IntentStarted, IntentFailed]
    || kinds == [IntentStarted, ActivityLaunched, ActivityLaunchCancelled]
    || kinds == [IntentStarted, ActivityLaunched, ActivityLaunchFinished]
    || kinds == [IntentStarted, ActivityLaunched, ActivityLaunchFinished, ReportFullyDrawn]
  }

  // Any number of launches one after another.
  ghost predicate AreLaunches(kinds: seq<Kind>)
    decreases |kinds|
  {
    kinds == [] || exists k | 0 < k <= |kinds| :: IsLaunch(kinds[..k]) && AreLaunches(kinds[k..])
  }

  // A history in the documented order, the last launch possibly still going on.
  ghost predicate InOrder(kinds: seq<Kind>) {
    exists rest: seq<Kind> :: AreLaunches(kinds + rest)
  }

  lemma NoLaunches()
    ensures AreLaunches([]) && Kinds([]) == Open(Uninitialized) == []
  {
  }

  lemma LaunchFirst(launch: seq<Kind>, rest: seq<Kind>)
    requires IsLaunch(launch) && AreLaunches(rest)
    ensures AreLaunches(launch + rest)
  {
    assert (launch + rest)[..|launch|] == launch && (launch + rest)[|launch|..] == rest;
  }

  lemma FirstLaunch(kinds: seq<Kind>) returns (k: nat)
    requires AreLaunches(kinds) && kinds != []
    ensures 0 < k <= |kinds| && IsLaunch(kinds[..k]) && AreLaunches(kinds[k..])
    ensures kinds == kinds[..k] + kinds[k..]
  {
    hide IsLaunch;
    k :| 0 < k <= |kinds| && IsLaunch(kinds[..k]) && AreLaunches(kinds[k..]);
  }

  lemma {:induction false} OneMoreLaunch(kinds: seq<Kind>, launch: seq<Kind>)
    requires AreLaunches(kinds) && IsLaunch(launch)
    ensures AreLaunches(kinds + launch)
    decreases |kinds|
  {
    hide AreLaunches, IsLaunch;
    if kinds == [] {
      NoLaunches();
      LaunchFirst(launch, []);
      assert kinds + launch == launch + [];
    } else {
      var k := FirstLaunch(kinds);
      OneMoreLaunch(kinds[k..], launch);
      LaunchFirst(kinds[..k], kinds[k..] + launch);
      assert kinds + launch == kinds[..k] + (kinds[k..] + launch);
    }
  }

  // The launch under way when the filter remembers `last`, and one way it could end.
  function Open(last: Kind): seq<Kind> {
    match last
    case IntentStarted => [IntentStarted]
    case ActivityLaunched => [IntentStarted, ActivityLaunched]
    case ActivityLaunchFinished => [IntentStarted, ActivityLaunched, ActivityLaunchFinished]
    case _ => []
  }

  function Ended(last: Kind): seq<Kind> {
    match last
    case IntentStarted => [IntentFailed]
    case ActivityLaunched => [ActivityLaunchCancelled]
    case _ => []
  }

  // One raw event keeps the launch going, ends it, or begins the next.
  lemma LaunchGoesOn(last: Kind, event: LaunchEvent)
    ensures var next, passed := Judge(last, event).0, Kinds(Passed(event, Judge(last, event).1));
            || Open(last) + passed == Open(next)
            || (IsLaunch(Open(last) + passed) && Open(next) == [])
            || (IsLaunch(Open(last)) && passed == Open(next))
  {
    var next, passed := Judge(last, event).0, Kinds(Passed(event, Judge(last, event).1));
    assert passed == match Judge(last, event).1
                     case Accept => [event.kind]
                     case Overwrite(replacement) => [replacement.kind]
                     case Reject => [];
  }

  lemma KindsOfMore(front: seq<LaunchEvent>, back: seq<LaunchEvent>)
    ensures Kinds(front + back) == Kinds(front) + Kinds(back)
  {
  }

  // What is delivered is whole launches and then the one under way.
  lemma {:induction false} DeliveredSplits(events: seq<LaunchEvent>) returns (whole: seq<Kind>)
    ensures AreLaunches(whole) && Kinds(Filter(events).delivered) == whole + Open(Filter(events).last)
  {
    hide AreLaunches, IsLaunch, Judge, Passed, Open, Kinds;
    if events == [] {
      whole := [];
      NoLaunches();
    } else {
      var front, event := events[..|events| - 1], events[|events| - 1];
      var before := DeliveredSplits(front);
      var last, next := Filter(front).last, Filter(events).last;
      var passed := Kinds(Passed(event, Judge(last, event).1));
      KindsOfMore(Filter(front).delivered, Passed(event, Judge(last, event).1));
      LaunchGoesOn(last, event);
      if Open(last) + passed == Open(next) {
        whole := before;
        assert whole + (Open(last) + passed) == before + Open(last) + passed;
      } else if Open(next) == [] && IsLaunch(Open(last) + passed) {
        OneMoreLaunch(before, Open(last) + passed);
        whole := before + (Open(last) + passed);
      } else {
        OneMoreLaunch(before, Open(last));
        whole := before + Open(last);
      }
    }
  }

  // Whatever arrives, what is delivered is in the documented order.
  lemma DeliveredInOrder(events: seq<LaunchEvent>)
    ensures InOrder(Kinds(Filter(events).delivered))
  {
    hide AreLaunches, Filter;
    var whole := DeliveredSplits(events);
    var last := Filter(events).last;
    var delivered := Kinds(Filter(events).delivered);
    if Open(last) == [] {
      assert delivered + [] == whole;
    } else {
      OneMoreLaunch(whole, Open(last) + Ended(last));
      assert delivered + Ended(last) == whole + (Open(last) + Ended(last));
    }
  }

  /// Histories already in order pass untouched.

  predicate Accepts(last: Kind, kind: Kind) {
    match last
    case IntentStarted => kind.IntentFailed? || kind.ActivityLaunched?
    case ActivityLaunched => kind.ActivityLaunchFinished? || kind.ActivityLaunchCancelled?
    case ActivityLaunchFinished => kind.IntentStarted? || kind.ReportFullyDrawn?
    case _ => kind.IntentStarted?
  }

  predicate AllAccepted(last: Kind, kinds: seq<Kind>)
    decreases |kinds|
  {
    kinds == [] || (Accepts(last, kinds[0]) && AllAccepted(kinds[0], kinds[1..]))
  }

  function LastOf(last: Kind, kinds: seq<Kind>): Kind {
    if kinds == [] then last else kinds[|kinds| - 1]
  }

  lemma {:induction false} AllAcceptedAppend(last: Kind, front: seq<Kind>, back: seq<Kind>)
    ensures AllAccepted(last, front + back) <==> AllAccepted(last, front) && AllAccepted(LastOf(last, front), back)
    decreases |front|
  {
    if front == [] {
      assert front + back == back;
    } else {
      AllAcceptedAppend(front[0], front[1..], back);
      assert (front + back)[1..] == front[1..] + back;
    }
  }

  lemma {:induction false} LaunchesAreAccepted(last: Kind, kinds: seq<Kind>)
    requires AreLaunches(kinds) && last != IntentStarted && last != ActivityLaunched
    ensures AllAccepted(last, kinds)
    decreases |kinds|
  {
    hide AreLaunches, Accepts;
    if kinds != [] {
      var k := FirstLaunch(kinds);
      var launch := kinds[..k];
      LaunchesAreAccepted(LastOf(last, launch), kinds[k..]);
      LaunchIsAccepted(last, launch);
      AllAcceptedAppend(last, launch, kinds[k..]);
      assert launch + kinds[k..] == kinds;
    }
  }

  lemma LaunchIsAccepted(last: Kind, launch: seq<Kind>)
    requires IsLaunch(launch) && last != IntentStarted && last != ActivityLaunched
    ensures AllAccepted(last, launch)
  {
    assert AllAccepted(launch[0], launch[1..]) by {
      assert AllAccepted(launch[1], launch[1..][1..]) by {
        if |launch| > 2 {
          assert launch[1..][1..][1..] == launch[3..];
          assert |launch| == 4 ==> launch[3..][1..] == [];
        }
      }
    }
  }

  // One raw event is delivered as it is exactly when its type is accepted.
  lemma AcceptedOrChanged(last: Kind, event: LaunchEvent)
    ensures Passed(event, Judge(last, event).1) == [event] <==> Accepts(last, event.kind)
    ensures Accepts(last, event.kind) ==> Judge(last, event).0 == event.kind
    ensures Judge(last, event).1.Accept? <==> Accepts(last, event.kind)
    ensures |Passed(event, Judge(last, event).1)| <= 1
  {
  }

  lemma {:induction false} UnchangedIffAccepted(events: seq<LaunchEvent>)
    ensures Filter(events).delivered == events <==> AllAccepted(Uninitialized, Kinds(events))
    ensures Filter(events).delivered == events ==> Filter(events).last == LastOf(Uninitialized, Kinds(events))
    ensures |Filter(events).delivered| <= |events|
  {
    hide Judge, Passed, Accepts;
    if events != [] {
      var n := |events| - 1;
      var front, event := events[..n], events[n];
      UnchangedIffAccepted(front);
      var before := Filter(front);
      AcceptedOrChanged(before.last, event);
      AllAcceptedAppend(Uninitialized, Kinds(front), [event.kind]);
      assert Kinds(events) == Kinds(front) + [event.kind];
      assert AllAccepted(before.last, [event.kind]) <==> Accepts(before.last, event.kind);
      var passed := Passed(event, Judge(before.last, event).1);
      assert Filter(events).delivered == before.delivered + passed;
      if before.delivered + passed == events {
        assert |before.delivered| == n && |passed| == 1;
        assert before.delivered == (before.delivered + passed)[..n] == front;
        assert passed[0] == (before.delivered + passed)[n] == event;
      }
      if before.delivered == front && passed == [event] {
        assert front + [event] == events;
      }
    }
  }

  // The filter changes nothing exactly when there was nothing to change.
  lemma UnchangedIffInOrder(events: seq<LaunchEvent>)
    ensures Filter(events).delivered == events <==> InOrder(Kinds(events))
  {
    hide AreLaunches, Filter;
    UnchangedIffAccepted(events);
    DeliveredInOrder(events);
    if InOrder(Kinds(events)) {
      var rest :| AreLaunches(Kinds(events) + rest);
      LaunchesAreAccepted(Uninitialized, Kinds(events) + rest);
      AllAcceptedAppend(Uninitialized, Kinds(events), rest);
    }
  }

  // Filtering what was filtered changes nothing.
  lemma FilteringIsIdempotent(events: seq<LaunchEvent>)
    ensures Filter(Filter(events).delivered).delivered == Filter(events).delivered
  {
    hide Filter;
    DeliveredInOrder(events);
    UnchangedIffInOrder(Filter(events).delivered);
  }
}
