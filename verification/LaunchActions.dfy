/**
 What the next event does at any point of a run: what is begun, kept, dropped or finished, what becomes of
 the chain and which row is written. Every kind of event is covered, at every stage of a launch.
 */
module LaunchActions {
  import opened Wrappers
  import opened Bytes
  import opened LaunchDefender
  import opened LaunchStates
  import opened LaunchRuns

  /// Names.

  // An activity name that begins with a dot is short for one in the package.
  predicate Spells(c: Component, packageName: Text, activityName: Text) {
    c.packageName == packageName &&
    if activityName != [] && activityName[0] == DOT then c.activityName == packageName + activityName
    else c.activityName == activityName
  }

  lemma IntentIsSpelt(intent: Intent)
    ensures Spells(IntentComponent(intent), intent.packageName, intent.className)
  {
  }

  lemma {:induction false} FirstSlash(packageName: Text, activityName: Text)
    requires SLASH !in packageName
    ensures Find(packageName + [SLASH] + activityName, SLASH) == |packageName|
  {
    if packageName != [] {
      FirstSlash(packageName[1..], activityName);
      assert (packageName + [SLASH] + activityName)[1..] == packageName[1..] + [SLASH] + activityName;
    }
  }

  // A title is a package and an activity about its first slash.
  lemma TitleIsSpelt(title: Text, packageName: Text, activityName: Text)
    requires title == packageName + [SLASH] + activityName && SLASH !in packageName
    ensures HasComponent(title) && Spells(TitleComponent(title), packageName, activityName)
  {
    hide Find;
    FirstSlash(packageName, activityName);
    var k := |packageName|;
    assert title[k] == SLASH;
    assert title[..k] == packageName && title[k + 1..] == activityName;
  }

  predicate Listed(blacklist: Blacklist, c: Component) {
    exists name <- blacklist :: name == c.packageName
  }

  /// Beginning.

  // The compiled trace found for the launch: the stored one, or else the one that was installed with it.
  predicate Compiled(a: Answers, path: Text) {
    a.lookupVersion.Some? && (a.storedTrace == Some(path) || (a.storedTrace.None? && a.prebuiltTrace == Some(path)))
  }

  // Read-ahead begins, under the id of the event.
  predicate TaskBegins(s: State, s': State, id: nat, path: Text) {
    s'.readAhead.task == Some(Task(id, path)) && s'.readAhead.log == s.readAhead.log + [Begun(Task(id, path))]
  }

  // A trace is started for the chain, under a subscription of its own.
  predicate TraceStarts(s: State, s': State, chain: Option<nat>) {
    s'.tracing.on && s'.tracing.lifetime == Some(s.tracing.unused) && s'.tracing.unused == s.tracing.unused + 1 &&
    s'.tracing.inFlight == s.tracing.inFlight && s'.tracing.log == s.tracing.log + [Started(s.tracing.unused, chain)]
  }

  predicate Runs(s: State) {
    s.tracing.on || s.readAhead.task.Some?
  }

  /**
   With nothing running: read-ahead begins if it is allowed and there is a compiled trace; otherwise a trace
   starts if that is allowed and the package's version is known; otherwise nothing runs.
   */
  ghost predicate StartsOne(s: State, s': State, event: LaunchEvent, a: Answers, chain: Option<nat>) {
    && (a.readaheadAllowed ==> forall path | Compiled(a, path) :: TaskBegins(s, s', event.sequenceId, path))
    && (a.readaheadAllowed && (exists path :: Compiled(a, path)) ==> s'.tracing == s.tracing)
    && (!a.readaheadAllowed || !(exists path :: Compiled(a, path)) ==>
          s'.readAhead == s.readAhead &&
          if a.tracingAllowed && a.version.Some? then TraceStarts(s, s', chain)
          else !s'.tracing.on && s'.tracing.log == s.tracing.log && s'.tracing.inFlight == s.tracing.inFlight)
  }

  lemma CompiledIsFound(a: Answers)
    ensures CompiledTrace(a).Some? ==> Compiled(a, CompiledTrace(a).value)
    ensures forall path :: Compiled(a, path) ==> CompiledTrace(a) == Some(path)
  {
  }

  lemma EitherStartsOne(s: State, event: LaunchEvent, a: Answers)
    requires !Runs(s) && s.sequenceId == event.sequenceId
    requires s.allowedReadahead == a.readaheadAllowed && s.allowedTracing == a.tracingAllowed
    ensures StartsOne(s, StartEither(s, a), event, a, s.history.observable)
  {
    hide CompiledTrace, Compiled;
    CompiledIsFound(a);
    if CompiledTrace(a).Some? {
      assert Compiled(a, CompiledTrace(a).value);
    }
  }

  /// Stopping.

  predicate TaskFinishes(s: State, s': State) {
    s'.readAhead.task.None? &&
    s'.readAhead.log == s.readAhead.log + if s.readAhead.task.Some? then [Finished(s.readAhead.task.value)] else []
  }

  // The current subscription is dropped and nothing else is.
  ghost predicate TraceIsDropped(s: State, s': State) {
    !s'.tracing.on &&
    if s.tracing.on && s.tracing.lifetime.Some? then
      var l := s.tracing.lifetime.value;
      s'.tracing.lifetime.None? && s'.tracing.log == s.tracing.log + [Dropped(l)] &&
      multiset(s'.tracing.inFlight) == multiset(s.tracing.inFlight)[l := 0]
    else s'.tracing.log == s.tracing.log && s'.tracing.inFlight == s.tracing.inFlight
  }

  // The current subscription is left to be written out.
  predicate TraceIsKept(s: State, s': State) {
    !s'.tracing.on && s'.tracing.log == s.tracing.log &&
    s'.tracing.inFlight == s.tracing.inFlight +
      if s.tracing.on && s.tracing.lifetime.Some? then [s.tracing.lifetime.value] else []
  }

  lemma {:induction false} RemoveTakesAll(list: seq<nat>, x: nat)
    ensures multiset(Remove(list, x)) == multiset(list)[x := 0]
  {
    if list != [] {
      RemoveTakesAll(list[..|list| - 1], x);
      assert list == list[..|list| - 1] + [list[|list| - 1]];
    }
  }

  lemma AbortStops(s: State)
    ensures TaskFinishes(s, Abort(s)) && TraceIsDropped(s, Abort(s)) && !Runs(Abort(s))
  {
    hide Remove;
    if s.tracing.lifetime.Some? {
      RemoveTakesAll(s.tracing.inFlight, s.tracing.lifetime.value);
    }
  }

  /// What each event does, from the state before it to the state after it.

  predicate NothingElse(s: State, s': State) {
    s'.tracing == s.tracing && s'.readAhead == s.readAhead && s'.history == s.history
  }

  predicate Overlooked(s: State, blacklist: Blacklist) {
    s.launch.component.Some? && Listed(blacklist, s.launch.component.value)
  }

  // A blacklisted intent only leaves its name; any other opens a chain, and may start something.
  ghost predicate IntentDoes(s: State, s': State, blacklist: Blacklist, event: LaunchEvent, a: Answers) {
    var c, h, h' := IntentComponent(event.intent), s.history, s'.history;
    if Listed(blacklist, c) then NothingElse(s, s') && s'.launch == s.launch.(component := Some(c))
    else
      s'.launch == Launch(Some(c), s.launch.temperature,
                          if event.timestampNanos < 0 then s.launch.startedNs else Some(event.timestampNanos),
                          s.launch.totalNs) &&
      h'.chains == h.chains + [Opened(h.unused)] && h'.subscriber == h'.observable == Some(h.unused) &&
      h'.unused == h.unused + 1 && h'.rows == h.rows && h'.recentId == h.recentId &&
      (!event.intent.hasComponent ==> s'.tracing == s.tracing && s'.readAhead == s.readAhead) &&
      (event.intent.hasComponent && !Runs(s) ==> StartsOne(s, s', event, a, Some(h.unused)))
  }

  /**
   A launched activity whose title names a component that is not blacklisted: if it was not a cold start,
   whatever ran is dropped or finished; if it was, what runs goes on, and if nothing runs something may start.
   */
  ghost predicate ActivityDoes(s: State, s': State, blacklist: Blacklist, event: LaunchEvent, a: Answers) {
    var c := TitleComponent(event.title);
    if SLASH !in event.title then NothingElse(s, s') && s'.launch == s.launch
    else if Listed(blacklist, c) then NothingElse(s, s') && s'.launch == s.launch.(component := Some(c))
    else
      s'.launch == Launch(Some(c), Some(event.temperature), s.launch.startedNs, s.launch.totalNs) &&
      s'.history == s.history &&
      (!event.temperature.Cold? ==> TaskFinishes(s, s') && TraceIsDropped(s, s') && !Runs(s')) &&
      (event.temperature.Cold? && Runs(s) ==> s'.tracing == s.tracing && s'.readAhead == s.readAhead) &&
      (event.temperature.Cold? && !Runs(s) ==> StartsOne(s, s', event, a, s.history.observable))
  }

  // A failed intent drops what ran and fails the chain; a cancelled launch leaves the chain open.
  ghost predicate FailureDoes(s: State, s': State, blacklist: Blacklist, failsChain: bool) {
    s'.launch == s.launch &&
    if Overlooked(s, blacklist) then NothingElse(s, s')
    else
      TaskFinishes(s, s') && TraceIsDropped(s, s') && !Runs(s') && s'.history.rows == s.history.rows &&
      if failsChain && s.history.subscriber.Some? then
        s'.history.subscriber.None? && s'.history.chains == s.history.chains + [Failed(s.history.subscriber.value)]
      else s'.history == s.history
  }

  /**
   A finished launch gets a row if its component, its temperature and the version are known and the database
   takes it. The waiting chain is given the row, or an error; its read-ahead is finished and the trace kept.
   */
  predicate FinishDoes(s: State, s': State, blacklist: Blacklist, event: LaunchEvent, a: Answers) {
    var h, h' := s.history, s'.history;
    var totalNs := if event.timestampNanos < 0 then s.launch.totalNs else Some(event.timestampNanos);
    var recorded := s.launch.component.Some? && s.launch.temperature.Some? && a.version.Some? && a.insertedRow.Some?;
    if Overlooked(s, blacklist) then NothingElse(s, s') && s'.launch == s.launch
    else
      s'.launch == Launch(s.launch.component, s.launch.temperature, s.launch.startedNs, totalNs) &&
      TaskFinishes(s, s') && TraceIsKept(s, s') &&
      h'.rows == h.rows + (if recorded then
        [Inserted(a.insertedRow.value, s.tracing.on, s.readAhead.task.Some?, s.launch.startedNs, totalNs)] else []) &&
      if h.subscriber.None? then h'.chains == h.chains && h'.recentId == h.recentId
      else
        var chain := h.subscriber.value;
        h'.subscriber.None? && h'.recentId == (if recorded then a.insertedRow else None) &&
        h'.chains == h.chains + if recorded then [Value(chain, a.insertedRow.value), Completed(chain)] else [Failed(chain)]
  }

  // A report goes to the row remembered last, once.
  predicate ReportDoes(s: State, s': State, blacklist: Blacklist, event: LaunchEvent) {
    s'.launch == s.launch && s'.tracing == s.tracing && s'.readAhead == s.readAhead &&
    s'.history.chains == s.history.chains && s'.history.subscriber == s.history.subscriber &&
    if Overlooked(s, blacklist) || s.history.recentId.None? then s'.history == s.history
    else s'.history.recentId.None? && s'.history.rows == s.history.rows +
           [Updated(s.history.recentId.value, event.timestampNanos % 0x1_0000_0000_0000_0000)]
  }

  /// The proofs, one kind at a time.

  lemma ListedIsBlacklisted(blacklist: Blacklist, c: Component)
    ensures Listed(blacklist, c) <==> IsBlacklisted(blacklist, Some(c))
  {
  }

  lemma OverlookedIsIgnored(s: State, blacklist: Blacklist)
    ensures Overlooked(s, blacklist) <==> Ignored(s, blacklist)
  {
  }

  lemma IntentStep(s: State, blacklist: Blacklist, event: LaunchEvent, a: Answers)
    requires s == Prepared(s, event, a)
    ensures IntentDoes(s, OnIntentStarted(s, blacklist, event, a), blacklist, event, a)
  {
    hide StartEither, IntentComponent, StartsOne, Listed, IsBlacklisted;
    ListedIsBlacklisted(blacklist, IntentComponent(event.intent));
    var s' := OnIntentStarted(s, blacklist, event, a);
    var named := s.launch.(component := Some(IntentComponent(event.intent)));
    var begun := s.(launch := if event.timestampNanos < 0 then named else named.(startedNs := Some(event.timestampNanos)),
                    history := OpenChain(s.history), failedCheck := s.failedCheck || s.tracing.on);
    KeepsTheRest(begun, a);
    if !Runs(s) {
      EitherStartsOne(begun, event, a);
      SameStart(begun, s, s', event, a);
    }
  }

  lemma KeepsTheRest(s: State, a: Answers)
    ensures StartEither(s, a).launch == s.launch && StartEither(s, a).history == s.history
  {
  }

  lemma SameStart(begun: State, s: State, s': State, event: LaunchEvent, a: Answers)
    requires begun.tracing == s.tracing && begun.readAhead == s.readAhead
    ensures StartsOne(begun, s', event, a, begun.history.observable) ==> StartsOne(s, s', event, a, begun.history.observable)
  {
  }

  lemma ActivityStep(s: State, blacklist: Blacklist, event: LaunchEvent, a: Answers)
    requires s == Prepared(s, event, a)
    ensures ActivityDoes(s, OnActivityLaunched(s, blacklist, event, a), blacklist, event, a)
  {
    hide StartEither, TitleComponent, StartsOne, Listed, IsBlacklisted, Remove, TraceIsDropped;
    ListedIsBlacklisted(blacklist, TitleComponent(event.title));
    var s' := OnActivityLaunched(s, blacklist, event, a);
    var named := s.(launch := s.launch.(component := Some(TitleComponent(event.title)), temperature := Some(event.temperature)));
    AbortStops(named);
    SameDrop(named, s, Abort(named));
    KeepsTheRest(named, a);
    if !Runs(s) {
      EitherStartsOne(named, event, a);
      SameStart(named, s, s', event, a);
    }
  }

  lemma SameDrop(named: State, s: State, s': State)
    requires named.tracing == s.tracing
    ensures TraceIsDropped(named, s') ==> TraceIsDropped(s, s')
  {
  }

  lemma FailureStep(s: State, blacklist: Blacklist)
    ensures FailureDoes(s, OnIntentFailed(s, blacklist), blacklist, true)
    ensures FailureDoes(s, if Ignored(s, blacklist) then s else Abort(s), blacklist, false)
  {
    hide Remove, Ignored, Overlooked, TraceIsDropped;
    OverlookedIsIgnored(s, blacklist);
    AbortStops(s);
    if !Ignored(s, blacklist) {
      var s' := OnIntentFailed(s, blacklist);
      assert s'.tracing == Abort(s).tracing;
      DropIsAboutTracing(s, Abort(s), s');
    }
  }

  lemma DropIsAboutTracing(s: State, t: State, t': State)
    requires t.tracing == t'.tracing
    ensures TraceIsDropped(s, t) ==> TraceIsDropped(s, t')
  {
  }

  lemma FinishStep(s: State, blacklist: Blacklist, event: LaunchEvent, a: Answers)
    ensures FinishDoes(s, OnActivityLaunchFinished(s, blacklist, event, a), blacklist, event, a)
  {
    hide Ignored, Overlooked;
    OverlookedIsIgnored(s, blacklist);
  }

  lemma ReportStep(s: State, blacklist: Blacklist, event: LaunchEvent)
    ensures ReportDoes(s, OnReportFullyDrawn(s, blacklist, event), blacklist, event)
  {
    hide Ignored, Overlooked;
    OverlookedIsIgnored(s, blacklist);
  }

  /// Over runs.

  // What the next event does, by the last type delivered and its own.
  ghost predicate EventDoes(last: Kind, s: State, s': State, blacklist: Blacklist, input: Input) {
    var event, a := input.event, input.answers;
    if last == IntentStarted then
      if event.kind == ActivityLaunched then ActivityDoes(s, s', blacklist, event, a) else FailureDoes(s, s', blacklist, true)
    else if last == ActivityLaunched then
      if event.kind == ActivityLaunchFinished then FinishDoes(s, s', blacklist, event, a)
      else FailureDoes(s, s', blacklist, false)
    else if event.kind == IntentStarted then IntentDoes(s, s', blacklist, event, a)
    else if last == ActivityLaunchFinished && event.kind == ReportFullyDrawn then ReportDoes(s, s', blacklist, event)
    else s' == s
  }

  lemma PreparedIsPrepared(s: State, event: LaunchEvent, a: Answers)
    ensures Prepared(Prepared(s, event, a), event, a) == Prepared(s, event, a)
  {
  }

  /**
   At any point of any run the next event does what its place in a launch calls for; a launch that an event out
   of order interrupts fails, or is cancelled, and events out of order between launches do nothing.
   */
  lemma NextEventDoes(blacklist: Blacklist, inputs: seq<Input>, input: Input)
    ensures var m, m' := Run(blacklist, inputs), Run(blacklist, inputs + [input]);
            EventDoes(m.last, m.state, m'.state, blacklist, input)
  {
    hide Run, OnIntentStarted, OnActivityLaunched, OnIntentFailed, OnActivityLaunchFinished, OnReportFullyDrawn, Abort,
      IntentDoes, ActivityDoes, FailureDoes, FinishDoes, ReportDoes, Ignored;
    NextStep(blacklist, inputs, input);
    var m, event, a := Run(blacklist, inputs), input.event, input.answers;
    var s := Prepared(m.state, event, a);
    PreparedIsPrepared(m.state, event, a);
    IntentStep(s, blacklist, event, a);
    ActivityStep(s, blacklist, event, a);
    FailureStep(s, blacklist);
    FinishStep(s, blacklist, event, a);
    ReportStep(s, blacklist, event);
    DoneBeforeToo(m.state, s, Step(m, blacklist, input).state, blacklist, event, a);
  }

  // What is done does not depend on the switches and the sequence id left by the event before.
  lemma DoneBeforeToo(s: State, p: State, s': State, blacklist: Blacklist, event: LaunchEvent, a: Answers)
    requires p == Prepared(s, event, a)
    ensures IntentDoes(p, s', blacklist, event, a) ==> IntentDoes(s, s', blacklist, event, a)
    ensures ActivityDoes(p, s', blacklist, event, a) ==> ActivityDoes(s, s', blacklist, event, a)
    ensures forall failsChain :: FailureDoes(p, s', blacklist, failsChain) ==> FailureDoes(s, s', blacklist, failsChain)
    ensures FinishDoes(p, s', blacklist, event, a) ==> FinishDoes(s, s', blacklist, event, a)
    ensures ReportDoes(p, s', blacklist, event) ==> ReportDoes(s, s', blacklist, event)
  {
    hide Compiled, Listed, IntentComponent, TitleComponent;
  }

  lemma NextStep(blacklist: Blacklist, inputs: seq<Input>, input: Input)
    ensures Run(blacklist, inputs + [input]) == Step(Run(blacklist, inputs), blacklist, input)
  {
    hide Step;
    assert (inputs + [input])[..|inputs|] == inputs;
  }
}
