/** Whole runs of the launch filter and the state machine behind it. */
module LaunchRuns {
  import opened Wrappers
  import opened LaunchDefender
  import opened LaunchStates

  datatype Input = Input(event: LaunchEvent, answers: Answers)

  datatype Machine = Machine(last: Kind, state: State)

  // One raw event: filtered, and handled if anything of it is delivered.
  function Step(m: Machine, blacklist: Blacklist, input: Input): Machine {
    var (last, verdict) := Judge(m.last, input.event);
    Machine(last, match verdict
                  case Accept => OnEvent(m.state, blacklist, input.event, input.answers)
                  case Overwrite(replacement) => OnEvent(m.state, blacklist, replacement, input.answers)
                  case Reject => m.state)
  }

  function Run(blacklist: Blacklist, inputs: seq<Input>): Machine {
    if inputs == [] then Machine(Uninitialized, INITIAL)
    else Step(Run(blacklist, inputs[..|inputs| - 1]), blacklist, inputs[|inputs| - 1])
  }

  // The event manager: its filter, and the state the delivered events are scanned into.
  class EventManager {
    const defender: AppLaunchEventDefender
    const state: AppLaunchEventState
    ghost var received: seq<Input>

    // Everything so far is the run over the events received.
    ghost predicate Valid()
      reads this, defender, state
    {
      !defender.lastEventType.Unnamed? &&
      Machine(defender.lastEventType, state.View()) == Run(state.packageBlacklist, received)
    }

    constructor (packageBlacklist: Blacklist)
      ensures Valid() && fresh(defender) && fresh(state) && received == []
      ensures state.packageBlacklist == packageBlacklist
    {
      defender := new AppLaunchEventDefender();
      state := new AppLaunchEventState(packageBlacklist);
      received := [];
    }

    method OnAppLaunchEvent(event: LaunchEvent, answers: Answers) returns (ok: bool)
      requires Valid()
      modifies this, defender, state
      ensures Valid() && received == old(received) + [Input(event, answers)]
      ensures ok <==> Accepts(old(defender.lastEventType), event.kind)
    {
      hide OnEvent, Judge;
      AcceptedOrChanged(defender.lastEventType, event);
      var result := defender.OnAppLaunchEvent(event);
      received := received + [Input(event, answers)];
      assert received[..|received| - 1] == old(received);
      match result {
        case Accept =>
          state.OnNewEvent(event, answers);
          return true;
        case Overwrite(replacement) =>
          state.OnNewEvent(replacement, answers);
          return false;
        case Reject =>
          return false;
      }
    }
  }

  // No launch under way.
  predicate Resting(last: Kind) {
    last != IntentStarted && last != ActivityLaunched
  }

  predicate Active(s: State) {
    s.tracing.on || s.readAhead.task.Some?
  }

  // What the debug checks of the state machine ask for.
  predicate Coherent(s: State) {
    && (s.tracing.on <==> s.tracing.lifetime.Some?)
    && !(s.tracing.on && s.readAhead.task.Some?)
    && !s.failedCheck && !s.tracing.failedCheck && !s.readAhead.failedCheck
  }

  predicate Sound(m: Machine, blacklist: Blacklist) {
    && Coherent(m.state)
    && (Active(m.state) ==> !Resting(m.last) && !Ignored(m.state, blacklist))
  }

  // The verdict changes: something was started for the intent, and its activity is blacklisted.
  predicate Flips(m: Machine, blacklist: Blacklist, input: Input) {
    && m.last.IntentStarted? && input.event.kind.ActivityLaunched?
    && HasComponent(input.event.title)
    && IsBlacklisted(blacklist, Some(TitleComponent(input.event.title)))
    && Active(m.state)
  }

  predicate FlipsAt(blacklist: Blacklist, inputs: seq<Input>, i: nat)
    requires i < |inputs|
  {
    Flips(Run(blacklist, inputs[..i]), blacklist, inputs[i])
  }

  lemma SoundIntent(s: State, blacklist: Blacklist, event: LaunchEvent, a: Answers)
    requires Coherent(s) && !Active(s)
    ensures var s' := OnIntentStarted(s, blacklist, event, a);
            Coherent(s') && (Active(s') ==> !Ignored(s', blacklist))
  {
    hide IsBlacklisted, IntentComponent, CompiledTrace;
  }

  lemma SoundActivity(s: State, blacklist: Blacklist, event: LaunchEvent, a: Answers)
    requires Coherent(s) && (Active(s) ==> !Ignored(s, blacklist))
    requires HasComponent(event.title) && IsBlacklisted(blacklist, Some(TitleComponent(event.title))) ==> !Active(s)
    ensures var s' := OnActivityLaunched(s, blacklist, event, a);
            Coherent(s') && (Active(s') ==> !Ignored(s', blacklist))
  {
    hide IsBlacklisted, TitleComponent, HasComponent, CompiledTrace, Remove;
  }

  // The three ways a launch ends.
  lemma SoundEnd(s: State, blacklist: Blacklist, event: LaunchEvent, a: Answers)
    requires Coherent(s) && (Active(s) ==> !Ignored(s, blacklist))
    ensures var s' := OnActivityLaunchFinished(s, blacklist, event, a); Coherent(s') && !Active(s')
    ensures var s' := OnIntentFailed(s, blacklist); Coherent(s') && !Active(s')
    ensures !Ignored(s, blacklist) ==> Coherent(Abort(s)) && !Active(Abort(s))
  {
    hide IsBlacklisted, RecordHistory, Remove;
  }

  lemma SoundStep(m: Machine, blacklist: Blacklist, input: Input)
    requires Sound(m, blacklist) && !Flips(m, blacklist, input)
    ensures Sound(Step(m, blacklist, input), blacklist)
  {
    hide OnIntentStarted, OnActivityLaunched, OnActivityLaunchFinished, OnIntentFailed, Abort, IsBlacklisted, TitleComponent, HasComponent;
    var s := Prepared(m.state, input.event, input.answers);
    assert Coherent(s) && Active(s) == Active(m.state) && Ignored(s, blacklist) == Ignored(m.state, blacklist);
    if Resting(m.last) {
      SoundIntent(s, blacklist, input.event, input.answers);
    } else {
      SoundEnd(s, blacklist, input.event, input.answers);
      if m.last.IntentStarted? && input.event.kind.ActivityLaunched? {
        SoundActivity(s, blacklist, input.event, input.answers);
      }
    }
  }

  lemma StartIsSound(blacklist: Blacklist)
    ensures Sound(Run(blacklist, []), blacklist) && Balanced(Run(blacklist, []).state)
  {
  }

  lemma {:induction false} SoundWithoutFlips(blacklist: Blacklist, inputs: seq<Input>)
    requires forall i | 0 <= i < |inputs| :: !FlipsAt(blacklist, inputs, i)
    ensures Sound(Run(blacklist, inputs), blacklist)
  {
    hide Step, Flips, Sound;
    if inputs == [] {
      StartIsSound(blacklist);
    } else {
      var n := |inputs| - 1;
      forall i | 0 <= i < n ensures !FlipsAt(blacklist, inputs[..n], i) {
        assert inputs[..n][..i] == inputs[..i];
        assert !FlipsAt(blacklist, inputs, i);
      }
      SoundWithoutFlips(blacklist, inputs[..n]);
      assert !FlipsAt(blacklist, inputs, n);
      SoundStep(Run(blacklist, inputs[..n]), blacklist, inputs[n]);
    }
  }

  /**
   Without a flip, after any events whatever: every debug check reached has held, tracing is on exactly
   while there is a subscription to it, it is never on together with read-ahead, and between launches
   both are off.
   */
  lemma LaunchesAreSafe(blacklist: Blacklist, inputs: seq<Input>, n: nat)
    requires n <= |inputs| && forall i | 0 <= i < |inputs| :: !FlipsAt(blacklist, inputs, i)
    ensures var m := Run(blacklist, inputs[..n]);
            Coherent(m.state) && (Resting(m.last) ==> !Active(m.state))
  {
    hide Flips;
    forall i | 0 <= i < n ensures !FlipsAt(blacklist, inputs[..n], i) {
      assert inputs[..n][..i] == inputs[..i];
      assert !FlipsAt(blacklist, inputs, i);
    }
    SoundWithoutFlips(blacklist, inputs[..n]);
  }

  // After a flip the launch under way cannot be wound up.
  predicate Stuck(m: Machine, blacklist: Blacklist) {
    m.last.ActivityLaunched? && Active(m.state) && Ignored(m.state, blacklist)
  }

  lemma FlipSticks(m: Machine, blacklist: Blacklist, input: Input)
    requires Flips(m, blacklist, input)
    ensures Stuck(Step(m, blacklist, input), blacklist) && !Resting(Step(m, blacklist, input).last)
  {
    hide IsBlacklisted, TitleComponent, HasComponent;
  }

  lemma StuckStaysOn(m: Machine, blacklist: Blacklist, input: Input)
    requires Stuck(m, blacklist)
    ensures var m' := Step(m, blacklist, input); Resting(m'.last) && Active(m'.state)
  {
    hide IsBlacklisted, RecordHistory, Remove;
  }

  // Nothing is left on between launches.
  predicate QuietAt(blacklist: Blacklist, inputs: seq<Input>, n: nat)
    requires n <= |inputs|
  {
    Resting(Run(blacklist, inputs[..n]).last) ==> !Active(Run(blacklist, inputs[..n]).state)
  }

  /**
   Tracing and read-ahead are off whenever no launch is under way if and only if no event, the very last
   one apart, is the launch of a blacklisted activity while something runs for its intent.
   */
  lemma LeftOnIffFlipped(blacklist: Blacklist, inputs: seq<Input>)
    ensures (forall n | 0 <= n <= |inputs| :: QuietAt(blacklist, inputs, n)) <==>
            forall i | 0 <= i < |inputs| - 1 :: !FlipsAt(blacklist, inputs, i)
  {
    hide Step, Flips, Stuck;
    if forall i | 0 <= i < |inputs| - 1 :: !FlipsAt(blacklist, inputs, i) {
      forall n | 0 <= n <= |inputs| ensures QuietAt(blacklist, inputs, n) {
        QuietWithoutFlips(blacklist, inputs, n);
      }
    } else {
      var i :| 0 <= i < |inputs| - 1 && FlipsAt(blacklist, inputs, i);
      FlipSticks(Run(blacklist, inputs[..i]), blacklist, inputs[i]);
      assert inputs[..i + 1][..i] == inputs[..i] && inputs[..i + 2][..i + 1] == inputs[..i + 1];
      StuckStaysOn(Run(blacklist, inputs[..i + 1]), blacklist, inputs[i + 1]);
      assert !QuietAt(blacklist, inputs, i + 2);
    }
  }

  lemma QuietWithoutFlips(blacklist: Blacklist, inputs: seq<Input>, n: nat)
    requires n <= |inputs| && forall i | 0 <= i < |inputs| - 1 :: !FlipsAt(blacklist, inputs, i)
    ensures QuietAt(blacklist, inputs, n)
  {
    hide Step, Flips, Stuck;
    var k := if n == |inputs| && n > 0 then n - 1 else n;
    forall i | 0 <= i < k ensures !FlipsAt(blacklist, inputs[..k], i) {
      assert inputs[..k][..i] == inputs[..i];
      assert !FlipsAt(blacklist, inputs, i);
    }
    SoundWithoutFlips(blacklist, inputs[..k]);
    if k < n {
      assert inputs[..n][..k] == inputs[..k];
      var m := Run(blacklist, inputs[..k]);
      if Flips(m, blacklist, inputs[k]) {
        FlipSticks(m, blacklist, inputs[k]);
      } else {
        SoundStep(m, blacklist, inputs[k]);
      }
    }
  }

  // Launched with package 1, and then with package 2, which is blacklisted.
  function ExampleEvent(kind: Kind): Input {
    Input(LaunchEvent(kind, 0, Intent(true, [1], [3]), Cold, [2, SLASH, 3], 0),
          Answers(false, true, None, Some(1), None, None, None))
  }

  lemma ExampleStart()
    ensures var m := Step(Machine(Uninitialized, INITIAL), [[2]], ExampleEvent(IntentStarted));
            m.last.IntentStarted? && m.state.tracing.on
  {
    assert IntentComponent(ExampleEvent(IntentStarted).event.intent).packageName == [1];
    assert [1] != [2] by { assert [1][0] != [2][0]; }
  }

  lemma ExampleTitle()
    ensures HasComponent([2, SLASH, 3]) && IsBlacklisted([[2]], Some(TitleComponent([2, SLASH, 3])))
  {
    assert [2, SLASH, 3][1..] == [SLASH, 3] && Find([SLASH, 3], SLASH) == 0;
    assert Find([2, SLASH, 3], SLASH) == 1;
    assert [2, SLASH, 3][..1] == [2];
  }

  lemma ExampleFlips()
    ensures Flips(Step(Machine(Uninitialized, INITIAL), [[2]], ExampleEvent(IntentStarted)), [[2]], ExampleEvent(ActivityLaunched))
  {
    hide Step, HasComponent, IsBlacklisted, TitleComponent;
    ExampleStart();
    ExampleTitle();
  }

  // It happens: tracing begins for the intent, and is still on after the launch was cancelled.
  lemma FlipExample() returns (inputs: seq<Input>)
    ensures var m := Run([[2]], inputs); Resting(m.last) && Active(m.state)
  {
    hide Step, ExampleEvent, Active;
    var first, second, third := ExampleEvent(IntentStarted), ExampleEvent(ActivityLaunched), ExampleEvent(ActivityLaunchCancelled);
    inputs := [first, second, third];
    assert inputs[..2] == [first, second] && [first, second][..1] == [first] && [first][..0] == [];
    var m0 := Run([[2]], []);
    var m1 := Step(m0, [[2]], first);
    var m2 := Step(m1, [[2]], second);
    assert Run([[2]], [first]) == m1 && Run([[2]], [first, second]) == m2;
    ExampleFlips();
    FlipSticks(m1, [[2]], second);
    StuckStaysOn(m2, [[2]], third);
  }

  /// Everything begun is ended.

  // Tasks are begun and finished in turn, `current` being the one not finished yet.
  predicate InTurn(log: seq<TaskEvent>, current: Option<Task>) {
    if log == [] then current.None?
    else match log[|log| - 1]
         case Begun(task) => current == Some(task) && InTurn(log[..|log| - 1], None)
         case Finished(task) => current.None? && InTurn(log[..|log| - 1], Some(task))
  }

  // The trace subscriptions made and not dropped.
  function Live(log: seq<TraceEvent>): multiset<nat> {
    if log == [] then multiset{}
    else match log[|log| - 1]
         case Started(lifetime, _) => Live(log[..|log| - 1]) + multiset{lifetime}
         case Dropped(lifetime) => Live(log[..|log| - 1]) - multiset{lifetime}
  }

  predicate DropsAreLive(log: seq<TraceEvent>) {
    log == [] ||
    (DropsAreLive(log[..|log| - 1]) &&
     (log[|log| - 1].Dropped? ==> log[|log| - 1].lifetime in Live(log[..|log| - 1])))
  }

  // Every subscription is current, in flight, or was dropped, once.
  ghost predicate Accounted(t: Tracing) {
    && DropsAreLive(t.log)
    && Live(t.log) == multiset(t.inFlight) + (if t.lifetime.Some? then multiset{t.lifetime.value} else multiset{})
    && (forall l <- Live(t.log) :: l < t.unused)
    && (t.lifetime.Some? ==> t.lifetime.value !in t.inFlight)
  }

  ghost predicate Balanced(s: State) {
    InTurn(s.readAhead.log, s.readAhead.task) && Accounted(s.tracing)
  }

  lemma BeginInTurn(r: ReadAheads, allowed: bool, id: nat, a: Answers)
    requires InTurn(r.log, r.task) && r.task.None?
    ensures var r' := StartReadAhead(r, allowed, id, a); InTurn(r'.log, r'.task)
  {
    hide CompiledTrace;
    if CompiledTrace(a).Some? {
      var log := r.log + [Begun(Task(id, CompiledTrace(a).value))];
      assert log[..|log| - 1] == r.log;
    }
  }

  lemma FinishInTurn(r: ReadAheads)
    requires InTurn(r.log, r.task)
    ensures var r' := FinishReadAhead(r); InTurn(r'.log, r'.task)
  {
    if r.task.Some? {
      var log := r.log + [Finished(r.task.value)];
      assert log[..|log| - 1] == r.log;
    }
  }

  lemma StartAccounted(t: Tracing, allowed: bool, observable: Option<nat>, a: Answers)
    requires Accounted(t) && t.lifetime.None?
    ensures Accounted(StartTrace(t, allowed, observable, a))
  {
    if a.version.Some? {
      var log := t.log + [Started(t.unused, observable)];
      assert log[..|log| - 1] == t.log;
      forall l <- t.inFlight ensures l != t.unused {
        assert l in multiset(t.inFlight);
        assert l in Live(t.log);
      }
    }
  }

  lemma {:induction false} RemoveAbsent(list: seq<nat>, x: nat)
    requires x !in list
    ensures Remove(list, x) == list
  {
    if list != [] {
      RemoveAbsent(list[..|list| - 1], x);
    }
  }

  lemma AbortAccounted(t: Tracing)
    requires Accounted(t)
    ensures Accounted(AbortTrace(t))
  {
    hide Remove;
    if t.on && t.lifetime.Some? {
      RemoveAbsent(t.inFlight, t.lifetime.value);
      var log := t.log + [Dropped(t.lifetime.value)];
      assert log[..|log| - 1] == t.log;
    }
  }

  lemma PendingAccounted(t: Tracing)
    requires Accounted(t)
    ensures Accounted(MarkPendingTrace(t))
  {
  }

  lemma BalancedEither(s: State, a: Answers)
    requires Balanced(s) && Coherent(s) && !Active(s)
    ensures Balanced(StartEither(s, a))
  {
    hide InTurn, Accounted, StartReadAhead, StartTrace;
    BeginInTurn(s.readAhead, s.allowedReadahead, s.sequenceId, a);
    StartAccounted(s.tracing, s.allowedTracing, s.history.observable, a);
  }

  lemma BalancedEnds(s: State)
    requires Balanced(s)
    ensures InTurn(FinishReadAhead(s.readAhead).log, FinishReadAhead(s.readAhead).task)
    ensures Accounted(AbortTrace(s.tracing)) && Accounted(MarkPendingTrace(s.tracing))
  {
    hide InTurn, Accounted;
    FinishInTurn(s.readAhead);
    AbortAccounted(s.tracing);
    PendingAccounted(s.tracing);
  }

  lemma BalancedEvent(s: State, blacklist: Blacklist, event: LaunchEvent, a: Answers)
    requires Balanced(s) && Coherent(s) && (event.kind.IntentStarted? ==> !Active(s))
    ensures Balanced(OnEvent(s, blacklist, event, a))
  {
    hide InTurn, Accounted, StartEither, FinishReadAhead, AbortTrace, MarkPendingTrace, RecordHistory, ReportDrawn,
      IsBlacklisted, HasComponent, TitleComponent, IntentComponent;
    var p := Prepared(s, event, a);
    BalancedEnds(p);
    match event.kind
    case IntentStarted =>
      var q := p.(launch := p.launch.(component := Some(IntentComponent(event.intent))));
      var r := q.(history := OpenChain(q.history), failedCheck := q.failedCheck || q.tracing.on,
                  launch := if event.timestampNanos < 0 then q.launch else q.launch.(startedNs := Some(event.timestampNanos)));
      BalancedEither(r, a);
    case ActivityLaunched =>
      var q := p.(launch := p.launch.(component := Some(TitleComponent(event.title)), temperature := Some(event.temperature)));
      if !Active(q) {
        BalancedEither(q, a);
      }
      BalancedEnds(q);
    case _ =>
  }

  lemma BalancedStep(m: Machine, blacklist: Blacklist, input: Input)
    requires Balanced(m.state) && Sound(m, blacklist)
    ensures Balanced(Step(m, blacklist, input).state)
  {
    hide OnEvent, Balanced, Coherent, Active;
    var delivered := Passed(input.event, Judge(m.last, input.event).1);
    if delivered != [] {
      assert delivered[0].kind.IntentStarted? ==> Resting(m.last);
      BalancedEvent(m.state, blacklist, delivered[0], input.answers);
    }
  }

  lemma {:induction false} BalancedWithoutFlips(blacklist: Blacklist, inputs: seq<Input>)
    requires forall i | 0 <= i < |inputs| :: !FlipsAt(blacklist, inputs, i)
    ensures Balanced(Run(blacklist, inputs).state)
  {
    hide Step, Flips, Sound, Balanced;
    if inputs == [] {
      StartIsSound(blacklist);
    } else {
      var n := |inputs| - 1;
      forall i | 0 <= i < n ensures !FlipsAt(blacklist, inputs[..n], i) {
        assert inputs[..n][..i] == inputs[..i];
        assert !FlipsAt(blacklist, inputs, i);
      }
      BalancedWithoutFlips(blacklist, inputs[..n]);
      SoundWithoutFlips(blacklist, inputs[..n]);
      BalancedStep(Run(blacklist, inputs[..n]), blacklist, inputs[n]);
    }
  }

  /**
   Between launches of a run without flips, every read-ahead task begun has been finished, one before the
   next, and every trace subscription was either dropped, once, or left in flight to be written out.
   */
  lemma NothingIsLost(blacklist: Blacklist, inputs: seq<Input>)
    requires forall i | 0 <= i < |inputs| :: !FlipsAt(blacklist, inputs, i)
    requires Resting(Run(blacklist, inputs).last)
    ensures var s := Run(blacklist, inputs).state;
            InTurn(s.readAhead.log, None) && DropsAreLive(s.tracing.log) &&
            Live(s.tracing.log) == multiset(s.tracing.inFlight)
  {
    hide Step, Flips, Run, InTurn, DropsAreLive, Live;
    BalancedWithoutFlips(blacklist, inputs);
    SoundWithoutFlips(blacklist, inputs);
  }
}
